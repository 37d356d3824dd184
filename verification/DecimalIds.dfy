// Ids as the client holds them: decimal strings, compared by length and then by text.
module DecimalIds {
  import opened Text

  // A decimal numeral without superfluous zeros.
  predicate Canonical(s: string) {
    s != "" && Digits(s) && (|s| > 1 ==> s[0] != '0')
  }

  predicate Digits(s: string) {
    forall i :: 0 <= i < |s| ==> Digit(s[i])
  }

  function DigitOf(c: char): nat
    requires Digit(c)
  {
    c as int - '0' as int
  }

  function Value(s: string): nat
    requires Digits(s)
  {
    if s == "" then 0 else 10 * Value(s[..|s| - 1]) + DigitOf(s[|s| - 1])
  }

  function IdCompare(a: string, b: string): int {
    if |a| != |b| then |a| - |b|
    else if TextLess(a, b) then -1
    else if TextLess(b, a) then 1
    else 0
  }

  function Pow10(n: nat): (p: nat)
    ensures p > 0
  {
    if n == 0 then 1 else 10 * Pow10(n - 1)
  }

  lemma {:induction false} ValueBelow(s: string)
    requires Digits(s)
    ensures Value(s) < Pow10(|s|)
  {
    if s != "" {
      ValueBelow(s[..|s| - 1]);
    }
  }

  // The value by the leading digit instead of the last.
  lemma {:induction false} ValueByLead(s: string)
    requires Digits(s) && s != ""
    ensures Value(s) == DigitOf(s[0]) * Pow10(|s| - 1) + Value(s[1..])
  {
    if |s| == 1 {
      assert s[..0] == "" && s[1..] == "";
    } else {
      var init := s[..|s| - 1];
      ValueByLead(init);
      assert init[1..] == s[1..][..|s[1..]| - 1];
    }
  }

  lemma {:induction false} TextIsValue(a: string, b: string)
    requires Digits(a) && Digits(b) && |a| == |b|
    ensures TextLess(a, b) <==> Value(a) < Value(b)
    ensures Value(a) == Value(b) ==> a == b
  {
    if a != "" {
      TextIsValue(a[1..], b[1..]);
      ValueByLead(a);
      ValueByLead(b);
      ValueBelow(a[1..]);
      ValueBelow(b[1..]);
      LeadDecides(DigitOf(a[0]), DigitOf(b[0]), Pow10(|a| - 1), Value(a[1..]), Value(b[1..]));
      assert a == [a[0]] + a[1..] && b == [b[0]] + b[1..];
    }
  }

  lemma LeadDecides(x: nat, y: nat, p: nat, r: nat, s: nat)
    requires r < p && s < p
    ensures x < y ==> x * p + r < y * p + s
    ensures y < x ==> y * p + s < x * p + r
  {
    if x < y {
      MultipleStep(x, y, p);
    } else if y < x {
      MultipleStep(y, x, p);
    }
  }

  lemma {:induction false} MultipleStep(x: nat, y: nat, p: nat)
    requires x < y
    ensures x * p + p <= y * p
    decreases y
  {
    if x + 1 == y {
      assert y * p == x * p + p;
    } else {
      MultipleStep(x, y - 1, p);
      assert y * p == (y - 1) * p + p;
    }
  }

  // A canonical numeral of more digits is greater.
  lemma LongerIsGreater(a: string, b: string)
    requires Canonical(a) && Canonical(b) && |a| < |b|
    ensures Value(a) < Value(b)
  {
  }

  // Main result: the comparison of canonical ids is the comparison of their numbers.
  lemma CompareIsNumeric(a: string, b: string)
    requires Canonical(a) && Canonical(b)
    ensures IdCompare(a, b) < 0 <==> Value(a) < Value(b)
    ensures IdCompare(a, b) > 0 <==> Value(a) > Value(b)
    ensures IdCompare(a, b) == 0 <==> a == b
    ensures a == b <==> Value(a) == Value(b)
  {
    if |a| < |b| {
      LongerIsGreater(a, b);
    } else if |b| < |a| {
      LongerIsGreater(b, a);
    } else {
      TextIsValue(a, b);
      TextIsValue(b, a);
    }
  }

  // `s` stands for its number in every comparison with a canonical numeral.
  ghost predicate ComparesNumerically(s: string)
    requires Digits(s)
  {
    forall c: string | Canonical(c) ::
      && (IdCompare(s, c) < 0 <==> Value(s) < Value(c))
      && (IdCompare(s, c) > 0 <==> Value(s) > Value(c))
  }

  function Stripped(s: string): string {
    if |s| > 1 && s[0] == '0' then Stripped(s[1..]) else s
  }

  lemma {:induction false} StrippedValue(s: string)
    requires Digits(s) && s != ""
    ensures Canonical(Stripped(s)) && Value(Stripped(s)) == Value(s)
    ensures |Stripped(s)| <= |s| && (Stripped(s) == s <==> Canonical(s))
    ensures |Stripped(s)| == |s| ==> Stripped(s) == s
  {
    if |s| > 1 && s[0] == '0' {
      ValueByLead(s);
      StrippedValue(s[1..]);
    }
  }

  // Main result: strings of digits compare as their numbers exactly when they have no
  // superfluous zeros.
  lemma ComparesNumericallyIff(s: string)
    requires Digits(s)
    ensures ComparesNumerically(s) <==> Canonical(s)
  {
    hide TextLess;
    if Canonical(s) {
      forall c: string | Canonical(c)
        ensures (IdCompare(s, c) < 0 <==> Value(s) < Value(c)) && (IdCompare(s, c) > 0 <==> Value(s) > Value(c))
      {
        CompareIsNumeric(s, c);
      }
    } else {
      var c := if s == "" then "0" else Stripped(s);
      if s != "" {
        StrippedValue(s);
      }
      hide Value, Stripped;
      assert Canonical(c) && |c| != |s|;
    }
  }
}
