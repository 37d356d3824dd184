// IEEE 754 binary64 and binary32 numbers as their bit patterns: which of them are integers
// that a 64-bit float holds exactly, and how the narrow ones widen.
module Floats {

  const TWO23: nat := 0x80_0000
  const TWO29: nat := 0x2000_0000
  const TWO31: nat := 0x8000_0000
  const TWO32: nat := 0x1_0000_0000
  const TWO52: nat := 0x10_0000_0000_0000
  const TWO53: nat := 0x20_0000_0000_0000
  const TWO63: nat := 0x8000_0000_0000_0000
  const TWO64: nat := 0x1_0000_0000_0000_0000

  type Bits64 = x: nat | x < TWO64 witness 0
  type Bits32 = x: nat | x < TWO32 witness 0

  // What a number is to the encoder: a safe integer, negative zero, or anything else.
  datatype Class = Whole(n: int) | MinusZero | Fraction

  function Pow2(k: nat): (p: nat)
    ensures p > 0
  {
    if k == 0 then 1 else 2 * Pow2(k - 1)
  }

  // Sign, exponent field and fraction field.
  function Double(sign: nat, e: nat, m: nat): Bits64
    requires sign <= 1 && e < 2048 && m < TWO52
  {
    sign * TWO63 + e * TWO52 + m
  }

  function Classify(x: Bits64): Class {
    var sign, e, m := x / TWO63, x / TWO52 % 2048, x % TWO52;
    if e == 0 && m == 0 then (if sign == 0 then Whole(0) else MinusZero)
    else if e < 1023 || e > 1075 || (TWO52 + m) % Pow2(1075 - e) != 0 then Fraction
    else
      var n: int := (TWO52 + m) / Pow2(1075 - e);
      Whole(if sign == 0 then n else 0 - n)
  }

  // The highest bit set.
  function Log2(m: nat): (k: nat)
    requires m > 0
    ensures Pow2(k) <= m < 2 * Pow2(k)
  {
    if m == 1 then 0 else 1 + Log2(m / 2)
  }

  lemma {:induction false} LogBelow(m: nat, k: nat)
    requires 0 < m < Pow2(k)
    ensures Log2(m) < k
  {
    if m > 1 {
      LogBelow(m / 2, k - 1);
    }
  }

  // Reading a float32 as a number: the fields are spread out, and a subnormal becomes
  // normal.
  function Widen(x: Bits32): Bits64 {
    var sign, e, m := x / TWO31, x / TWO23 % 256, x % TWO23;
    if e == 255 then Double(sign, 2047, m * TWO29)
    else if e > 0 then Double(sign, e + 896, m * TWO29)
    else if m == 0 then Double(sign, 0, 0)
    else Normalized(sign, m)
  }

  function Normalized(sign: nat, m: nat): Bits64
    requires sign <= 1 && 0 < m < TWO23
  {
    SubnormalFits(m);
    Double(sign, Log2(m) + 874, (m - Pow2(Log2(m))) * Pow2(52 - Log2(m)))
  }

  lemma SubnormalFits(m: nat)
    requires 0 < m < TWO23
    ensures Log2(m) < 23 && (m - Pow2(Log2(m))) * Pow2(52 - Log2(m)) < TWO52
    ensures Pow2(Log2(m)) * Pow2(52 - Log2(m)) == TWO52
  {
    var k := Log2(m);
    assert Pow2(23) == TWO23 && Pow2(52) == TWO52 by {
      Powers();
    }
    LogBelow(m, 23);
    PowSum(k, 52 - k);
    Scaled(m - Pow2(k), Pow2(k), Pow2(52 - k));
  }

  lemma Powers()
    ensures Pow2(23) == TWO23 && Pow2(29) == TWO29 && Pow2(52) == TWO52 && Pow2(53) == TWO53
  {
    assert Pow2(10) == 1024;
    PowSum(10, 10);
    PowSum(20, 3);
    PowSum(20, 9);
    PowSum(23, 29);
    PowSum(52, 1);
  }

  lemma {:induction false} PowSum(a: nat, b: nat)
    ensures Pow2(a + b) == Pow2(a) * Pow2(b)
  {
    if a > 0 {
      PowSum(a - 1, b);
    }
  }

  lemma Scaled(a: nat, b: nat, p: nat)
    requires a < b && p > 0
    ensures a * p < b * p
  {
  }

  // ---------------------------------------------------------------------------
  // What the patterns denote
  // ---------------------------------------------------------------------------

  // Two to a power of either sign.
  ghost function Power(e: int): (p: real)
    ensures p > 0.0
  {
    if e >= 0 then Pow2(e) as real else 1.0 / Pow2(-e) as real
  }

  ghost function Signed(sign: nat, magnitude: real): real {
    if sign == 0 then magnitude else 0.0 - magnitude
  }

  ghost predicate Finite64(x: Bits64) {
    x / TWO52 % 2048 < 2047
  }

  ghost function Value64(x: Bits64): real
    requires Finite64(x)
  {
    var e, m := x / TWO52 % 2048, x % TWO52;
    Signed(x / TWO63, Magnitude(e, m))
  }

  ghost function Magnitude(e: nat, m: nat): real {
    if e == 0 then Times(m, -1074) else Times(TWO52 + m, e - 1075)
  }

  ghost function Times(significand: nat, e: int): real {
    significand as real * Power(e)
  }

  ghost predicate Finite32(x: Bits32) {
    x / TWO23 % 256 < 255
  }

  ghost function Value32(x: Bits32): real
    requires Finite32(x)
  {
    var e, m := x / TWO23 % 256, x % TWO23;
    Signed(x / TWO31, if e == 0 then Times(m, -149) else Times(TWO23 + m, e - 150))
  }

  lemma DoubleFields(sign: nat, e: nat, m: nat)
    requires sign <= 1 && e < 2048 && m < TWO52
    ensures var x := Double(sign, e, m); x / TWO63 == sign && x / TWO52 % 2048 == e && x % TWO52 == m
  {
    var x := Double(sign, e, m);
    assert x / TWO52 == sign * 2048 + e;
  }

  lemma Cancel(a: real, b: real)
    requires a > 0.0 && b > 0.0
    ensures a * b > 0.0 && a * (1.0 / (a * b)) == 1.0 / b
  {
    var c := 1.0 / (a * b);
    assert c * (a * b) == 1.0;
    assert (a * c) * b == 1.0;
  }

  lemma AsReal(a: int, b: int)
    ensures (a * b) as real == a as real * b as real
  {
  }

  lemma PowSumReal(a: nat, b: nat)
    ensures Pow2(a + b) as real == Pow2(a) as real * Pow2(b) as real
  {
    PowSum(a, b);
    AsReal(Pow2(a), Pow2(b));
  }

  lemma CancelRight(a: real, b: real)
    requires b > 0.0
    ensures a * b * (1.0 / b) == a
  {
    assert b * (1.0 / b) == 1.0;
    assert a * b * (1.0 / b) == a * (b * (1.0 / b));
  }

  lemma PowerDown(e: int, k: nat)
    ensures Power(e) == Pow2(k) as real * Power(e - k)
  {
    hide Power, Pow2;
    if e >= k {
      PowerUp(k, e - k);
    } else if e >= 0 {
      PowerAcross(e, k - e);
    } else {
      PowerBelow(k, -e);
    }
  }

  lemma PowerUp(k: nat, f: nat)
    ensures Power(k + f) == Pow2(k) as real * Power(f)
  {
    hide Pow2;
    PowSumReal(k, f);
  }

  lemma PowerAcross(e: nat, f: nat)
    ensures Power(e) == Pow2(e + f) as real * Power(0 - f)
  {
    PowSumReal(e, f);
    CancelRight(Pow2(e) as real, Pow2(f) as real);
    assert Pow2(0) == 1;
    hide Pow2;
    assert Power(0 - f) == 1.0 / Pow2(f) as real;
  }

  lemma PowerBelow(k: nat, f: nat)
    requires f > 0
    ensures Power(0 - f) == Pow2(k) as real * Power(0 - f - k)
  {
    hide Pow2;
    PowSumReal(k, f);
    Cancel(Pow2(k) as real, Pow2(f) as real);
    assert Power(0 - f - k) == 1.0 / Pow2(k + f) as real;
  }

  lemma Spread(significand: nat, k: nat, e: int)
    ensures Times(significand * Pow2(k), e - k) == Times(significand, e)
  {
    hide Pow2, Power;
    PowerDown(e, k);
    AsReal(significand, Pow2(k));
  }

  // Main result: widening keeps the number, subnormals and signs included, and keeps
  // infinities and not-a-number out of the finite ones.
  lemma WidenIsExact(x: Bits32)
    ensures Finite32(x) <==> Finite64(Widen(x))
    ensures Finite32(x) ==> Value64(Widen(x)) == Value32(x)
  {
    hide Pow2, Log2, Power, Normalized, Double, Times;
    var sign, e, m := x / TWO31, x / TWO23 % 256, x % TWO23;
    if e == 255 {
      DoubleFields(sign, 2047, m * TWO29);
    } else if e > 0 {
      DoubleFields(sign, e + 896, m * TWO29);
      Powers();
      Spread(TWO23 + m, 29, e - 150);
    } else if m == 0 {
      DoubleFields(sign, 0, 0);
      assert Times(0, -149) == 0.0 == Times(0, -1074) by {
        ZeroTimes(-149);
        ZeroTimes(-1074);
      }
    } else {
      NormalizedIsExact(sign, m);
    }
  }

  lemma NormalizedIsExact(sign: nat, m: nat)
    requires sign <= 1 && 0 < m < TWO23
    ensures Finite64(Normalized(sign, m)) && Value64(Normalized(sign, m)) == Signed(sign, Times(m, -149))
  {
    hide Pow2, Log2, Power, Double, Times;
    var k := Log2(m);
    SubnormalFits(m);
    DoubleFields(sign, k + 874, (m - Pow2(k)) * Pow2(52 - k));
    Spread(m, 52 - k, -149);
    Distribute(m, Pow2(k), Pow2(52 - k));
  }

  lemma Distribute(m: nat, a: nat, b: nat)
    requires a <= m
    ensures a * b + (m - a) * b == m * b
  {
  }

  // ---------------------------------------------------------------------------
  // Integers among the floats
  // ---------------------------------------------------------------------------

  lemma {:induction false} PowerOrder(a: int, b: int)
    requires a < b
    ensures 2.0 * Power(a) <= Power(b)
    decreases b - a
  {
    PowerDown(a + 1, 1);
    assert Pow2(1) == 2;
    if a + 1 < b {
      PowerOrder(a + 1, b);
    }
  }

  // A significand over a power of two is the integer n exactly when it is n times it.
  lemma Divided(s: nat, p: nat, n: nat)
    requires p > 0
    ensures s as real * (1.0 / p as real) == n as real <==> s == n * p
  {
    var q := 1.0 / p as real;
    CancelRight(s as real, p as real);
    CancelRight(n as real, p as real);
    AsReal(n, p);
    assert s as real * q * p as real == s as real * p as real * q;
  }

  // Where the magnitude is below one, or too great to be safe.
  lemma OutOfRange(e: nat, m: nat)
    requires e < 2047 && m < TWO52 && (e < 1023 || e > 1075) && !(e == 0 && m == 0)
    ensures 0.0 < Magnitude(e, m) < 1.0 || Magnitude(e, m) >= TWO53 as real
  {
    hide Times, Pow2;
    if e == 0 {
      Small(m, -1074);
    } else if e < 1023 {
      Small(TWO52 + m, e - 1075);
    } else {
      Great(TWO52 + m, e - 1075);
    }
  }

  lemma Small(s: nat, f: int)
    requires 0 < s < TWO53 && f <= -53
    ensures 0.0 < Times(s, f) < 1.0
  {
    Powers();
    assert Power(-53) == 1.0 / TWO53 as real;
    if f < -53 {
      PowerOrder(f, -53);
    }
    hide Power, Pow2;
    Below(s as real, TWO53 as real, Power(f), 1.0 / TWO53 as real);
  }

  lemma Great(s: nat, f: int)
    requires s >= TWO52 && f >= 1
    ensures Times(s, f) >= TWO53 as real
  {
    assert Power(1) == 2.0 by {
      assert Pow2(1) == 2;
    }
    if f > 1 {
      PowerOrder(1, f);
    }
    hide Power, Pow2;
    Above(TWO52 as real, s as real, 2.0, Power(f));
  }

  lemma Below(a: real, b: real, p: real, q: real)
    requires 0.0 < a < b && 0.0 < p <= q
    ensures 0.0 < a * p < b * q
  {
    assert a * p < b * p <= b * q;
  }

  lemma Above(a: real, b: real, p: real, q: real)
    requires 0.0 < a <= b && 0.0 < p <= q
    ensures a * p <= b * q
  {
    assert a * p <= b * p <= b * q;
  }

  // Main result: a number is classified as the integer n exactly when it is n and safe, and
  // not negative zero.
  lemma ClassifyIff(x: Bits64, n: int)
    ensures Classify(x) == Whole(n) <==>
        Finite64(x) && Value64(x) == n as real && -(TWO53 as int) < n < TWO53 && x != TWO63
  {
    var sign, e, m := x / TWO63, x / TWO52 % 2048, x % TWO52;
    assert x == Double(sign, e, m);
    hide Power, Pow2, Times, Double;
    if e == 0 && m == 0 {
      ZeroTimes(-1074);
    } else if e < 1023 || e > 1075 {
      if e < 2047 {
        OutOfRange(e, m);
        assert Classify(x) == Fraction;
        NotThere(sign, Magnitude(e, m), n);
      }
    } else {
      InRange(e, m, if sign == 0 then n else 0 - n);
    }
  }

  lemma ZeroTimes(e: int)
    ensures Times(0, e) == 0.0
  {
  }

  lemma NotThere(sign: nat, v: real, n: int)
    requires 0.0 < v < 1.0 || v >= TWO53 as real
    ensures Signed(sign, v) == n as real ==> n <= -(TWO53 as int) || TWO53 <= n
  {
  }

  lemma InRange(e: nat, m: nat, n: int)
    requires 1023 <= e <= 1075 && m < TWO52
    ensures Magnitude(e, m) == n as real <==>
        (TWO52 + m) % Pow2(1075 - e) == 0 && (TWO52 + m) / Pow2(1075 - e) == n
    ensures Magnitude(e, m) == n as real ==> 0 < n < TWO53
  {
    var s, p := TWO52 + m, Pow2(1075 - e);
    InversePower(1075 - e);
    hide Power, Pow2;
    assert Magnitude(e, m) == s as real * (1.0 / p as real);
    hide Magnitude;
    if n >= 0 {
      Divided(s, p, n);
      Multiple(s, p, n);
    } else {
      Above(1.0, s as real, 1.0 / p as real, 1.0 / p as real);
    }
  }

  lemma InversePower(k: nat)
    ensures Power(0 - k) == 1.0 / Pow2(k) as real
  {
    assert Pow2(0) == 1;
    hide Pow2;
  }

  lemma Multiple(s: nat, p: nat, n: nat)
    requires p > 0 && s > 0
    ensures s == n * p <==> s % p == 0 && s / p == n
    ensures s == n * p ==> 0 < n <= s
  {
    var q := s / p;
    assert s == q * p + s % p;
    if q < n {
      AtLeast(q + 1, n, p);
    } else if n < q {
      AtLeast(n + 1, q, p);
    }
    if s == n * p {
      AtLeast(1, p, n);
    }
  }

  lemma AtLeast(a: nat, b: nat, p: nat)
    requires a <= b
    ensures a * p <= b * p
  {
  }
}
