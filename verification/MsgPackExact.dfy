// When the codec gives back the very value it was given, and what it guarantees on
// bytes nobody encoded.
module MsgPackExact {
  import opened Utf8
  import opened MsgPack
  import opened MsgPackRoundTrip
  import Floats

  // ---------------------------------------------------------------------------
  // Which values survive unchanged
  // ---------------------------------------------------------------------------

  // No undefined, negative zero, bigint, Map, repeated key, or string that starts with
  // a byte order mark.
  ghost predicate Plain(v: Value) {
    match v
    case Undefined => false
    case NegZero => false
    case BigInt(_) => false
    case MapOf(_) => false
    case Str(s) => s == "" || s[0] != '\U{FEFF}'
    case Arr(items) => forall i :: 0 <= i < |items| ==> Plain(items[i])
    case Obj(es) => DistinctKeys(es) && forall i :: 0 <= i < |es| ==> Plain(es[i].0) && Plain(es[i].1)
    case _ => true
  }

  ghost predicate HasKey(es: seq<(Value, Value)>, k: Value) {
    exists i :: 0 <= i < |es| && es[i].0 == k
  }

  ghost predicate DistinctKeys(es: seq<(Value, Value)>) {
    forall i, j :: 0 <= i < j < |es| ==> es[i].0 != es[j].0
  }

  function NormPairs(es: seq<(Value, Value)>): (r: seq<(Value, Value)>)
    ensures |r| == |es|
  {
    if es == [] then [] else [NormPair(es[0])] + NormPairs(es[1..])
  }

  lemma {:induction false} UpsertFresh(es: seq<(Value, Value)>, k: Value, v: Value)
    ensures |Upsert(es, k, v)| == (if HasKey(es, k) then |es| else |es| + 1)
    ensures !HasKey(es, k) ==> Upsert(es, k, v) == es + [(k, v)]
  {
    if es != [] {
      UpsertFresh(es[1..], k, v);
      if es[0].0 != k {
        if HasKey(es, k) {
          var i :| 0 <= i < |es| && es[i].0 == k;
          assert es[1..][i - 1].0 == k;
        }
        if HasKey(es[1..], k) {
          var i :| 0 <= i < |es[1..]| && es[1..][i].0 == k;
          assert es[i + 1].0 == k;
        }
      }
    }
  }

  // Entries are only appended when no key ever repeats; a repeat makes the result shorter.
  lemma {:induction false} EntriesAppend(es: seq<(Value, Value)>, acc: seq<(Value, Value)>)
    ensures |NormEntries(es, acc)| <= |acc| + |es|
    ensures |NormEntries(es, acc)| == |acc| + |es| ==> NormEntries(es, acc) == acc + NormPairs(es)
    ensures DistinctKeys(acc + NormPairs(es)) ==> NormEntries(es, acc) == acc + NormPairs(es)
    ensures DistinctKeys(acc) && |NormEntries(es, acc)| == |acc| + |es| ==> DistinctKeys(acc + NormPairs(es))
  {
    if es == [] {
      assert acc + NormPairs(es) == acc;
    } else {
      var (k, v) := NormPair(es[0]);
      UpsertFresh(acc, k, v);
      EntriesAppend(es[1..], Upsert(acc, k, v));
      assert acc + NormPairs(es) == acc + [(k, v)] + NormPairs(es[1..]);
      if HasKey(acc, k) {
        var i :| 0 <= i < |acc| && acc[i].0 == k;
        var all := acc + NormPairs(es);
        assert all[i].0 == all[|acc|].0;
      }
    }
  }

  // A value comes back unchanged exactly when it is plain.
  lemma {:induction false} UnchangedIffPlain(v: Value)
    ensures Norm(v) == v <==> Plain(v)
  {
    hide NormItems, NormEntries, NormPairs, Decimal, DistinctKeys;
    match v
    case Arr(items) => ItemsUnchanged(items);
    case Obj(es) => ObjUnchanged(es);
    case Str(s) =>
      if s != "" && s[0] == '\U{FEFF}' {
        assert |StripBom(s)| < |s|;
      }
    case BigInt(n) =>
    case _ =>
  }

  lemma {:induction false} ObjUnchanged(es: seq<(Value, Value)>)
    ensures NormEntries(es, []) == es <==>
      DistinctKeys(es) && forall i :: 0 <= i < |es| ==> Plain(es[i].0) && Plain(es[i].1)
    decreases es, 1
  {
    hide Plain;
    EntriesAppend(es, []);
    PairsUnchanged(es);
    assert [] + NormPairs(es) == NormPairs(es);
  }

  lemma {:induction false} ItemsUnchanged(items: seq<Value>)
    ensures NormItems(items) == items <==> forall i :: 0 <= i < |items| ==> Plain(items[i])
  {
    if items != [] {
      UnchangedIffPlain(items[0]);
      ItemsUnchanged(items[1..]);
      assert forall i :: 0 < i < |items| ==> items[i] == items[1..][i - 1];
      assert items == [items[0]] + items[1..];
      if forall i :: 0 <= i < |items| ==> Plain(items[i]) {
        assert forall i :: 0 <= i < |items[1..]| ==> Plain(items[1..][i]);
      }
    }
  }

  lemma {:induction false} PairsUnchanged(es: seq<(Value, Value)>)
    ensures NormPairs(es) == es <==> forall i :: 0 <= i < |es| ==> Plain(es[i].0) && Plain(es[i].1)
    decreases es, 0
  {
    if es != [] {
      PairUnchanged(es[0]);
      PairsUnchanged(es[1..]);
      assert forall i :: 0 < i < |es| ==> es[i] == es[1..][i - 1];
      assert es == [es[0]] + es[1..];
      if forall i :: 0 <= i < |es| ==> Plain(es[i].0) && Plain(es[i].1) {
        assert forall i :: 0 <= i < |es[1..]| ==> Plain(es[1..][i].0) && Plain(es[1..][i].1);
      }
    }
  }

  lemma {:induction false} PairUnchanged(e: (Value, Value))
    ensures NormPair(e) == e <==> Plain(e.0) && Plain(e.1)
  {
    UnchangedIffPlain(e.0);
    UnchangedIffPlain(e.1);
  }

  // ---------------------------------------------------------------------------
  // Numbers
  // ---------------------------------------------------------------------------

  // Every number in the value is one that a number holds exactly.
  ghost predicate SafeInts(v: Value) {
    match v
    case Int(n) => -MAX_SAFE <= n <= MAX_SAFE
    case Arr(items) => forall i :: 0 <= i < |items| ==> SafeInts(items[i])
    case Obj(es) => forall i :: 0 <= i < |es| ==> SafeInts(es[i].0) && SafeInts(es[i].1)
    case _ => true
  }

  ghost predicate SafeEntries(es: seq<(Value, Value)>) {
    forall i :: 0 <= i < |es| ==> SafeInts(es[i].0) && SafeInts(es[i].1)
  }

  // Main result: whatever the bytes, an integer is decoded to a number only if that is exact.
  lemma {:induction false} DecodedIntsAreSafe(b: seq<byte>)
    requires Dec(b).Ok?
    ensures SafeInts(Dec(b).value)
    decreases |b|, 0, 0
  {
    hide DecScalar, Counted, FromBE, Decode, DecItems, DecEntries;
    var tag, t := b[0], b[1..];
    if 0x80 <= tag <= 0x8F {
      EntriesAreSafe(t, tag % 16, []);
    } else if 0x90 <= tag <= 0x9F {
      ItemsAreSafe(t, tag % 16);
    } else if 0xC0 <= tag <= 0xD8 {
      ScalarIsSafe(tag, t);
    } else if 0xDC <= tag <= 0xDD {
      var k := if tag == 0xDC then 2 else 4;
      ItemsAreSafe(t[k..], U(t, k).value);
    } else if 0xDE <= tag <= 0xDF {
      var k := if tag == 0xDE then 2 else 4;
      EntriesAreSafe(t[k..], U(t, k).value, []);
    }
  }

  lemma ScalarIsSafe(tag: byte, t: seq<byte>)
    requires DecScalar(tag, t).Ok?
    ensures SafeInts(DecScalar(tag, t).value)
  {
    hide Counted, FromBE, Decimal, Floats.Classify;
    Widths();
    if tag == 0xCA || tag == 0xCB {
      var k := if tag == 0xCA then 4 else 8;
      var x: Floats.Bits64 := if k == 4 then Floats.Widen(U(t, k).value) else U(t, k).value;
      WholeIsSafe(x);
    } else if 0xCC <= tag <= 0xCE {
      FieldBelow(t, if tag == 0xCC then 1 else if tag == 0xCD then 2 else 4);
    } else if 0xD0 <= tag <= 0xD2 {
      FieldBelow(t, if tag == 0xD0 then 1 else if tag == 0xD1 then 2 else 4);
    }
  }

  lemma FieldBelow(t: seq<byte>, k: nat)
    requires |t| >= k && (k == 1 || k == 2 || k == 4)
    ensures U(t, k).value < 0x1_0000_0000 && -0x1_0000_0000 < S(t, k).value < 0x1_0000_0000
  {
    Widths();
    assert |t[..k]| == k && FromBE(t[..k]) < Pow256(k);
  }

  lemma WholeIsSafe(x: Floats.Bits64)
    ensures Floats.Classify(x).Whole? ==> -MAX_SAFE <= Floats.Classify(x).n <= MAX_SAFE
  {
    if Floats.Classify(x).Whole? {
      Floats.ClassifyIff(x, Floats.Classify(x).n);
    }
  }

  lemma {:induction false} ItemsAreSafe(b: seq<byte>, n: nat)
    requires DecItems(b, n).Ok?
    ensures forall i :: 0 <= i < n ==> SafeInts(DecItems(b, n).value[i])
    decreases |b|, n
  {
    if n > 0 {
      DecodedIntsAreSafe(b);
      ItemsAreSafe(b[Dec(b).used..], n - 1);
    }
  }

  lemma {:induction false} EntriesAreSafe(b: seq<byte>, n: nat, acc: seq<(Value, Value)>)
    requires DecEntries(b, n, acc).Ok? && SafeEntries(acc)
    ensures SafeEntries(DecEntries(b, n, acc).value)
    decreases |b|, n
  {
    hide Dec, Upsert, SafeInts;
    if n > 0 {
      var k, i := Dec(b).value, Dec(b).used;
      var v, j := Dec(b[i..]).value, Dec(b[i..]).used;
      DecodedIntsAreSafe(b);
      DecodedIntsAreSafe(b[i..]);
      UpsertIsSafe(acc, k, v);
      EntriesAreSafe(b[i + j..], n - 1, Upsert(acc, k, v));
    }
  }

  lemma {:induction false} UpsertIsSafe(es: seq<(Value, Value)>, k: Value, v: Value)
    requires SafeEntries(es) && SafeInts(k) && SafeInts(v)
    ensures SafeEntries(Upsert(es, k, v))
  {
    hide SafeInts;
    if es != [] {
      UpsertIsSafe(es[1..], k, v);
    }
  }

  // Main result: no bytes of an integer format are shorter than the ones the encoder picks.
  lemma IntIsShortest(n: int, b: seq<byte>)
    requires -MAX_SAFE <= n <= MAX_SAFE
    requires Dec(b).Ok? && Dec(b).value == Int(n) && b[0] != 0xCA && b[0] != 0xCB
    ensures |EncInt(n)| <= Dec(b).used
  {
    hide FromBE, FromSigned, DecItems, DecEntries, Counted, Decimal, Decode, BE;
    var tag, t := b[0], b[1..];
    if 0xCC <= tag <= 0xCF {
      var k := if tag == 0xCC then 1 else if tag == 0xCD then 2 else if tag == 0xCE then 4 else 8;
      FieldRange(t, k);
    } else if 0xD0 <= tag <= 0xD3 {
      var k := if tag == 0xD0 then 1 else if tag == 0xD1 then 2 else if tag == 0xD2 then 4 else 8;
      FieldRange(t, k);
    }
  }

  // What fields of each width hold.
  lemma FieldRange(t: seq<byte>, k: nat)
    requires |t| >= k && (k == 1 || k == 2 || k == 4 || k == 8)
    ensures var p := if k == 1 then 0x100 else if k == 2 then 0x1_0000 else if k == 4 then 0x1_0000_0000
                     else 0x1_0000_0000_0000_0000;
      U(t, k).value < p && -p <= 2 * S(t, k).value < p
  {
    Widths();
    assert |t[..k]| == k && FromBE(t[..k]) < Pow256(k);
  }

  // Assigning a key that is there replaces its value where it stands, and no other entry.
  lemma {:induction false} UpsertReplaces(es: seq<(Value, Value)>, k: Value, v: Value, at: nat)
    requires at < |es| && es[at].0 == k && forall i :: 0 <= i < at ==> es[i].0 != k
    ensures Upsert(es, k, v) == es[at := (k, v)]
  {
    if at > 0 {
      UpsertReplaces(es[1..], k, v, at - 1);
      assert es[at := (k, v)] == [es[0]] + es[1..][at - 1 := (k, v)];
    } else {
      assert es[0 := (k, v)] == [(k, v)] + es[1..];
    }
  }

  // ---------------------------------------------------------------------------
  // Arbitrary input
  // ---------------------------------------------------------------------------

  // A successful decode looks at nothing past what it consumed.
  lemma {:induction false} DecodesByPrefix(b: seq<byte>, c: seq<byte>)
    requires Dec(b).Ok? && Dec(b).used <= |c| && c[..Dec(b).used] == b[..Dec(b).used]
    ensures Dec(c) == Dec(b)
    decreases |b|, 0, 0
  {
    hide DecScalar, Counted, FromBE, Decode, DecItems, DecEntries;
    var tag, t, u, used := b[0], b[1..], c[1..], Dec(b).used;
    SamePrefix(b, c, used, 1);
    if 0x80 <= tag <= 0x8F {
      EntriesByPrefix(t, u, tag % 16, []);
    } else if 0x90 <= tag <= 0x9F {
      ItemsByPrefix(t, u, tag % 16);
    } else if 0xA0 <= tag <= 0xBF {
      SamePrefix(t, u, used - 1, tag % 32);
    } else if 0xC0 <= tag <= 0xD8 {
      ScalarByPrefix(tag, t, u);
    } else if 0xD9 <= tag <= 0xDB {
      CountedByPrefix(t, u, if tag == 0xD9 then 1 else if tag == 0xDA then 2 else 4);
    } else if 0xDC <= tag <= 0xDD {
      var k := if tag == 0xDC then 2 else 4;
      SamePrefix(t, u, used - 1, k);
      ItemsByPrefix(t[k..], u[k..], U(t, k).value);
    } else if 0xDE <= tag <= 0xDF {
      var k := if tag == 0xDE then 2 else 4;
      SamePrefix(t, u, used - 1, k);
      EntriesByPrefix(t[k..], u[k..], U(t, k).value, []);
    }
  }

  lemma SamePrefix(b: seq<byte>, c: seq<byte>, n: nat, k: nat)
    requires k <= n <= |b| && n <= |c| && b[..n] == c[..n]
    ensures b[..k] == c[..k] && b[k..][..n - k] == c[k..][..n - k]
    ensures forall i :: 0 <= i < n ==> b[i] == c[i]
  {
    assert forall i :: 0 <= i < n ==> b[i] == b[..n][i] && c[i] == c[..n][i];
  }

  lemma CountedByPrefix(b: seq<byte>, c: seq<byte>, k: nat)
    requires Counted(b, k).Ok? && Counted(b, k).used <= |c|
    requires c[..Counted(b, k).used] == b[..Counted(b, k).used]
    ensures Counted(c, k) == Counted(b, k)
  {
    SamePrefix(b, c, Counted(b, k).used, k);
    var n := U(b, k).value;
    assert b[k..][..n] == c[k..][..n];
  }

  lemma ExtByPrefix(b: seq<byte>, c: seq<byte>, n: nat)
    requires ExtBody(b, n).Ok? && ExtBody(b, n).used <= |c|
    requires c[..ExtBody(b, n).used] == b[..ExtBody(b, n).used]
    ensures ExtBody(c, n) == ExtBody(b, n)
  {
    SamePrefix(b, c, n + 1, 1);
  }

  lemma ScalarByPrefix(tag: byte, b: seq<byte>, c: seq<byte>)
    requires DecScalar(tag, b).Ok? && DecScalar(tag, b).used <= |c|
    requires c[..DecScalar(tag, b).used] == b[..DecScalar(tag, b).used]
    ensures DecScalar(tag, c) == DecScalar(tag, b)
  {
    hide Counted, ExtBody, FromBE, FromSigned, NumberOrString;
    if 0xC4 <= tag <= 0xC6 {
      CountedByPrefix(b, c, if tag == 0xC4 then 1 else if tag == 0xC5 then 2 else 4);
    } else if 0xC7 <= tag <= 0xC9 {
      var k := if tag == 0xC7 then 1 else if tag == 0xC8 then 2 else 4;
      SamePrefix(b, c, DecScalar(tag, b).used, k);
      ExtByPrefix(b[k..], c[k..], U(b, k).value);
    } else if 0xD4 <= tag <= 0xD8 {
      ExtByPrefix(b, c, if tag == 0xD4 then 1 else if tag == 0xD5 then 2 else if tag == 0xD6 then 4
                        else if tag == 0xD7 then 8 else 16);
    }
  }

  lemma {:induction false} ItemsByPrefix(b: seq<byte>, c: seq<byte>, n: nat)
    requires DecItems(b, n).Ok? && DecItems(b, n).used <= |c|
    requires c[..DecItems(b, n).used] == b[..DecItems(b, n).used]
    ensures DecItems(c, n) == DecItems(b, n)
    decreases |b|, n
  {
    if n > 0 {
      var i, used := Dec(b).used, DecItems(b, n).used;
      SamePrefix(b, c, used, i);
      DecodesByPrefix(b, c);
      ItemsByPrefix(b[i..], c[i..], n - 1);
    }
  }

  lemma {:induction false} EntriesByPrefix(b: seq<byte>, c: seq<byte>, n: nat, acc: seq<(Value, Value)>)
    requires DecEntries(b, n, acc).Ok? && DecEntries(b, n, acc).used <= |c|
    requires c[..DecEntries(b, n, acc).used] == b[..DecEntries(b, n, acc).used]
    ensures DecEntries(c, n, acc) == DecEntries(b, n, acc)
    decreases |b|, n
  {
    hide Dec, Upsert;
    if n > 0 {
      var used := DecEntries(b, n, acc).used;
      var k, i := Dec(b).value, Dec(b).used;
      var v, j := Dec(b[i..]).value, Dec(b[i..]).used;
      EntryPrefix(b, c, used, i, j);
      EntriesByPrefix(b[i + j..], c[i + j..], n - 1, Upsert(acc, k, v));
    }
  }

  lemma {:induction false} EntryPrefix(b: seq<byte>, c: seq<byte>, used: nat, i: nat, j: nat)
    requires Dec(b).Ok? && Dec(b).used == i && Dec(b[i..]).Ok? && Dec(b[i..]).used == j
    requires i + j <= used <= |b| && used <= |c| && b[..used] == c[..used]
    ensures Dec(c) == Dec(b) && Dec(c[i..]) == Dec(b[i..])
    ensures b[i + j..][..used - i - j] == c[i + j..][..used - i - j]
    decreases |b|, 0, 1
  {
    hide Dec;
    SamePrefix(b, c, used, i);
    DecodesByPrefix(b, c);
    SamePrefix(b[i..], c[i..], used - i, j);
    DecodesByPrefix(b[i..], c[i..]);
    SamePrefix(b, c, used, i + j);
  }
}
