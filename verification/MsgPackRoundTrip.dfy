// decode(encode(v)) for every value, with any bytes after it.
module MsgPackRoundTrip {
  import opened Utf8
  import opened MsgPack
  import opened Text
  import Floats
  import D = DecimalIds

  const LIMIT: nat := 0x1_0000_0000

  // The values whose encoding is faithful: integers that are safe, eight-byte doubles,
  // extension types that fit a byte, lengths that fit 32 bits, and no throwing leaf.
  predicate Encodable(v: Value) {
    match v
    case Int(n) => -MAX_SAFE <= n <= MAX_SAFE
    case Double(bits) => |bits| == 8 && IsDouble(bits)
    case Str(s) => |Encode(s)| < LIMIT
    case Bin(data) => |data| < LIMIT
    case Ext(tag, data) => -128 <= tag < 128 && |data| < LIMIT
    case Arr(items) => |items| < LIMIT && forall i :: 0 <= i < |items| ==> Encodable(items[i])
    case Obj(es) => |es| < LIMIT && forall i :: 0 <= i < |es| ==> Encodable(es[i].0) && Encodable(es[i].1)
    case MapOf(es) => |es| < LIMIT && forall i :: 0 <= i < |es| ==> Encodable(es[i].0) && Encodable(es[i].1)
    case _ => CanEncode(v)
  }

  // The bytes of a number that is neither a safe integer nor negative zero.
  predicate IsDouble(bits: seq<byte>)
    requires |bits| == 8
  {
    Widths();
    Floats.Classify(FromBE(bits)).Fraction?
  }

  // What a value comes back as.
  function Norm(v: Value): Value {
    match v
    case Undefined => Null
    case NegZero => Int(0)
    case BigInt(n) => NumberOrString(n)
    case Str(s) => Str(StripBom(s))
    case Arr(items) => Arr(NormItems(items))
    case Obj(es) => Obj(NormEntries(es, []))
    case MapOf(es) => Obj(NormEntries(es, []))
    case _ => v
  }

  function NormItems(items: seq<Value>): (r: seq<Value>)
    ensures |r| == |items|
  {
    if items == [] then [] else [Norm(items[0])] + NormItems(items[1..])
  }

  function NormEntries(es: seq<(Value, Value)>, acc: seq<(Value, Value)>): seq<(Value, Value)> {
    if es == [] then acc
    else
      var (k, v) := NormPair(es[0]);
      NormEntries(es[1..], Upsert(acc, k, v))
  }

  function NormPair(e: (Value, Value)): (Value, Value) {
    (Norm(e.0), Norm(e.1))
  }

  // ---------------------------------------------------------------------------
  // Fields
  // ---------------------------------------------------------------------------

  lemma UField(n: nat, k: nat, rest: seq<byte>)
    requires n < Pow256(k)
    ensures U(BE(n, k) + rest, k) == Ok(n, k) && (BE(n, k) + rest)[k..] == rest
  {
  }

  lemma SField(n: int, k: nat, rest: seq<byte>)
    requires -(Pow256(k) as int) <= 2 * n < Pow256(k)
    ensures S(BE(n, k) + rest, k) == Ok(n, k) && (BE(n, k) + rest)[k..] == rest
  {
    SignedRoundTrip(n, k);
    assert (BE(n, k) + rest)[..k] == BE(n, k);
  }

  lemma BytesField(data: seq<byte>, rest: seq<byte>)
    ensures Bytes(data + rest, |data|) == Ok(data, |data|)
  {
  }

  lemma DoubleField(bits: seq<byte>, rest: seq<byte>)
    requires |bits| == 8 && IsDouble(bits)
    ensures F(bits + rest, 8) == Ok(Double(bits), 8)
  {
    assert (bits + rest)[..8] == bits;
    BytesOfNumber(bits);
    hide Floats.Classify, FromBE, BE;
  }

  // The big-endian bytes of the number that some bytes are, are those bytes.
  lemma {:induction false} BytesOfNumber(b: seq<byte>)
    ensures BE(FromBE(b), |b|) == b
  {
    if b != [] {
      var init := b[..|b| - 1];
      BytesOfNumber(init);
      assert FromBE(b) / 256 == FromBE(init) && FromBE(b) % 256 == b[|b| - 1];
    }
  }

  lemma CountedField(data: seq<byte>, k: nat, rest: seq<byte>)
    requires |data| < Pow256(k)
    ensures Counted(BE(|data|, k) + (data + rest), k) == Ok(data, k + |data|)
  {
    hide U, Bytes, FromBE, BE, Pow256;
    UField(|data|, k, data + rest);
    BytesField(data, rest);
  }

  lemma ExtField(tag: int, data: seq<byte>, rest: seq<byte>)
    requires -128 <= tag < 128
    ensures ExtBody(BE(tag, 1) + (data + rest), |data|) == Ok(Ext(tag, data), 1 + |data|)
  {
  }

  lemma ExtCountedField(tag: int, data: seq<byte>, k: nat, rest: seq<byte>)
    requires -128 <= tag < 128 && |data| < Pow256(k)
    ensures ExtCounted(BE(|data|, k) + (BE(tag, 1) + (data + rest)), k) == Ok(Ext(tag, data), k + 1 + |data|)
  {
    hide U, ExtBody, BE;
    UField(|data|, k, BE(tag, 1) + (data + rest));
    ExtField(tag, data, rest);
  }

  // ---------------------------------------------------------------------------
  // Leaves
  // ---------------------------------------------------------------------------

  // Values whose tag alone says what follows.
  lemma TinyRoundTrip(v: Value, rest: seq<byte>)
    requires v.Undefined? || v.Null? || v.Bool? || v.Double?
    requires Encodable(v)
    ensures Dec(Enc(v) + rest) == Ok(Norm(v), |Enc(v)|)
  {
    if v.Double? {
      assert (Enc(v) + rest)[1..] == v.bits + rest;
      DoubleField(v.bits, rest);
    }
  }

  lemma FixIntRoundTrip(n: int, rest: seq<byte>)
    requires -32 <= n <= 0x7F
    ensures Dec(BE(n, 1) + rest) == Ok(Int(n), 1)
  {
    hide DecItems, DecEntries, DecScalar;
    assert BE(n, 1) == [n % 256];
  }

  lemma UIntRoundTrip(k: nat, n: nat, rest: seq<byte>)
    requires k == 1 || k == 2 || k == 4 || k == 8
    requires n < Pow256(k) && n <= MAX_SAFE
    ensures var tag := if k == 1 then 0xCC else if k == 2 then 0xCD else if k == 4 then 0xCE else 0xCF;
      Dec([tag] + BE(n, k) + rest) == Ok(Int(n), 1 + k)
  {
    hide FromBE, Pow256, U, S, DecItems, DecEntries;
    var tag := if k == 1 then 0xCC else if k == 2 then 0xCD else if k == 4 then 0xCE else 0xCF;
    assert ([tag] + BE(n, k) + rest)[1..] == BE(n, k) + rest;
    UField(n, k, rest);
  }

  lemma SIntRoundTrip(k: nat, n: int, rest: seq<byte>)
    requires k == 1 || k == 2 || k == 4 || k == 8
    requires -(Pow256(k) as int) <= 2 * n < 0 && -MAX_SAFE <= n
    ensures var tag := if k == 1 then 0xD0 else if k == 2 then 0xD1 else if k == 4 then 0xD2 else 0xD3;
      Dec([tag] + BE(n, k) + rest) == Ok(Int(n), 1 + k)
  {
    hide FromBE, Pow256, U, S, DecItems, DecEntries;
    var tag := if k == 1 then 0xD0 else if k == 2 then 0xD1 else if k == 4 then 0xD2 else 0xD3;
    assert ([tag] + BE(n, k) + rest)[1..] == BE(n, k) + rest;
    SField(n, k, rest);
  }

  lemma IntRoundTrip(n: int, rest: seq<byte>)
    requires -MAX_SAFE <= n <= MAX_SAFE
    ensures Dec(EncInt(n) + rest) == Ok(Int(n), |EncInt(n)|)
  {
    hide Dec, BE, Pow256;
    Widths();
    if -32 <= n <= 0x7F {
      FixIntRoundTrip(n, rest);
    } else if n >= 0 {
      UIntRoundTrip(if n <= 0xFF then 1 else if n <= 0xFFFF then 2 else if n <= 0xFFFF_FFFF then 4 else 8, n, rest);
    } else {
      SIntRoundTrip(if n >= -128 then 1 else if n >= -32768 then 2 else if n >= -2147483648 then 4 else 8, n, rest);
    }
  }

  lemma WideRoundTrip(n: int, rest: seq<byte>)
    requires CanEncode(BigInt(n))
    ensures Dec(EncBigInt(n) + rest) == Ok(NumberOrString(n), |EncBigInt(n)|)
  {
    hide BE, FromBE, Pow256, U, S, DecItems, DecEntries, NumberOrString;
    Widths();
    assert (EncBigInt(n) + rest)[1..] == BE(n, 8) + rest;
    if n >= 0 {
      UField(n, 8, rest);
    } else {
      SField(n, 8, rest);
    }
  }

  // A numeral with a minus sign in front if the number is negative.
  predicate Spells(s: string, n: int) {
    if n >= 0 then D.Canonical(s) && D.Value(s) == n
    else s != "" && s[0] == '-' && D.Canonical(s[1..]) && D.Value(s[1..]) == -n
  }

  lemma {:induction false} DigitsAreCanonical(n: nat)
    ensures D.Canonical(Digits(n)) && D.Value(Digits(n)) == n && (n > 0 ==> Digits(n)[0] != '0')
  {
    var front := if n < 10 then "" else Digits(n / 10);
    var last := ('0' as int + n % 10) as char;
    if n >= 10 {
      DigitsAreCanonical(n / 10);
    }
    OneMoreDigit(front, last);
    assert Digits(n) == front + [last];
    hide D.Canonical, D.Value;
  }

  lemma OneMoreDigit(front: string, last: char)
    requires front == "" || (D.Canonical(front) && front[0] != '0')
    requires Digit(last)
    ensures D.Canonical(front + [last])
    ensures D.Value(front + [last]) == 10 * (if front == "" then 0 else D.Value(front)) + D.DigitOf(last)
  {
    var s := front + [last];
    assert s[..|s| - 1] == front;
  }

  lemma DecimalSpells(n: int)
    ensures Spells(Decimal(n), n)
  {
    hide D.Canonical, D.Value, Digits;
    DigitsAreCanonical(if n >= 0 then n else -n);
    assert n < 0 ==> Decimal(n)[1..] == Digits(-n);
  }

  // Main result: a 64-bit bigint comes back as the number if a number holds it exactly, and
  // otherwise as the numeral that spells it.
  lemma BigIntRoundTrip(n: int, rest: seq<byte>)
    requires CanEncode(BigInt(n))
    ensures var r := Dec(EncBigInt(n) + rest);
      && r.Ok? && r.used == |EncBigInt(n)|
      && (-MAX_SAFE <= n <= MAX_SAFE ==> r.value == Int(n))
      && (!(-MAX_SAFE <= n <= MAX_SAFE) ==> r.value.Str? && Spells(r.value.s, n))
  {
    hide Dec, EncBigInt, Decimal, Spells;
    WideRoundTrip(n, rest);
    DecimalSpells(n);
  }

  lemma StrRoundTrip(s: string, rest: seq<byte>)
    requires |Encode(s)| < LIMIT
    ensures Dec(StrHeader(|Encode(s)|) + Encode(s) + rest)
         == Ok(Str(StripBom(s)), |StrHeader(|Encode(s)|)| + |Encode(s)|)
  {
    hide BE, FromBE, Pow256, Counted, Bytes, DecItems, DecEntries, DecScalar, Encode, Decode;
    Widths();
    RoundTrip(s);
    var d := Encode(s);
    var b := StrHeader(|d|) + d + rest;
    if |d| <= 0x1F {
      assert b[1..] == d + rest;
      BytesField(d, rest);
    } else {
      var k := if |d| <= 0xFF then 1 else if |d| <= 0xFFFF then 2 else 4;
      assert b[1..] == BE(|d|, k) + (d + rest);
      CountedField(d, k, rest);
    }
  }

  lemma BinRoundTrip(d: seq<byte>, rest: seq<byte>)
    requires |d| < LIMIT
    ensures Dec(BinHeader(|d|) + d + rest) == Ok(Bin(d), |BinHeader(|d|)| + |d|)
  {
    hide BE, FromBE, Pow256, Counted, DecItems, DecEntries;
    Widths();
    var k := if |d| <= 0xFF then 1 else if |d| <= 0xFFFF then 2 else 4;
    assert (BinHeader(|d|) + d + rest)[1..] == BE(|d|, k) + (d + rest);
    CountedField(d, k, rest);
  }

  lemma ExtRoundTrip(tag: int, d: seq<byte>, rest: seq<byte>)
    requires |d| < LIMIT && -128 <= tag < 128
    ensures Dec(ExtHeader(|d|, tag) + d + rest) == Ok(Ext(tag, d), |ExtHeader(|d|, tag)| + |d|)
  {
    hide ExtBody, ExtCounted, BE, FromBE, Pow256;
    Widths();
    var b := ExtHeader(|d|, tag) + d + rest;
    if |d| == 1 || |d| == 2 || |d| == 4 || |d| == 8 || |d| == 16 {
      assert b[1..] == BE(tag, 1) + (d + rest);
      ExtField(tag, d, rest);
    } else {
      var k := if |d| <= 0xFF then 1 else if |d| <= 0xFFFF then 2 else 4;
      assert b[1..] == BE(|d|, k) + (BE(tag, 1) + (d + rest));
      ExtCountedField(tag, d, k, rest);
    }
  }

  // ---------------------------------------------------------------------------
  // Containers
  // ---------------------------------------------------------------------------

  lemma ArrHeaderRoundTrip(n: nat, items: seq<byte>, rest: seq<byte>, vs: seq<Value>)
    requires n < LIMIT && DecItems(items + rest, n) == Ok(vs, |items|)
    ensures Dec(ArrHeader(n) + items + rest) == Ok(Arr(vs), |ArrHeader(n)| + |items|)
  {
    hide DecItems, DecEntries, DecScalar, U, BE;
    Widths();
    var b, t := ArrHeader(n) + items + rest, items + rest;
    if n <= 0x0F {
      assert b[1..] == t;
    } else {
      var k := if n <= 0xFFFF then 2 else 4;
      assert b[1..] == BE(n, k) + t;
      UField(n, k, t);
      assert DecArr(b[1..], k) == Ok(Arr(vs), |items| + k);
    }
  }

  lemma MapHeaderRoundTrip(n: nat, pairs: seq<byte>, rest: seq<byte>, es: seq<(Value, Value)>)
    requires n < LIMIT && DecEntries(pairs + rest, n, []) == Ok(es, |pairs|)
    ensures Dec(MapHeader(n) + pairs + rest) == Ok(Obj(es), |MapHeader(n)| + |pairs|)
  {
    hide DecItems, DecEntries, DecScalar, U, BE;
    Widths();
    var b, t := MapHeader(n) + pairs + rest, pairs + rest;
    if n <= 0x0F {
      assert b[1..] == t;
    } else {
      var k := if n <= 0xFFFF then 2 else 4;
      assert b[1..] == BE(n, k) + t;
      UField(n, k, t);
      assert DecMap(b[1..], k) == Ok(Obj(es), |pairs| + k);
    }
  }

  // The codec's law: decoding an encoding followed by anything yields the normal form
  // and consumes exactly the encoding.
  lemma {:induction false} EncodeDecode(v: Value, rest: seq<byte>)
    requires Encodable(v)
    ensures Dec(Enc(v) + rest) == Ok(Norm(v), |Enc(v)|)
    decreases v
  {
    hide Dec, DecItems, DecEntries;
    match v
    case Undefined => TinyRoundTrip(v, rest);
    case Null => TinyRoundTrip(v, rest);
    case Bool(_) => TinyRoundTrip(v, rest);
    case Int(n) => IntRoundTrip(n, rest);
    case NegZero => IntRoundTrip(0, rest);
    case Double(_) => TinyRoundTrip(v, rest);
    case BigInt(n) => WideRoundTrip(n, rest);
    case Str(s) => StrRoundTrip(s, rest);
    case Bin(d) => BinRoundTrip(d, rest);
    case Ext(tag, d) => ExtRoundTrip(tag, d, rest);
    case Arr(items) =>
      ItemsDecode(items, rest);
      ArrHeaderRoundTrip(|items|, EncItems(items), rest, NormItems(items));
    case Obj(es) =>
      EntriesDecode(es, [], rest);
      MapHeaderRoundTrip(|es|, EncEntries(es), rest, NormEntries(es, []));
    case MapOf(es) =>
      EntriesDecode(es, [], rest);
      MapHeaderRoundTrip(|es|, EncEntries(es), rest, NormEntries(es, []));
  }

  lemma {:induction false} ItemsDecode(items: seq<Value>, rest: seq<byte>)
    requires forall i :: 0 <= i < |items| ==> Encodable(items[i])
    ensures DecItems(EncItems(items) + rest, |items|) == Ok(NormItems(items), |EncItems(items)|)
    decreases items
  {
    hide Dec, Enc, Encodable;
    if items != [] {
      var head, tail := Enc(items[0]), EncItems(items[1..]);
      EncodeDecode(items[0], tail + rest);
      ItemsDecode(items[1..], rest);
      assert EncItems(items) + rest == head + (tail + rest);
      assert (head + (tail + rest))[|head|..] == tail + rest;
    }
  }

  lemma {:induction false} EntriesDecode(es: seq<(Value, Value)>, acc: seq<(Value, Value)>, rest: seq<byte>)
    requires forall i :: 0 <= i < |es| ==> Encodable(es[i].0) && Encodable(es[i].1)
    ensures DecEntries(EncEntries(es) + rest, |es|, acc) == Ok(NormEntries(es, acc), |EncEntries(es)|)
    decreases es
  {
    hide Dec;
    if es != [] {
      var p, tail := EncPair(es[0]), EncEntries(es[1..]);
      var (k, v) := NormPair(es[0]);
      PairDecode(es[0], tail + rest);
      EntriesDecode(es[1..], Upsert(acc, k, v), rest);
      assert EncEntries(es) + rest == p + (tail + rest);
      EntriesStep(p, tail + rest, |es| - 1, acc, k, v, |Enc(es[0].0)|);
    }
  }

  lemma EntriesStep(p: seq<byte>, t: seq<byte>, n: nat, acc: seq<(Value, Value)>, k: Value, v: Value, i: nat)
    requires i <= |p| && Dec(p + t) == Ok(k, i) && Dec((p + t)[i..]) == Ok(v, |p| - i)
    ensures DecEntries(p + t, n + 1, acc) ==
      match DecEntries(t, n, Upsert(acc, k, v)) case Fail(e) => Fail(e) case Ok(es, m) => Ok(es, |p| + m)
  {
    hide Dec;
    assert (p + t)[|p|..] == t;
  }

  lemma {:induction false} PairDecode(e: (Value, Value), rest: seq<byte>)
    requires Encodable(e.0) && Encodable(e.1)
    ensures var b := EncPair(e) + rest; var i := |Enc(e.0)|;
      Dec(b) == Ok(Norm(e.0), i) && Dec(b[i..]) == Ok(Norm(e.1), |EncPair(e)| - i)
    decreases e
  {
    hide Dec, Enc, Norm, Encodable;
    EncodeDecode(e.0, Enc(e.1) + rest);
    EncodeDecode(e.1, rest);
    assert EncPair(e) + rest == Enc(e.0) + (Enc(e.1) + rest);
    assert (EncPair(e) + rest)[|Enc(e.0)|..] == Enc(e.1) + rest;
  }
}
