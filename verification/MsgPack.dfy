// The MessagePack codec as functions on byte sequences: what a value encodes to, what
// bytes decode to, and the round trip between the two. MsgPackWriter.dfy and
// MsgPackReader.dfy run it over a buffer and a cursor.
module MsgPack {
  import opened Utf8
  import Floats

  // What `encodeValue` distinguishes. `Double` holds the eight bytes of a number that is
  // neither a safe integer nor negative zero. `MapOf` is a `Map`, `Obj` a plain object; a
  // decoded map is an `Obj`. `Other` is a function or a symbol.
  datatype Value =
    | Undefined
    | Null
    | Bool(b: bool)
    | Int(n: int)
    | NegZero
    | Double(bits: seq<byte>)
    | BigInt(n: int)
    | Str(s: string)
    | Bin(data: seq<byte>)
    | Arr(items: seq<Value>)
    | Ext(tag: int, data: seq<byte>)
    | Obj(entries: seq<(Value, Value)>)
    | MapOf(entries: seq<(Value, Value)>)
    | Other

  datatype Error = EndOfInput | UnknownTag(tag: int)

  // A decoded value and how many bytes it took.
  datatype Result<+T> = Ok(value: T, used: nat) | Fail(error: Error)

  const MAX_SAFE: int := 9007199254740991

  // ---------------------------------------------------------------------------
  // Big-endian integers
  // ---------------------------------------------------------------------------

  function Pow256(k: nat): (p: nat)
    ensures p > 0
  {
    if k == 0 then 1 else 256 * Pow256(k - 1)
  }

  // The low `k` bytes of `n`: what a DataView setter of that width stores.
  function BE(n: int, k: nat): (b: seq<byte>)
    ensures |b| == k
    decreases k
  {
    if k == 0 then [] else BE(n / 256, k - 1) + [n % 256]
  }

  function FromBE(b: seq<byte>): (n: nat)
    ensures n < Pow256(|b|)
  {
    if b == [] then 0 else FromBE(b[..|b| - 1]) * 256 + b[|b| - 1]
  }

  function FromSigned(b: seq<byte>): int {
    if 2 * FromBE(b) < Pow256(|b|) then FromBE(b) else FromBE(b) - Pow256(|b|)
  }

  lemma {:induction false} BERoundTrip(n: nat, k: nat)
    requires n < Pow256(k)
    ensures FromBE(BE(n, k)) == n
  {
    if k > 0 {
      BERoundTrip(n / 256, k - 1);
      assert BE(n, k)[..k - 1] == BE(n / 256, k - 1);
    }
  }

  // A setter of width `k` sees its argument modulo 256^k.
  lemma {:induction false} BEWraps(n: int, k: nat)
    ensures BE(n + Pow256(k), k) == BE(n, k)
    decreases k
  {
    if k > 0 {
      var p := Pow256(k - 1);
      assert (n + 256 * p) / 256 == n / 256 + p && (n + 256 * p) % 256 == n % 256;
      BEWraps(n / 256, k - 1);
    }
  }

  lemma SignedRoundTrip(n: int, k: nat)
    requires -(Pow256(k) as int) <= 2 * n < Pow256(k)
    ensures FromSigned(BE(n, k)) == n
  {
    if n >= 0 {
      BERoundTrip(n, k);
    } else {
      BEWraps(n, k);
      BERoundTrip(n + Pow256(k), k);
    }
  }

  lemma Widths()
    ensures Pow256(1) == 0x100 && Pow256(2) == 0x1_0000 && Pow256(4) == 0x1_0000_0000
    ensures Pow256(8) == 0x1_0000_0000_0000_0000
  {
  }

  // ---------------------------------------------------------------------------
  // Encoding
  // ---------------------------------------------------------------------------

  // Headers: the tag and length that go before `n` bytes, items or pairs.
  function StrHeader(n: nat): seq<byte> {
    if n <= 0x1F then [0xA0 + n]
    else if n <= 0xFF then [0xD9] + BE(n, 1)
    else if n <= 0xFFFF then [0xDA] + BE(n, 2)
    else [0xDB] + BE(n, 4)
  }

  function BinHeader(n: nat): seq<byte> {
    if n <= 0xFF then [0xC4] + BE(n, 1) else if n <= 0xFFFF then [0xC5] + BE(n, 2) else [0xC6] + BE(n, 4)
  }

  function ExtHeader(n: nat, tag: int): seq<byte> {
    (if n == 1 then [0xD4] else if n == 2 then [0xD5] else if n == 4 then [0xD6]
     else if n == 8 then [0xD7] else if n == 16 then [0xD8]
     else if n <= 0xFF then [0xC7] + BE(n, 1) else if n <= 0xFFFF then [0xC8] + BE(n, 2) else [0xC9] + BE(n, 4))
    + BE(tag, 1)
  }

  function ArrHeader(n: nat): seq<byte> {
    if n <= 0x0F then [0x90 + n] else if n <= 0xFFFF then [0xDC] + BE(n, 2) else [0xDD] + BE(n, 4)
  }

  function MapHeader(n: nat): seq<byte> {
    if n <= 0x0F then [0x80 + n] else if n <= 0xFFFF then [0xDE] + BE(n, 2) else [0xDF] + BE(n, 4)
  }

  function EncInt(n: int): seq<byte> {
    if n >= 0 then
      if n <= 0x7F then BE(n, 1)
      else if n <= 0xFF then [0xCC] + BE(n, 1)
      else if n <= 0xFFFF then [0xCD] + BE(n, 2)
      else if n <= 0xFFFF_FFFF then [0xCE] + BE(n, 4)
      else [0xCF] + BE(n, 8)
    else
      if n >= -32 then BE(n, 1)
      else if n >= -128 then [0xD0] + BE(n, 1)
      else if n >= -32768 then [0xD1] + BE(n, 2)
      else if n >= -2147483648 then [0xD2] + BE(n, 4)
      else [0xD3] + BE(n, 8)
  }

  function EncBigInt(n: int): seq<byte> {
    if n >= 0 then [0xCF] + BE(n, 8) else [0xD3] + BE(n, 8)
  }

  // `encode` throws exactly on a bigint outside 64 bits and on a function or symbol.
  predicate CanEncode(v: Value) {
    match v
    case BigInt(n) => -0x8000_0000_0000_0000 <= n <= 0xFFFF_FFFF_FFFF_FFFF
    case Other => false
    case Arr(items) => forall i :: 0 <= i < |items| ==> CanEncode(items[i])
    case Obj(es) => forall i :: 0 <= i < |es| ==> CanEncode(es[i].0) && CanEncode(es[i].1)
    case MapOf(es) => forall i :: 0 <= i < |es| ==> CanEncode(es[i].0) && CanEncode(es[i].1)
    case _ => true
  }

  function Enc(v: Value): seq<byte> {
    match v
    case Undefined => [0xC0]
    case Null => [0xC0]
    case Bool(b) => [if b then 0xC3 else 0xC2]
    case Int(n) => EncInt(n)
    case NegZero => EncInt(0)
    case Double(bits) => [0xCB] + bits
    case BigInt(n) => EncBigInt(n)
    case Str(s) => StrHeader(|Encode(s)|) + Encode(s)
    case Bin(data) => BinHeader(|data|) + data
    case Arr(items) => ArrHeader(|items|) + EncItems(items)
    case Ext(tag, data) => ExtHeader(|data|, tag) + data
    case Obj(es) => MapHeader(|es|) + EncEntries(es)
    case MapOf(es) => MapHeader(|es|) + EncEntries(es)
    case Other => []
  }

  function EncItems(items: seq<Value>): seq<byte> {
    if items == [] then [] else Enc(items[0]) + EncItems(items[1..])
  }

  function EncEntries(es: seq<(Value, Value)>): seq<byte> {
    if es == [] then [] else EncPair(es[0]) + EncEntries(es[1..])
  }

  function EncPair(e: (Value, Value)): seq<byte> {
    Enc(e.0) + Enc(e.1)
  }

  // ---------------------------------------------------------------------------
  // Decoding
  // ---------------------------------------------------------------------------

  // An unsigned or signed field of `k` bytes.
  function U(b: seq<byte>, k: nat): (r: Result<nat>)
    ensures r.Ok? ==> r.used == k <= |b| && r.value < Pow256(k)
  {
    if |b| < k then Fail(EndOfInput) else Ok(FromBE(b[..k]), k)
  }

  function S(b: seq<byte>, k: nat): (r: Result<int>)
    ensures r.Ok? ==> r.used == k <= |b|
  {
    if |b| < k then Fail(EndOfInput) else Ok(FromSigned(b[..k]), k)
  }

  function Bytes(b: seq<byte>, n: nat): (r: Result<seq<byte>>)
    ensures r.Ok? ==> r.used == n <= |b|
  {
    if |b| < n then Fail(EndOfInput) else Ok(b[..n], n)
  }

  // A field of `k` bytes counting the raw bytes that follow it.
  function Counted(b: seq<byte>, k: nat): (r: Result<seq<byte>>)
    ensures r.Ok? ==> r.used <= |b|
  {
    match U(b, k)
    case Fail(e) => Fail(e)
    case Ok(n, _) =>
      match Bytes(b[k..], n)
      case Fail(e) => Fail(e)
      case Ok(data, _) => Ok(data, k + n)
  }

  // An extension's type byte and its `n` bytes.
  function ExtBody(b: seq<byte>, n: nat): (r: Result<Value>)
    ensures r.Ok? ==> r.used <= |b|
  {
    match S(b, 1)
    case Fail(e) => Fail(e)
    case Ok(tag, _) =>
      match Bytes(b[1..], n)
      case Fail(e) => Fail(e)
      case Ok(data, _) => Ok(Ext(tag, data), 1 + n)
  }

  function ExtCounted(b: seq<byte>, k: nat): (r: Result<Value>)
    ensures r.Ok? ==> r.used <= |b|
  {
    match U(b, k)
    case Fail(e) => Fail(e)
    case Ok(n, _) => Shift(ExtBody(b[k..], n), k)
  }

  function Shift<T>(r: Result<T>, k: nat): Result<T> {
    match r case Fail(e) => Fail(e) case Ok(v, used) => Ok(v, used + k)
  }

  function Wrap<T>(r: Result<T>, f: T -> Value): Result<Value> {
    match r case Fail(e) => Fail(e) case Ok(v, used) => Ok(f(v), used)
  }

  // The number of a pattern.
  function Number(x: Floats.Bits64): Value {
    match Floats.Classify(x)
    case Whole(n) => Int(n)
    case MinusZero => NegZero
    case Fraction => Double(BE(x, 8))
  }

  // A float of four or eight bytes.
  function F(b: seq<byte>, k: nat): (r: Result<Value>)
    requires k == 4 || k == 8
    ensures r.Ok? ==> r.used == k <= |b|
  {
    Widths();
    match U(b, k)
    case Fail(e) => Fail(e)
    case Ok(x, _) => Ok(Number(if k == 4 then Floats.Widen(x) else x), k)
  }

  // 64-bit integers become a number when that is exact, their decimal string otherwise.
  function NumberOrString(n: int): Value {
    if -MAX_SAFE <= n <= MAX_SAFE then Int(n) else Str(Decimal(n))
  }

  function Digits(n: nat): (s: string)
    ensures s != ""
  {
    (if n < 10 then "" else Digits(n / 10)) + [('0' as int + n % 10) as char]
  }

  function Decimal(n: int): string {
    if n < 0 then "-" + Digits(-n) else Digits(n)
  }

  // Assigning a property: an existing key keeps its place.
  function Upsert(es: seq<(Value, Value)>, k: Value, v: Value): (r: seq<(Value, Value)>)
    ensures |es| <= |r| <= |es| + 1
  {
    if es == [] then [(k, v)]
    else if es[0].0 == k then [(k, v)] + es[1..]
    else [es[0]] + Upsert(es[1..], k, v)
  }

  function Dec(b: seq<byte>): (r: Result<Value>)
    ensures r.Ok? ==> 0 < r.used <= |b|
    decreases |b|, 0
  {
    if b == [] then Fail(EndOfInput)
    else
      var tag, t := b[0], b[1..];
      if tag <= 0x7F then Ok(Int(tag), 1)
      else if tag <= 0x8F then Wrap(Shift(DecEntries(t, tag % 16, []), 1), es => Obj(es))
      else if tag <= 0x9F then Wrap(Shift(DecItems(t, tag % 16), 1), vs => Arr(vs))
      else if tag <= 0xBF then Wrap(Shift(Bytes(t, tag % 32), 1), x => Str(Decode(x)))
      else if tag >= 0xE0 then Ok(Int(tag as int - 0x100), 1)
      else if tag <= 0xD8 then Shift(DecScalar(tag, t), 1)
      else if tag == 0xD9 then Wrap(Shift(Counted(t, 1), 1), x => Str(Decode(x)))
      else if tag == 0xDA then Wrap(Shift(Counted(t, 2), 1), x => Str(Decode(x)))
      else if tag == 0xDB then Wrap(Shift(Counted(t, 4), 1), x => Str(Decode(x)))
      else if tag == 0xDC then Shift(DecArr(t, 2), 1)
      else if tag == 0xDD then Shift(DecArr(t, 4), 1)
      else if tag == 0xDE then Shift(DecMap(t, 2), 1)
      else Shift(DecMap(t, 4), 1)
  }

  // The tags 0xC0 to 0xD8: no nested values.
  function DecScalar(tag: byte, t: seq<byte>): (r: Result<Value>)
    ensures r.Ok? ==> r.used <= |t|
  {
    if tag == 0xC0 then Ok(Null, 0)
    else if tag == 0xC2 then Ok(Bool(false), 0)
    else if tag == 0xC3 then Ok(Bool(true), 0)
    else if tag == 0xC4 then Wrap(Counted(t, 1), x => Bin(x))
    else if tag == 0xC5 then Wrap(Counted(t, 2), x => Bin(x))
    else if tag == 0xC6 then Wrap(Counted(t, 4), x => Bin(x))
    else if tag == 0xC7 then ExtCounted(t, 1)
    else if tag == 0xC8 then ExtCounted(t, 2)
    else if tag == 0xC9 then ExtCounted(t, 4)
    else if tag == 0xCA then F(t, 4)
    else if tag == 0xCB then F(t, 8)
    else if tag == 0xCC then Wrap(U(t, 1), n => Int(n))
    else if tag == 0xCD then Wrap(U(t, 2), n => Int(n))
    else if tag == 0xCE then Wrap(U(t, 4), n => Int(n))
    else if tag == 0xCF then Wrap(U(t, 8), n => NumberOrString(n))
    else if tag == 0xD0 then Wrap(S(t, 1), n => Int(n))
    else if tag == 0xD1 then Wrap(S(t, 2), n => Int(n))
    else if tag == 0xD2 then Wrap(S(t, 4), n => Int(n))
    else if tag == 0xD3 then Wrap(S(t, 8), n => NumberOrString(n))
    else if tag == 0xD4 then ExtBody(t, 1)
    else if tag == 0xD5 then ExtBody(t, 2)
    else if tag == 0xD6 then ExtBody(t, 4)
    else if tag == 0xD7 then ExtBody(t, 8)
    else if tag == 0xD8 then ExtBody(t, 16)
    else Fail(UnknownTag(tag))
  }

  function DecArr(b: seq<byte>, k: nat): (r: Result<Value>)
    ensures r.Ok? ==> r.used <= |b|
    decreases |b|, 0x1_0000_0000
  {
    match U(b, k)
    case Fail(e) => Fail(e)
    case Ok(n, _) => Wrap(Shift(DecItems(b[k..], n), k), vs => Arr(vs))
  }

  function DecMap(b: seq<byte>, k: nat): (r: Result<Value>)
    ensures r.Ok? ==> r.used <= |b|
    decreases |b|, 0x1_0000_0000
  {
    match U(b, k)
    case Fail(e) => Fail(e)
    case Ok(n, _) => Wrap(Shift(DecEntries(b[k..], n, []), k), es => Obj(es))
  }

  function DecItems(b: seq<byte>, n: nat): (r: Result<seq<Value>>)
    ensures r.Ok? ==> r.used <= |b| && |r.value| == n
    decreases |b|, n
  {
    if n == 0 then Ok([], 0)
    else match Dec(b)
      case Fail(e) => Fail(e)
      case Ok(v, i) =>
        match DecItems(b[i..], n - 1)
        case Fail(e) => Fail(e)
        case Ok(vs, j) => Ok([v] + vs, i + j)
  }

  // `n` key-value pairs assigned in turn to the object holding `acc`.
  function DecEntries(b: seq<byte>, n: nat, acc: seq<(Value, Value)>): (r: Result<seq<(Value, Value)>>)
    ensures r.Ok? ==> r.used <= |b|
    decreases |b|, n
  {
    if n == 0 then Ok(acc, 0)
    else match Dec(b)
      case Fail(e) => Fail(e)
      case Ok(k, i) =>
        match Dec(b[i..])
        case Fail(e) => Fail(e)
        case Ok(v, j) =>
          match DecEntries(b[i + j..], n - 1, Upsert(acc, k, v))
          case Fail(e) => Fail(e)
          case Ok(es, m) => Ok(es, i + j + m)
  }
}
