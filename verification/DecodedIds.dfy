// The 64-bit ids of the server as the client holds them after decoding.
module DecodedIds {
  import opened DecimalIds
  import opened Utf8
  import M = MsgPack
  import MsgPackRoundTrip

  // `asId`: a decoded id as the string the client keys its maps by.
  function AsId(v: M.Value): string {
    match v case Int(n) => M.Decimal(n) case Str(s) => s case _ => ""
  }

  // The id that arrives for `n`, whatever follows it.
  function Arrived(n: nat, rest: seq<byte>): string {
    var r := M.Dec(M.EncBigInt(n) + rest);
    if r.Ok? then AsId(r.value) else ""
  }

  // Any 64-bit id that the server sends arrives as its exact decimal numeral.
  lemma IdArrivesExactly(n: nat, rest: seq<byte>)
    requires n < 0x1_0000_0000_0000_0000
    ensures Canonical(Arrived(n, rest)) && Value(Arrived(n, rest)) == n
  {
    hide M.Dec, M.EncBigInt, Canonical, M.Digits, Value;
    MsgPackRoundTrip.BigIntRoundTrip(n, rest);
    MsgPackRoundTrip.DigitsAreCanonical(n);
  }

  // Main result: the client orders the ids it decoded as their numbers, and holds two of
  // them for the same exactly when they are.
  lemma IdsArriveInOrder(m: nat, n: nat, restM: seq<byte>, restN: seq<byte>)
    requires m < 0x1_0000_0000_0000_0000 && n < 0x1_0000_0000_0000_0000
    ensures var a, b := Arrived(m, restM), Arrived(n, restN);
      (IdCompare(a, b) < 0 <==> m < n) && (IdCompare(a, b) > 0 <==> m > n) && (a == b <==> m == n)
  {
    hide Arrived, Canonical, IdCompare;
    IdArrivesExactly(m, restM);
    IdArrivesExactly(n, restN);
    CompareIsNumeric(Arrived(m, restM), Arrived(n, restN));
  }
}
