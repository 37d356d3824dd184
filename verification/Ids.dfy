// Snowflake ids: the 64-bit layout, and the lock-free generator as a state machine over
// the atomic steps of its threads.
module Ids {

  const EPOCH_MS: nat := 1_704_067_200_000
  const SEQS: nat := 0x1000
  const NODES: nat := 0x400
  const TWO22: nat := 0x40_0000
  const TWO41: nat := 0x200_0000_0000
  const TWO42: nat := 0x400_0000_0000
  const TWO52: nat := 0x10_0000_0000_0000
  const TWO54: nat := 0x40_0000_0000_0000
  const TWO63: nat := 0x8000_0000_0000_0000
  const TWO64: nat := 0x1_0000_0000_0000_0000

  type U64 = x: nat | x < TWO64 witness 0

  // ---------------------------------------------------------------------------
  // Layout
  // ---------------------------------------------------------------------------

  // A left shift drops what leaves the word.
  function Shl(x: U64, scale: nat): U64
    requires scale > 0
  {
    (x * scale) % TWO64
  }

  function TimeField(id: U64): nat {
    id / TWO22
  }

  function NodeField(id: U64): nat {
    id / SEQS % NODES
  }

  function SeqField(id: U64): nat {
    id % SEQS
  }

  function TimestampMs(id: U64): nat {
    TimeField(id) + EPOCH_MS
  }

  // The three fields do not overlap, so or-ing them together is adding them.
  function Pack(ms: U64, node: nat, serial: nat): U64
    requires node < NODES && serial < SEQS
  {
    assert Shl(ms, TWO22) % TWO22 == 0 by {
      ShlIsMultiple(ms);
    }
    Shl(ms, TWO22) + node * SEQS + serial
  }

  lemma ShlIsMultiple(ms: U64)
    ensures Shl(ms, TWO22) == ms % TWO42 * TWO22 && Shl(ms, TWO22) % TWO22 == 0
  {
  }

  // On machine words: the fields do not overlap, and shifting and masking gives them back.
  lemma FieldsOnWords(ms: bv64, node: bv64, serial: bv64)
    requires ms < 0x400_0000_0000 && node < 0x400 && serial < 0x1000
    ensures (ms << 22) & ((node << 12) | serial) == 0 && (node << 12) & serial == 0
    ensures ((ms << 22) | (node << 12) | serial) >> 22 == ms
    ensures (((ms << 22) | (node << 12) | serial) >> 12) & 0x3FF == node
    ensures ((ms << 22) | (node << 12) | serial) & 0xFFF == serial
  {
  }

  lemma PackFields(ms: U64, node: nat, serial: nat)
    requires node < NODES && serial < SEQS
    ensures var id := Pack(ms, node, serial);
      TimeField(id) == ms % TWO42 && NodeField(id) == node && SeqField(id) == serial
  {
    ShlIsMultiple(ms);
    var t, low := ms % TWO42, node * SEQS + serial;
    assert Pack(ms, node, serial) == t * TWO22 + low;
    assert low < TWO22;
    assert (t * TWO22 + low) / SEQS == t * NODES + node;
  }

  function FloorForMs(unixMs: U64): U64 {
    Shl(if unixMs < EPOCH_MS then 0 else unixMs - EPOCH_MS, TWO22)
  }

  // The floor of a time is the least id of that time or later, for exactly the times
  // whose field fits 42 bits; beyond them the shift loses its top bits.
  lemma FloorIsLeastIff(unixMs: U64)
    ensures (forall id: U64 :: id >= FloorForMs(unixMs) <==> TimestampMs(id) >= unixMs) <==> unixMs < EPOCH_MS + TWO42
  {
    var t := if unixMs < EPOCH_MS then 0 else unixMs - EPOCH_MS;
    ShlIsMultiple(t);
    if unixMs < EPOCH_MS + TWO42 {
      assert t % TWO42 == t && FloorForMs(unixMs) == t * TWO22;
    } else {
      var top: U64 := TWO64 - 1;
      assert TimestampMs(top) < unixMs && top >= FloorForMs(unixMs);
    }
  }

  // An id fits a signed column as long as its time field has 41 bits.
  lemma SignedIff(id: U64)
    ensures id < TWO63 <==> TimeField(id) < TWO41
  {
  }

  // ---------------------------------------------------------------------------
  // One allocation
  // ---------------------------------------------------------------------------

  // The generator's word holds the last time and sequence; the next value by its three
  // cases.
  function Next(cur: U64, now: U64): U64 {
    var lastMs, serial := cur / SEQS, cur % SEQS;
    if now > lastMs then Shl(now, SEQS)
    else if serial < SEQS - 1 then cur + 1
    else Shl(lastMs + 1, SEQS)
  }

  // The three cases are one maximum as long as nothing leaves the word.
  lemma NextIsMaxIff(cur: U64, now: U64)
    ensures Next(cur, now) == (if now * SEQS > cur + 1 then now * SEQS else cur + 1) <==> now < TWO52 && cur < TWO64 - 1
  {
  }

  function Mint(node: nat, word: U64): U64
    requires node < NODES
  {
    Pack(word / SEQS, node, word % SEQS)
  }

  lemma MintFields(node: nat, word: U64)
    requires node < NODES && word < TWO54
    ensures NodeField(Mint(node, word)) == node && TimeField(Mint(node, word)) == word / SEQS &&
        SeqField(Mint(node, word)) == word % SEQS
  {
    PackFields(word / SEQS, node, word % SEQS);
  }

  // With the time in 42 bits, ids are ordered as their words are.
  lemma MintOrder(node: nat, a: U64, b: U64)
    requires node < NODES && a < b < TWO54
    ensures Mint(node, a) < Mint(node, b)
  {
    ShlIsMultiple(a / SEQS);
    ShlIsMultiple(b / SEQS);
    hide Shl;
    assert a / SEQS < TWO42 && b / SEQS < TWO42;
    if a / SEQS == b / SEQS {
      assert a % SEQS < b % SEQS;
    } else {
      assert a / SEQS < b / SEQS;
    }
  }

  // Two words make the same id exactly when they agree in their low 54 bits.
  lemma MintRepeatsIff(node: nat, a: U64, b: U64)
    requires node < NODES
    ensures Mint(node, a) == Mint(node, b) <==> a % TWO54 == b % TWO54
  {
    PackFields(a / SEQS, node, a % SEQS);
    PackFields(b / SEQS, node, b % SEQS);
    LowBits(a);
    LowBits(b);
    ShlIsMultiple(a / SEQS);
    ShlIsMultiple(b / SEQS);
  }

  lemma LowBits(word: U64)
    ensures word % TWO54 == word / SEQS % TWO42 * SEQS + word % SEQS
  {
    var high := word / SEQS / TWO42;
    assert word == high * TWO54 + (word / SEQS % TWO42 * SEQS + word % SEQS);
  }
}
