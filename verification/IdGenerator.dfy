// The lock-free id generator: any number of threads share one atomic word, and every step
// of theirs is one event. A relaxed load or a failed exchange may return any value the
// word has held so far; a successful exchange acts on its latest value.
module IdGenerator {
  import opened Options
  import opened Ids

  type Thread = nat

  // `hist` is every value the word has held, oldest first; `local` is the value each
  // thread inside a call works from; `minted` is what the calls returned, in the order of
  // their exchanges.
  datatype Gen = Gen(node: nat, hist: seq<U64>, local: map<Thread, U64>, minted: seq<U64>)

  // A thread enters and loads; reads the clock and wins its exchange; or reads the clock
  // and loses it, to another thread or for no reason at all.
  datatype Event = Load(t: Thread, k: nat) | Win(t: Thread, now: U64) | Lose(t: Thread, now: U64, k: nat)

  function Start(node: nat): Gen {
    Gen(node % NODES, [0], map[], [])
  }

  predicate Enabled(g: Gen, e: Event) {
    match e
    case Load(t, k) => t !in g.local && k < |g.hist|
    case Win(t, now) => t in g.local && g.hist != [] && g.local[t] == g.hist[|g.hist| - 1]
    case Lose(t, now, k) => t in g.local && k < |g.hist|
  }

  function Step(g: Gen, e: Event): Gen
    requires Enabled(g, e) && g.node < NODES
  {
    match e
    case Load(t, k) => g.(local := g.local[t := g.hist[k]])
    case Win(t, now) =>
      var next := Next(g.local[t], now);
      g.(hist := g.hist + [next], local := g.local - {t}, minted := g.minted + [Mint(g.node, next)])
    case Lose(t, now, k) => g.(local := g.local[t := g.hist[k]])
  }

  // A run is a sequence of events each of which is possible where it happens.
  function Run(node: nat, events: seq<Event>): Option<Gen>
    ensures Run(node, events).Some? ==> Run(node, events).value.node == node % NODES
  {
    if events == [] then Some(Start(node))
    else
      var before, e := Run(node, events[..|events| - 1]), events[|events| - 1];
      if before.Some? && Enabled(before.value, e) then Some(Step(before.value, e)) else None
  }

  function MaxClock(events: seq<Event>): nat {
    if events == [] then 0
    else
      var m, e := MaxClock(events[..|events| - 1]), events[|events| - 1];
      if !e.Load? && e.now > m then e.now else m
  }

  // Within `limit`, the largest clock reading so far, the word has only grown, and by no
  // more than one for each id beyond the largest reading; the ids are its values.
  ghost predicate Grown(g: Gen, node: nat, limit: nat) {
    && g.node == node % NODES && |g.hist| == |g.minted| + 1
    && (forall i, j :: 0 <= i < j < |g.hist| ==> g.hist[i] < g.hist[j])
    && (forall i :: 0 <= i < |g.hist| ==> g.hist[i] <= limit * SEQS + i)
    && forall i :: 0 <= i < |g.minted| ==> g.minted[i] == Mint(g.node, g.hist[i + 1])
  }

  lemma WinKeepsGrown(g: Gen, node: nat, limit: nat, t: Thread, now: U64)
    requires Grown(g, node, limit) && Enabled(g, Win(t, now))
    requires now <= limit && limit * SEQS + |g.hist| < TWO54
    ensures Grown(Step(g, Win(t, now)), node, limit)
  {
    var cur := g.hist[|g.hist| - 1];
    NextIsMaxIff(cur, now);
    var g' := Step(g, Win(t, now));
    forall i, j | 0 <= i < j < |g'.hist|
      ensures g'.hist[i] < g'.hist[j]
    {
      assert i == |g.hist| - 1 || i == |g.hist| || g.hist[i] <= cur;
    }
  }

  lemma {:induction false} GrownAlways(node: nat, events: seq<Event>, g: Gen, limit: nat)
    requires Run(node, events) == Some(g) && MaxClock(events) <= limit && limit * SEQS + |g.minted| < TWO54
    ensures Grown(g, node, limit)
    decreases |events|
  {
    if events != [] {
      var e := events[|events| - 1];
      var before := Run(node, events[..|events| - 1]).value;
      GrownAlways(node, events[..|events| - 1], before, limit);
      if e.Win? {
        WinKeepsGrown(before, node, limit, e.t, e.now);
      }
    }
  }

  // Main result. Under every interleaving, every stale load, every spurious failure and
  // every clock, the ids increase in the order of the exchanges and so are distinct, they
  // carry the generator's node, and the n-th one's time is ahead of the largest clock
  // reading by at most n / 4096; as long as that leaves the time in its 42 bits.
  lemma MintedIdsIncrease(node: nat, events: seq<Event>, g: Gen)
    requires Run(node, events) == Some(g) && MaxClock(events) * SEQS + |g.minted| < TWO54
    ensures forall i, j :: 0 <= i < j < |g.minted| ==> g.minted[i] < g.minted[j]
    ensures forall i :: 0 <= i < |g.minted| ==> NodeField(g.minted[i]) == node % NODES
    ensures forall i :: 0 <= i < |g.minted| ==> TimeField(g.minted[i]) <= MaxClock(events) + (i + 1) / SEQS
  {
    var limit := MaxClock(events);
    GrownAlways(node, events, g, limit);
    forall i, j | 0 <= i < j < |g.minted|
      ensures g.minted[i] < g.minted[j]
    {
      MintOrder(g.node, g.hist[i + 1], g.hist[j + 1]);
    }
    forall i | 0 <= i < |g.minted|
      ensures NodeField(g.minted[i]) == node % NODES && TimeField(g.minted[i]) <= limit + (i + 1) / SEQS
    {
      MintFields(g.node, g.hist[i + 1]);
      assert g.hist[i + 1] / SEQS <= (limit * SEQS + (i + 1)) / SEQS;
      assert (limit * SEQS + (i + 1)) / SEQS == limit + (i + 1) / SEQS;
    }
  }

  lemma {:induction false} MintedFromWords(node: nat, events: seq<Event>, g: Gen)
    requires Run(node, events) == Some(g)
    ensures |g.hist| == |g.minted| + 1
    ensures forall i :: 0 <= i < |g.minted| ==> g.minted[i] == Mint(g.node, g.hist[i + 1])
    decreases |events|
  {
    hide Mint, Next;
    if events != [] {
      MintedFromWords(node, events[..|events| - 1], Run(node, events[..|events| - 1]).value);
    }
  }

  // Generators of different nodes never mint the same id, in whatever range.
  lemma NodesDoNotCollide(nodeA: nat, nodeB: nat, eventsA: seq<Event>, eventsB: seq<Event>, a: Gen, b: Gen)
    requires Run(nodeA, eventsA) == Some(a) && Run(nodeB, eventsB) == Some(b)
    requires nodeA % NODES != nodeB % NODES
    ensures forall i, j :: 0 <= i < |a.minted| && 0 <= j < |b.minted| ==> a.minted[i] != b.minted[j]
  {
    MintedFromWords(nodeA, eventsA, a);
    MintedFromWords(nodeB, eventsB, b);
    forall i, j | 0 <= i < |a.minted| && 0 <= j < |b.minted|
      ensures a.minted[i] != b.minted[j]
    {
      PackFields(a.hist[i + 1] / SEQS, a.node, a.hist[i + 1] % SEQS);
      PackFields(b.hist[j + 1] / SEQS, b.node, b.hist[j + 1] % SEQS);
    }
  }

  // Main result: over every run, in whatever range, two calls return the same id exactly
  // when the words of their exchanges agree in 54 bits.
  lemma MintedIdsRepeatIff(node: nat, events: seq<Event>, g: Gen, i: nat, j: nat)
    requires Run(node, events) == Some(g) && i < |g.minted| && j < |g.minted|
    ensures |g.hist| == |g.minted| + 1
    ensures g.minted[i] == g.minted[j] <==> g.hist[i + 1] % TWO54 == g.hist[j + 1] % TWO54
  {
    MintedFromWords(node, events, g);
    MintRepeatsIff(g.node, g.hist[i + 1], g.hist[j + 1]);
  }

  // A clock that jumps by 2^42 milliseconds makes such a run: both calls return one id.
  lemma ARunRepeats(node: nat)
    ensures var g := Run(node, [Load(0, 0), Win(0, 1)] + [Load(0, 1), Win(0, 1 + TWO42)]);
      g.Some? && |g.value.minted| == 2 && g.value.minted[0] == g.value.minted[1]
  {
    assert Run(node, []) == Some(Start(node));
    TwoReadings();
    hide Run, Mint, Next;
    CallAlone(node, [], Start(node), 1);
    var once := Start(node).(hist := [0] + [SEQS], minted := [] + [Mint(node % NODES, SEQS)]);
    assert [] + [Load(0, 0), Win(0, 1)] == [Load(0, 0), Win(0, 1)];
    CallAlone(node, [Load(0, 0), Win(0, 1)], once, 1 + TWO42);
    MintRepeatsIff(node % NODES, SEQS, SEQS + TWO54);
  }

  lemma TwoReadings()
    ensures Next(0, 1) == SEQS && Next(SEQS, 1 + TWO42) == SEQS + TWO54
  {
  }

  // A thread that calls with no other one around.
  lemma CallAlone(node: nat, events: seq<Event>, g: Gen, now: U64)
    requires Run(node, events) == Some(g) && g.local == map[] && g.hist != []
    ensures var next := Next(g.hist[|g.hist| - 1], now);
      Run(node, events + [Load(0, |g.hist| - 1), Win(0, now)]) ==
      Some(g.(hist := g.hist + [next], minted := g.minted + [Mint(g.node, next)]))
  {
    hide Run, Next, Mint;
    var load, win := Load(0, |g.hist| - 1), Win(0, now);
    RunStep(node, events, load);
    RunStep(node, events + [load], win);
    assert events + [load, win] == events + [load] + [win];
    assert map[0 := g.hist[|g.hist| - 1]] - {0} == map[];
  }

  lemma RunStep(node: nat, events: seq<Event>, e: Event)
    ensures Run(node, events + [e]) ==
      var before := Run(node, events);
      if before.Some? && Enabled(before.value, e) then Some(Step(before.value, e)) else None
  {
    assert (events + [e])[..|events|] == events;
  }

  // Every id of a run fits a signed column as long as the largest reading and the ids
  // minted leave its time in 41 bits.
  lemma MintedIdsFitColumn(node: nat, events: seq<Event>, g: Gen)
    requires Run(node, events) == Some(g) && MaxClock(events) * SEQS + |g.minted| < TWO41 * SEQS
    ensures forall i :: 0 <= i < |g.minted| ==> g.minted[i] < TWO63
  {
    MintedIdsIncrease(node, events, g);
    forall i | 0 <= i < |g.minted|
      ensures g.minted[i] < TWO63
    {
      assert MaxClock(events) + (i + 1) / SEQS < TWO41;
      SignedIff(g.minted[i]);
    }
  }
}
