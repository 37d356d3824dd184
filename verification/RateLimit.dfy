// Token buckets over real numbers: the bound they put on any stretch of requests, and the
// eviction of idle ones.
module RateLimit {

  // What a bucket holds, as a value.
  datatype Level = Level(tokens: real, last: real)

  function Min(a: real, b: real): real {
    if a < b then a else b
  }

  // What a stretch of time earns.
  function Earned(time: real, rate: real): real {
    time * rate
  }

  lemma EarnedGrows(a: real, b: real, rate: real)
    requires rate >= 0.0 && a <= b
    ensures Earned(a, rate) <= Earned(b, rate) && Earned(0.0, rate) == 0.0
  {
  }

  lemma EarnedAdds(a: real, b: real, rate: real)
    ensures Earned(a + b, rate) == Earned(a, rate) + Earned(b, rate)
  {
  }

  // A clock reading that is not later changes nothing.
  function Refilled(b: Level, capacity: real, rate: real, now: real): Level {
    if now > b.last then Level(Min(b.tokens + Earned(now - b.last, rate), capacity), now) else b
  }

  predicate Grants(b: Level, capacity: real, rate: real, now: real, n: real) {
    Refilled(b, capacity, rate, now).tokens >= n
  }

  function Spent(b: Level, capacity: real, rate: real, now: real, n: real): Level {
    var r := Refilled(b, capacity, rate, now);
    if r.tokens >= n then r.(tokens := r.tokens - n) else r
  }

  predicate WithinCapacity(b: Level, capacity: real) {
    0.0 <= b.tokens <= capacity
  }

  class Bucket {
    const capacity: real
    const rate: real
    var tokens: real
    var last: real

    ghost function Now(): Level
      reads this
    {
      Level(tokens, last)
    }

    // A new bucket is full.
    constructor (capacity: real, rate: real, now: real)
      ensures this.capacity == capacity && this.rate == rate && Now() == Level(capacity, now)
    {
      this.capacity, this.rate, tokens, last := capacity, rate, capacity, now;
    }

    method AllowN(now: real, n: real) returns (ok: bool)
      modifies this`tokens, this`last
      ensures ok == Grants(old(Now()), capacity, rate, now, n)
      ensures now > old(last) ==> (ok <==> n <= old(tokens) + rate * (now - old(last)) && n <= capacity)
      ensures now <= old(last) ==> (ok <==> n <= old(tokens))
      ensures Now() == Spent(old(Now()), capacity, rate, now, n)
    {
      Refill(now);
      if tokens >= n {
        tokens := tokens - n;
        ok := true;
      } else {
        ok := false;
      }
    }

    method Refill(now: real)
      modifies this`tokens, this`last
      ensures Now() == Refilled(old(Now()), capacity, rate, now)
    {
      var elapsed := if now > last then now - last else 0.0;
      if elapsed > 0.0 {
        tokens := Min(tokens + Earned(elapsed, rate), capacity);
        last := now;
      }
    }
  }

  // ---------------------------------------------------------------------------
  // The rate bound
  // ---------------------------------------------------------------------------

  datatype Request = Request(now: real, n: real)

  function After(b: Level, capacity: real, rate: real, rs: seq<Request>): Level {
    if rs == [] then b
    else
      var r := rs[|rs| - 1];
      Spent(After(b, capacity, rate, rs[..|rs| - 1]), capacity, rate, r.now, r.n)
  }

  // The tokens granted over a stretch of requests.
  function Granted(b: Level, capacity: real, rate: real, rs: seq<Request>): real {
    if rs == [] then 0.0
    else
      var r, before := rs[|rs| - 1], rs[..|rs| - 1];
      Granted(b, capacity, rate, before) +
          if Grants(After(b, capacity, rate, before), capacity, rate, r.now, r.n) then r.n else 0.0
  }

  predicate Positive(rs: seq<Request>) {
    forall i :: 0 <= i < |rs| ==> rs[i].n >= 0.0
  }

  // No tokens come from nowhere: what was granted and what is left never exceed what was
  // there and what the time that passed has refilled.
  lemma {:induction false} TokensConserved(b: Level, capacity: real, rate: real, rs: seq<Request>)
    requires WithinCapacity(b, capacity) && rate >= 0.0 && Positive(rs)
    ensures var a := After(b, capacity, rate, rs);
      && WithinCapacity(a, capacity) && a.last >= b.last
      && Granted(b, capacity, rate, rs) + a.tokens <= b.tokens + Earned(a.last - b.last, rate)
  {
    hide Earned;
    EarnedGrows(0.0, 0.0, rate);
    if rs != [] {
      var r, before := rs[|rs| - 1], rs[..|rs| - 1];
      TokensConserved(b, capacity, rate, before);
      var m := After(b, capacity, rate, before);
      if r.now > m.last {
        EarnedGrows(0.0, r.now - m.last, rate);
        EarnedAdds(r.now - m.last, m.last - b.last, rate);
        assert r.now - b.last == (r.now - m.last) + (m.last - b.last);
      }
    }
  }

  // What is granted is what the bucket loses: while the clock stands still, exactly.
  lemma {:induction false} GrantedIsSpent(b: Level, capacity: real, rate: real, rs: seq<Request>)
    requires forall i :: 0 <= i < |rs| ==> rs[i].now <= b.last
    ensures After(b, capacity, rate, rs).last == b.last
    ensures Granted(b, capacity, rate, rs) == b.tokens - After(b, capacity, rate, rs).tokens
  {
    if rs != [] {
      GrantedIsSpent(b, capacity, rate, rs[..|rs| - 1]);
    }
  }

  // Main result: in any stretch of requests, from the first one on, the bucket grants at
  // most its capacity and the refill of the time since; whatever the clock readings.
  lemma RateBound(b: Level, capacity: real, rate: real, first: Request, rs: seq<Request>)
    requires WithinCapacity(b, capacity) && rate >= 0.0 && Positive([first] + rs)
    ensures var a := After(b, capacity, rate, [first] + rs);
      && a.last >= first.now
      && Granted(b, capacity, rate, [first] + rs) <=
          capacity + Earned(a.last - Refilled(b, capacity, rate, first.now).last, rate)
  {
    var b' := Refilled(b, capacity, rate, first.now);
    RefillFirst(b, capacity, rate, first, rs);
    AfterRefill(b, capacity, rate, first.now);
    TokensConserved(b', capacity, rate, [first] + rs);
  }

  lemma AfterRefill(b: Level, capacity: real, rate: real, now: real)
    requires WithinCapacity(b, capacity) && rate >= 0.0
    ensures var b' := Refilled(b, capacity, rate, now);
      WithinCapacity(b', capacity) && b'.last >= now && Refilled(b', capacity, rate, now) == b'
  {
    if now > b.last {
      EarnedGrows(0.0, now - b.last, rate);
    }
  }

  lemma {:induction false} RefillFirst(b: Level, capacity: real, rate: real, first: Request, rs: seq<Request>)
    requires WithinCapacity(b, capacity) && rate >= 0.0
    ensures var b' := Refilled(b, capacity, rate, first.now);
      && After(b', capacity, rate, [first] + rs) == After(b, capacity, rate, [first] + rs)
      && Granted(b', capacity, rate, [first] + rs) == Granted(b, capacity, rate, [first] + rs)
  {
    var b' := Refilled(b, capacity, rate, first.now);
    var all := [first] + rs;
    if rs == [] {
      AfterRefill(b, capacity, rate, first.now);
      assert all[..0] == [] && all[0] == first;
    } else {
      assert all[..|all| - 1] == [first] + rs[..|rs| - 1];
      RefillFirst(b, capacity, rate, first, rs[..|rs| - 1]);
    }
  }

  // With a clock that never goes back, the bucket's time is the latest reading.
  lemma {:induction false} LastIsLatest(b: Level, capacity: real, rate: real, rs: seq<Request>)
    requires rs != [] && forall i, j :: 0 <= i < j < |rs| ==> rs[i].now <= rs[j].now
    ensures After(b, capacity, rate, rs).last == if b.last < rs[|rs| - 1].now then rs[|rs| - 1].now else b.last
  {
    var before := rs[..|rs| - 1];
    if before != [] {
      LastIsLatest(b, capacity, rate, before);
    }
  }

  // Main result: over an interval of time the bucket grants at most its capacity and what
  // the interval earns.
  lemma IntervalBound(b: Level, capacity: real, rate: real, rs: seq<Request>)
    requires WithinCapacity(b, capacity) && rate >= 0.0 && Positive(rs)
    requires rs != [] && forall i, j :: 0 <= i < j < |rs| ==> rs[i].now <= rs[j].now
    ensures Granted(b, capacity, rate, rs) <= capacity + Earned(rs[|rs| - 1].now - rs[0].now, rate)
  {
    hide After, Granted, Earned;
    assert [rs[0]] + rs[1..] == rs;
    RateBound(b, capacity, rate, rs[0], rs[1..]);
    LastIsLatest(b, capacity, rate, rs);
    var since := After(b, capacity, rate, rs).last - Refilled(b, capacity, rate, rs[0].now).last;
    EarnedGrows(since, rs[|rs| - 1].now - rs[0].now, rate);
  }

  // ---------------------------------------------------------------------------
  // One bucket per address, and eviction
  // ---------------------------------------------------------------------------

  type Address = nat

  const IDLE: real := 600.0

  function Swept(m: map<Address, Level>, now: real): map<Address, Level> {
    if |m| > 4096 then map a | a in m && m[a].last > now - IDLE :: m[a] else m
  }

  function LevelOf(m: map<Address, Level>, a: Address, capacity: real, now: real): Level {
    if a in m then m[a] else Level(capacity, now)
  }

  class IpLimiter {
    const capacity: real
    const rate: real
    var buckets: map<Address, Level>

    constructor (capacity: real, rate: real)
      ensures this.capacity == capacity && this.rate == rate && buckets == map[]
    {
      this.capacity, this.rate, buckets := capacity, rate, map[];
    }

    method Allow(a: Address, now: real) returns (ok: bool)
      modifies this`buckets
      ensures ok == Answer(old(buckets), capacity, rate, Call(a, now), true)
      ensures buckets == Step(old(buckets), capacity, rate, Call(a, now), true)
    {
      if |buckets| > 4096 {
        buckets := map x | x in buckets && buckets[x].last > now - IDLE :: buckets[x];
      }
      var b := if a in buckets then buckets[a] else Level(capacity, now);
      ok := Grants(b, capacity, rate, now, 1.0);
      buckets := buckets[a := Spent(b, capacity, rate, now, 1.0)];
    }
  }

  datatype Call = Call(a: Address, now: real)

  // One call, with the eviction or without it.
  function Answer(m: map<Address, Level>, capacity: real, rate: real, c: Call, evict: bool): bool {
    Grants(LevelOf(if evict then Swept(m, c.now) else m, c.a, capacity, c.now), capacity, rate, c.now, 1.0)
  }

  function Step(m: map<Address, Level>, capacity: real, rate: real, c: Call, evict: bool): map<Address, Level> {
    var kept := if evict then Swept(m, c.now) else m;
    kept[c.a := Spent(LevelOf(kept, c.a, capacity, c.now), capacity, rate, c.now, 1.0)]
  }

  // The answers to a run of calls.
  function Answers(m: map<Address, Level>, capacity: real, rate: real, calls: seq<Call>, evict: bool): (r: seq<bool>)
    ensures |r| == |calls|
    decreases |calls|
  {
    if calls == [] then []
    else
      var m' := Step(m, capacity, rate, calls[0], evict);
      [Answer(m, capacity, rate, calls[0], evict)] + Answers(m', capacity, rate, calls[1..], evict)
  }

  // Where it ends.
  function State(m: map<Address, Level>, capacity: real, rate: real, calls: seq<Call>, evict: bool): map<Address, Level>
    decreases |calls|
  {
    if calls == [] then m
    else State(Step(m, capacity, rate, calls[0], evict), capacity, rate, calls[1..], evict)
  }

  lemma {:induction false} AnswersSplit(m: map<Address, Level>, capacity: real, rate: real,
                                        xs: seq<Call>, ys: seq<Call>, evict: bool)
    ensures var mid := State(m, capacity, rate, xs, evict);
      && Answers(m, capacity, rate, xs + ys, evict) ==
         Answers(m, capacity, rate, xs, evict) + Answers(mid, capacity, rate, ys, evict)
      && State(m, capacity, rate, xs + ys, evict) == State(mid, capacity, rate, ys, evict)
    decreases |xs|
  {
    hide Step, Answer;
    if xs == [] {
      assert xs + ys == ys;
    } else {
      assert (xs + ys)[1..] == xs[1..] + ys;
      AnswersSplit(Step(m, capacity, rate, xs[0], evict), capacity, rate, xs[1..], ys, evict);
    }
  }

  // A server that asks the limiter before each request.
  method Serve(limiter: IpLimiter, calls: seq<Call>) returns (answers: seq<bool>)
    modifies limiter
    ensures answers == Answers(old(limiter.buckets), limiter.capacity, limiter.rate, calls, true)
    ensures limiter.buckets == State(old(limiter.buckets), limiter.capacity, limiter.rate, calls, true)
  {
    hide Step, Answer;
    answers := [];
    for i := 0 to |calls|
      invariant answers == Answers(old(limiter.buckets), limiter.capacity, limiter.rate, calls[..i], true)
      invariant limiter.buckets == State(old(limiter.buckets), limiter.capacity, limiter.rate, calls[..i], true)
    {
      AnswersSplit(old(limiter.buckets), limiter.capacity, limiter.rate, calls[..i], [calls[i]], true);
      assert calls[..i + 1] == calls[..i] + [calls[i]];
      OneCall(limiter.buckets, limiter.capacity, limiter.rate, calls[i], true);
      var ok := limiter.Allow(calls[i].a, calls[i].now);
      answers := answers + [ok];
    }
    assert calls[..|calls|] == calls;
  }

  lemma OneCall(m: map<Address, Level>, capacity: real, rate: real, c: Call, evict: bool)
    ensures Answers(m, capacity, rate, [c], evict) == [Answer(m, capacity, rate, c, evict)]
    ensures State(m, capacity, rate, [c], evict) == Step(m, capacity, rate, c, evict)
  {
    hide Step, Answer;
    assert [c][1..] == [];
  }

  // ---------------------------------------------------------------------------
  // What one address is granted
  // ---------------------------------------------------------------------------

  function GrantedTo(a: Address, calls: seq<Call>, answers: seq<bool>): nat
    requires |answers| == |calls|
  {
    if calls == [] then 0
    else GrantedTo(a, calls[1..], answers[1..]) + if calls[0].a == a && answers[0] then 1 else 0
  }

  // It counts the calls of the address that were granted.
  lemma {:induction false} GrantedToCounts(a: Address, calls: seq<Call>, answers: seq<bool>)
    requires |answers| == |calls|
    ensures GrantedTo(a, calls, answers) ==
      multiset(seq(|calls|, i requires 0 <= i < |calls| => (calls[i].a, answers[i])))[(a, true)]
  {
    var pairs := seq(|calls|, i requires 0 <= i < |calls| => (calls[i].a, answers[i]));
    if calls != [] {
      GrantedToCounts(a, calls[1..], answers[1..]);
      var rest := seq(|calls[1..]|, i requires 0 <= i < |calls[1..]| => (calls[1..][i].a, answers[1..][i]));
      assert pairs == [(calls[0].a, answers[0])] + rest;
    }
  }

  ghost predicate Levels(m: map<Address, Level>, capacity: real, now: real) {
    forall a :: a in m ==> WithinCapacity(m[a], capacity) && m[a].last <= now
  }

  // What an address could spend now.
  function Available(m: map<Address, Level>, a: Address, capacity: real, rate: real, now: real): real {
    Refilled(LevelOf(m, a, capacity, now), capacity, rate, now).tokens
  }

  // Main result: from any state on, and so over any stretch of any run, an address is
  // granted at most the capacity and what the time earns; with the eviction, as long as ten
  // minutes earn the capacity.
  lemma {:induction false} AddressBound(m: map<Address, Level>, capacity: real, rate: real, calls: seq<Call>,
                                        evict: bool, a: Address, now: real, end: real)
    requires Levels(m, capacity, now) && InOrder(calls, now) && now <= end
    requires forall i :: 0 <= i < |calls| ==> calls[i].now <= end
    requires capacity >= 0.0 && rate >= 0.0 && (evict ==> Earned(IDLE, rate) >= capacity)
    ensures var granted := GrantedTo(a, calls, Answers(m, capacity, rate, calls, evict));
      && granted as real <= Available(m, a, capacity, rate, now) + Earned(end - now, rate)
      && granted as real <= capacity + Earned(end - now, rate)
    decreases |calls|
  {
    hide Earned, Refilled, Spent, Grants, Swept, LevelOf, Answer, Step, Available;
    AvailableGrows(m, a, capacity, rate, now, if calls == [] then now else calls[0].now, end);
    if calls != [] {
      StepAvailable(m, capacity, rate, calls[0], evict, a, now);
      AddressBound(Step(m, capacity, rate, calls[0], evict), capacity, rate, calls[1..], evict, a, calls[0].now, end);
    }
  }

  // Waiting adds what the time earns, up to the capacity.
  lemma AvailableGrows(m: map<Address, Level>, a: Address, capacity: real, rate: real, now: real,
                       later: real, end: real)
    requires Levels(m, capacity, now) && now <= later <= end && capacity >= 0.0 && rate >= 0.0
    ensures 0.0 <= Available(m, a, capacity, rate, now) <= capacity && Earned(end - now, rate) >= 0.0
    ensures Available(m, a, capacity, rate, later) + Earned(end - later, rate) <=
      Available(m, a, capacity, rate, now) + Earned(end - now, rate)
  {
    hide Earned;
    EarnedGrows(0.0, end - now, rate);
    EarnedGrows(0.0, end - later, rate);
    EarnedGrows(0.0, later - now, rate);
    EarnedAdds(later - now, end - later, rate);
    assert later - now + (end - later) == end - now;
    if a in m {
      var b := m[a];
      EarnedGrows(0.0, now - b.last, rate);
      EarnedAdds(now - b.last, later - now, rate);
      assert now - b.last + (later - now) == later - b.last;
    }
  }

  // A call takes what it grants.
  lemma StepAvailable(m: map<Address, Level>, capacity: real, rate: real, c: Call, evict: bool, a: Address, now: real)
    requires Levels(m, capacity, now) && now <= c.now
    requires capacity >= 0.0 && rate >= 0.0 && (evict ==> Earned(IDLE, rate) >= capacity)
    ensures var m' := Step(m, capacity, rate, c, evict);
      && Levels(m', capacity, c.now)
      && Available(m', a, capacity, rate, c.now) == Available(m, a, capacity, rate, c.now) -
         if c.a == a && Answer(m, capacity, rate, c, evict) then 1.0 else 0.0
  {
    hide Earned;
    var kept := if evict then Swept(m, c.now) else m;
    if evict && a in m && a !in kept {
      IdleIsFull(m[a], capacity, rate, c.now);
    }
    assert Available(kept, a, capacity, rate, c.now) == Available(m, a, capacity, rate, c.now);
    var b := LevelOf(kept, c.a, capacity, c.now);
    AfterRefill(b, capacity, rate, c.now);
    assert Levels(kept, capacity, c.now);
  }

  // ---------------------------------------------------------------------------
  // When eviction is invisible
  // ---------------------------------------------------------------------------

  // What the evicting limiter has, the other has too; what it lacks of the other has been
  // idle for long.
  ghost predicate Matches(m: map<Address, Level>, full: map<Address, Level>, capacity: real, now: real) {
    && (forall a :: a in m ==> a in full && m[a] == full[a])
    && forall a :: a in full ==>
        WithinCapacity(full[a], capacity) && full[a].last <= now && (a !in m ==> full[a].last <= now - IDLE)
  }

  predicate InOrder(calls: seq<Call>, now: real) {
    && (calls != [] ==> now <= calls[0].now)
    && forall i, j :: 0 <= i < j < |calls| ==> calls[i].now <= calls[j].now
  }

  // A bucket that was idle that long is full again, so a new one is no different.
  lemma IdleIsFull(b: Level, capacity: real, rate: real, now: real)
    requires WithinCapacity(b, capacity) && b.last <= now - IDLE && rate >= 0.0 && Earned(IDLE, rate) >= capacity
    ensures Refilled(b, capacity, rate, now) == Level(capacity, now) ==
        Refilled(Level(capacity, now), capacity, rate, now)
  {
    EarnedGrows(IDLE, now - b.last, rate);
  }

  // Main result: if idle buckets are full when they are evicted, eviction changes no
  // answer in any run.
  lemma {:induction false} EvictionIsInvisible(m: map<Address, Level>, full: map<Address, Level>,
                                               capacity: real, rate: real, calls: seq<Call>, now: real)
    requires Matches(m, full, capacity, now) && InOrder(calls, now)
    requires capacity >= 0.0 && rate >= 0.0 && Earned(IDLE, rate) >= capacity
    ensures Answers(m, capacity, rate, calls, true) == Answers(full, capacity, rate, calls, false)
    decreases |calls|
  {
    if calls != [] {
      var c := calls[0];
      var kept := Swept(m, c.now);
      var b, f := LevelOf(kept, c.a, capacity, c.now), LevelOf(full, c.a, capacity, c.now);
      if c.a !in kept && c.a in full {
        IdleIsFull(f, capacity, rate, c.now);
      }
      assert Spent(b, capacity, rate, c.now, 1.0) == Spent(f, capacity, rate, c.now, 1.0);
      SpentLevel(f, capacity, rate, c.now);
      var b', f' := Spent(b, capacity, rate, c.now, 1.0), Spent(f, capacity, rate, c.now, 1.0);
      EvictionIsInvisible(kept[c.a := b'], full[c.a := f'], capacity, rate, calls[1..], c.now);
    }
  }

  lemma SpentLevel(b: Level, capacity: real, rate: real, now: real)
    requires WithinCapacity(b, capacity) && rate >= 0.0 && b.last <= now
    ensures WithinCapacity(Spent(b, capacity, rate, now, 1.0), capacity) &&
        Spent(b, capacity, rate, now, 1.0).last <= now
  {
  }

  // ---------------------------------------------------------------------------
  // When idle buckets are not full
  // ---------------------------------------------------------------------------

  // The answers one bucket gives.
  function BucketAnswers(b: Level, capacity: real, rate: real, times: seq<real>): seq<bool>
    decreases |times|
  {
    if times == [] then []
    else
      var b' := Spent(b, capacity, rate, times[0], 1.0);
      [Grants(b, capacity, rate, times[0], 1.0)] + BucketAnswers(b', capacity, rate, times[1..])
  }

  function Burst(now: real, k: nat): (r: seq<real>)
    ensures |r| == k && forall i :: 0 <= i < k ==> r[i] == now
  {
    if k == 0 then [] else [now] + Burst(now, k - 1)
  }

  predicate AllTrue(s: seq<bool>) {
    forall i :: 0 <= i < |s| ==> s[i]
  }

  // At one instant a bucket grants exactly as many requests as it has whole tokens.
  lemma {:induction false} BurstIff(b: Level, capacity: real, rate: real, k: nat, more: seq<real>)
    requires b.tokens >= 0.0
    ensures |BucketAnswers(b, capacity, rate, Burst(b.last, k) + more)| == k + |more|
    ensures AllTrue(BucketAnswers(b, capacity, rate, Burst(b.last, k) + more)[..k]) <==> b.tokens >= k as real
    ensures b.tokens >= k as real ==>
      BucketAnswers(b, capacity, rate, Burst(b.last, k) + more)[k..] ==
        BucketAnswers(Level(b.tokens - k as real, b.last), capacity, rate, more)
    decreases k
  {
    hide Earned;
    if k == 0 {
      assert Burst(b.last, 0) + more == more;
      AnswersLength(b, capacity, rate, more);
      assert Level(b.tokens - 0 as real, b.last) == b;
    } else {
      var times := Burst(b.last, k) + more;
      var b' := Spent(b, capacity, rate, b.last, 1.0);
      assert times[1..] == Burst(b.last, k - 1) + more;
      BurstIff(b', capacity, rate, k - 1, more);
      var rest := BucketAnswers(b', capacity, rate, times[1..]);
      assert BucketAnswers(b, capacity, rate, times) == [Grants(b, capacity, rate, b.last, 1.0)] + rest;
      assert ([Grants(b, capacity, rate, b.last, 1.0)] + rest)[1..k] == rest[..k - 1];
      if b.tokens >= 1.0 {
        assert b'.tokens == b.tokens - 1.0;
      } else {
        assert !BucketAnswers(b, capacity, rate, times)[..k][0];
      }
    }
  }

  lemma {:induction false} AnswersLength(b: Level, capacity: real, rate: real, times: seq<real>)
    ensures |BucketAnswers(b, capacity, rate, times)| == |times|
    decreases |times|
  {
    if times != [] {
      AnswersLength(Spent(b, capacity, rate, times[0], 1.0), capacity, rate, times[1..]);
    }
  }

  function LevelAfter(b: Level, capacity: real, rate: real, times: seq<real>): Level
    decreases |times|
  {
    if times == [] then b else LevelAfter(Spent(b, capacity, rate, times[0], 1.0), capacity, rate, times[1..])
  }

  // As many whole tokens as a full bucket holds can be spent at once.
  lemma {:induction false} BurstSpends(b: Level, capacity: real, rate: real, k: nat, more: seq<real>)
    requires b.tokens >= k as real
    ensures LevelAfter(b, capacity, rate, Burst(b.last, k) + more) ==
      LevelAfter(Level(b.tokens - k as real, b.last), capacity, rate, more)
    decreases k
  {
    hide Earned;
    if k == 0 {
      assert Burst(b.last, 0) + more == more;
      assert Level(b.tokens - 0 as real, b.last) == b;
    } else {
      var times := Burst(b.last, k) + more;
      assert times[1..] == Burst(b.last, k - 1) + more;
      BurstSpends(Spent(b, capacity, rate, b.last, 1.0), capacity, rate, k - 1, more);
    }
  }

  function CallsOf(a: Address, times: seq<real>): (r: seq<Call>)
    ensures |r| == |times| && forall i :: 0 <= i < |r| ==> r[i] == Call(a, times[i])
  {
    if times == [] then [] else [Call(a, times[0])] + CallsOf(a, times[1..])
  }

  // Few addresses: nothing is evicted, and each has its own bucket.
  lemma {:induction false} OneAddress(m: map<Address, Level>, a: Address, capacity: real, rate: real,
                                      times: seq<real>, evict: bool)
    requires a in m && (evict ==> |m| <= 4096)
    ensures Answers(m, capacity, rate, CallsOf(a, times), evict) == BucketAnswers(m[a], capacity, rate, times)
    ensures State(m, capacity, rate, CallsOf(a, times), evict) == m[a := LevelAfter(m[a], capacity, rate, times)]
    decreases |times|
  {
    hide Refilled, Grants, Spent;
    if times != [] {
      var b' := Spent(m[a], capacity, rate, times[0], 1.0);
      SameSize(m, a, b');
      OneAddress(m[a := b'], a, capacity, rate, times[1..], evict);
      assert m[a := b'][a := LevelAfter(b', capacity, rate, times[1..])] ==
        m[a := LevelAfter(b', capacity, rate, times[1..])];
      assert CallsOf(a, times)[1..] == CallsOf(a, times[1..]);
    } else {
      assert m[a := m[a]] == m;
    }
  }

  // An address that the limiter does not know, and nobody else.
  lemma FreshAddress(m: map<Address, Level>, a: Address, capacity: real, rate: real, times: seq<real>, evict: bool)
    requires times != [] && (if evict then Swept(m, times[0]) else m) == map[]
    ensures Answers(m, capacity, rate, CallsOf(a, times), evict) ==
      BucketAnswers(Level(capacity, times[0]), capacity, rate, times)
    ensures State(m, capacity, rate, CallsOf(a, times), evict) ==
      map[a := LevelAfter(Level(capacity, times[0]), capacity, rate, times)]
  {
    hide Refilled, Grants, Spent;
    var b' := Spent(Level(capacity, times[0]), capacity, rate, times[0], 1.0);
    OneAddress(map[a := b'], a, capacity, rate, times[1..], evict);
    assert CallsOf(a, times)[1..] == CallsOf(a, times[1..]);
    var end := LevelAfter(b', capacity, rate, times[1..]);
    assert map[a := b'][a := end] == map[a := end];
  }

  lemma SameSize(m: map<Address, Level>, a: Address, b: Level)
    requires a in m
    ensures |m[a := b]| == |m|
  {
    assert m[a := b].Keys == m.Keys;
    Sizes(m);
    Sizes(m[a := b]);
  }

  lemma Sizes(m: map<Address, Level>)
    ensures |m| == |m.Keys|
  {
  }

  // One call from each of `n` addresses that have not called before.
  function NewAddresses(first: Address, n: nat, now: real): (r: seq<Call>)
    ensures |r| == n && forall i :: 0 <= i < n ==> r[i].now == now
    decreases n
  {
    if n == 0 then [] else [Call(first, now)] + NewAddresses(first + 1, n - 1, now)
  }

  lemma {:induction false} AddressesArrive(m: map<Address, Level>, first: Address, n: nat, now: real,
                                           capacity: real, rate: real, evict: bool)
    requires forall a :: a in m ==> a < first && m[a].last <= now
    requires |m| == first && first + n <= 4097
    ensures var m' := State(m, capacity, rate, NewAddresses(first, n, now), evict);
      |m'| == first + n && Extends(m, m') && forall a :: a in m' ==> m'[a].last <= now
    decreases n
  {
    hide Step, Extends;
    if n > 0 {
      var m' := Step(m, capacity, rate, Call(first, now), evict);
      AddressArrives(m, first, now, capacity, rate, evict);
      assert NewAddresses(first, n, now)[1..] == NewAddresses(first + 1, n - 1, now);
      AddressesArrive(m', first + 1, n - 1, now, capacity, rate, evict);
      ExtendsTrans(m, m', State(m', capacity, rate, NewAddresses(first + 1, n - 1, now), evict));
    } else {
      ExtendsTrans(m, m, m);
    }
  }

  // Nothing about an address that was there has changed.
  predicate Extends(m: map<Address, Level>, m': map<Address, Level>) {
    forall a :: a in m ==> a in m' && m'[a] == m[a]
  }

  lemma ExtendsTrans(m: map<Address, Level>, m': map<Address, Level>, m'': map<Address, Level>)
    ensures Extends(m, m) && (Extends(m, m') && Extends(m', m'') ==> Extends(m, m''))
  {
  }

  lemma AddressArrives(m: map<Address, Level>, a: Address, now: real, capacity: real, rate: real, evict: bool)
    requires a !in m && |m| <= 4096 && forall x :: x in m ==> m[x].last <= now
    ensures var m' := Step(m, capacity, rate, Call(a, now), evict);
      && m'.Keys == m.Keys + {a} && |m'| == |m| + 1 && Extends(m, m')
      && forall x :: x in m' ==> m'[x].last <= now
  {
    var b := Spent(Level(capacity, now), capacity, rate, now, 1.0);
    assert Step(m, capacity, rate, Call(a, now), evict) == m[a := b];
    hide Step;
    assert m[a := b].Keys == m.Keys + {a};
    Sizes(m);
    Sizes(m[a := b]);
  }

  // ---------------------------------------------------------------------------
  // A run in which eviction shows
  // ---------------------------------------------------------------------------

  // The moment at which address 0, having spent its burst at time 0, can spend its last
  // part of a token: when that has grown to a whole one.
  function Drained(capacity: real, rate: real): real
    requires capacity >= 1.0 && rate >= 0.0
  {
    if rate == 0.0 then 0.0 else (1.0 - (capacity - capacity.Floor as real)) / rate
  }

  function Draining(capacity: real, rate: real): seq<real>
    requires capacity >= 1.0 && rate >= 0.0
  {
    Burst(0.0, capacity.Floor) + [Drained(capacity, rate)]
  }

  lemma DrainedLevel(capacity: real, rate: real)
    requires capacity >= 1.0 && rate >= 0.0
    ensures var b := LevelAfter(Level(capacity, 0.0), capacity, rate, Draining(capacity, rate));
      && 0.0 <= Drained(capacity, rate) && b.last == Drained(capacity, rate)
      && 0.0 <= b.tokens < 1.0 && (rate > 0.0 ==> b.tokens == 0.0)
  {
    var k, g := capacity.Floor, Drained(capacity, rate);
    BurstSpends(Level(capacity, 0.0), capacity, rate, k, [g]);
    var b := Level(capacity - k as real, 0.0);
    assert LevelAfter(b, capacity, rate, [g]) == Spent(b, capacity, rate, g, 1.0) by {
      assert [g][1..] == [];
    }
    if rate > 0.0 {
      assert Earned(g - 0.0, rate) == 1.0 - b.tokens;
      assert g > 0.0;
    }
  }

  // Ten minutes after `g` a drained bucket and a new one answer these calls differently: the
  // burst, or after it a wait until the new one has its next token.
  function Telling(capacity: real, rate: real, now: real, low: real): seq<real>
    requires capacity >= 1.0 && rate >= 0.0
  {
    Burst(now, capacity.Floor) +
    if low < capacity.Floor as real || rate == 0.0 then [now]
    else [now + (1.0 - (capacity - capacity.Floor as real)) / rate]
  }

  lemma TellingTells(capacity: real, rate: real, now: real, low: real)
    requires capacity >= 1.0 && rate >= 0.0 && 0.0 <= low < capacity && (rate == 0.0 ==> low < 1.0)
    ensures BucketAnswers(Level(low, now), capacity, rate, Telling(capacity, rate, now, low)) !=
      BucketAnswers(Level(capacity, now), capacity, rate, Telling(capacity, rate, now, low))
  {
    var k := capacity.Floor;
    var gap := 1.0 - (capacity - k as real);
    if low < k as real || rate == 0.0 {
      BurstTells(capacity, rate, now, low, k, [now]);
    } else {
      assert Earned(gap / rate, rate) == gap;
      OneOfTwo(low - k as real, capacity - k as real, capacity, rate, now, gap / rate);
      hide BucketAnswers, Earned;
      BurstTells(capacity, rate, now, low, k, [now + gap / rate]);
    }
  }

  lemma BurstTells(capacity: real, rate: real, now: real, low: real, k: nat, more: seq<real>)
    requires 0.0 <= low && k as real <= capacity
    requires low < k as real || BucketAnswers(Level(low - k as real, now), capacity, rate, more) !=
      BucketAnswers(Level(capacity - k as real, now), capacity, rate, more)
    ensures BucketAnswers(Level(low, now), capacity, rate, Burst(now, k) + more) !=
      BucketAnswers(Level(capacity, now), capacity, rate, Burst(now, k) + more)
  {
    hide BucketAnswers;
    BurstIff(Level(low, now), capacity, rate, k, more);
    BurstIff(Level(capacity, now), capacity, rate, k, more);
  }

  // With what is left after the burst, a wait that brings one of them to one token leaves
  // the other short of it.
  lemma OneOfTwo(low: real, high: real, capacity: real, rate: real, now: real, wait: real)
    requires 0.0 <= low < high && high + Earned(wait, rate) == 1.0 && capacity >= 1.0 && wait >= 0.0 && rate >= 0.0
    ensures BucketAnswers(Level(low, now), capacity, rate, [now + wait]) == [false]
    ensures BucketAnswers(Level(high, now), capacity, rate, [now + wait]) == [true]
  {
  }

  // The run: address 0 is drained, 4096 others call, and ten minutes later address 0 comes
  // back.
  function ShowingRun(capacity: real, rate: real): seq<Call>
    requires capacity >= 1.0 && rate >= 0.0
  {
    var g := Drained(capacity, rate);
    var b := LevelAfter(Level(capacity, 0.0), capacity, rate, Draining(capacity, rate));
    var low := Refilled(b, capacity, rate, g + IDLE).tokens;
    CallsOf(0, Draining(capacity, rate)) + NewAddresses(1, 4096, g) + CallsOf(0, Telling(capacity, rate, g + IDLE, low))
  }

  // Before the return, the limiter holds the drained bucket and 4096 others.
  lemma BeforeReturn(capacity: real, rate: real, evict: bool)
    requires capacity >= 1.0 && rate >= 0.0
    ensures var g := Drained(capacity, rate);
      var m := State(map[], capacity, rate, CallsOf(0, Draining(capacity, rate)) + NewAddresses(1, 4096, g), evict);
      && 0 in m && m[0] == LevelAfter(Level(capacity, 0.0), capacity, rate, Draining(capacity, rate))
      && |m| == 4097 && forall a :: a in m ==> m[a].last <= g
  {
    var g, times := Drained(capacity, rate), Draining(capacity, rate);
    DrainedLevel(capacity, rate);
    assert times[0] == 0.0;
    FreshAddress(map[], 0, capacity, rate, times, evict);
    hide Drained, Draining, LevelAfter, State;
    var m := map[0 := LevelAfter(Level(capacity, 0.0), capacity, rate, times)];
    AnswersSplit(map[], capacity, rate, CallsOf(0, times), NewAddresses(1, 4096, g), evict);
    AddressesArrive(m, 1, 4096, g, capacity, rate, evict);
  }

  // Main result: after a wait a bucket grants exactly the whole tokens that it held or that
  // the wait has earned, up to its capacity.
  lemma WaitEarns(b: Level, capacity: real, rate: real, wait: real, k: nat)
    requires WithinCapacity(b, capacity) && rate >= 0.0 && wait >= 0.0
    ensures AllTrue(BucketAnswers(b, capacity, rate, Burst(b.last + wait, k))) <==>
        k as real <= capacity && k as real <= b.tokens + rate * wait
  {
    var now := b.last + wait;
    var b' := Refilled(b, capacity, rate, now);
    EarnedGrows(0.0, wait, rate);
    assert b'.tokens == Min(b.tokens + rate * wait, capacity) && b'.last == now;
    if k > 0 {
      RefillOnce(b, capacity, rate, Burst(now, k));
    }
    hide Refilled, Earned, Burst;
    BurstIff(b', capacity, rate, k, []);
    assert Burst(now, k) + [] == Burst(now, k);
    var answers := BucketAnswers(b', capacity, rate, Burst(now, k));
    assert answers[..k] == answers;
    if k == 0 {
      AnswersLength(b, capacity, rate, Burst(now, k));
    }
  }

  // A bucket that has been idle answers as if it had been refilled at once.
  lemma RefillOnce(b: Level, capacity: real, rate: real, times: seq<real>)
    requires times != [] && b.last <= times[0]
    ensures BucketAnswers(b, capacity, rate, times) ==
      BucketAnswers(Level(Refilled(b, capacity, rate, times[0]).tokens, times[0]), capacity, rate, times)
  {
  }

  lemma LowLevel(capacity: real, rate: real)
    requires capacity >= 1.0 && rate >= 0.0 && Earned(IDLE, rate) < capacity
    ensures var g := Drained(capacity, rate);
      var b := LevelAfter(Level(capacity, 0.0), capacity, rate, Draining(capacity, rate));
      var low := Refilled(b, capacity, rate, g + IDLE).tokens;
      b.last == g && 0.0 <= g && 0.0 <= low < capacity && (rate == 0.0 ==> low < 1.0)
  {
    DrainedLevel(capacity, rate);
    EarnedGrows(0.0, IDLE, rate);
    hide Drained, Draining, LevelAfter;
    assert Drained(capacity, rate) + IDLE - Drained(capacity, rate) == IDLE;
  }

  lemma RunShows(capacity: real, rate: real)
    requires capacity >= 1.0 && rate >= 0.0 && Earned(IDLE, rate) < capacity
    ensures var run := ShowingRun(capacity, rate);
      Answers(map[], capacity, rate, run, true) != Answers(map[], capacity, rate, run, false)
  {
    var g := Drained(capacity, rate);
    var b := LevelAfter(Level(capacity, 0.0), capacity, rate, Draining(capacity, rate));
    var low := Refilled(b, capacity, rate, g + IDLE).tokens;
    var before := CallsOf(0, Draining(capacity, rate)) + NewAddresses(1, 4096, g);
    var times := Telling(capacity, rate, g + IDLE, low);
    LowLevel(capacity, rate);
    TellingTells(capacity, rate, g + IDLE, low);
    assert times[0] == g + IDLE;
    BeforeReturn(capacity, rate, true);
    BeforeReturn(capacity, rate, false);
    var m, full := State(map[], capacity, rate, before, true), State(map[], capacity, rate, before, false);
    hide Drained, Draining, LevelAfter, State, Answers, BucketAnswers, Telling, Earned;
    assert Swept(m, g + IDLE) == map[];
    FreshAddress(m, 0, capacity, rate, times, true);
    OneAddress(full, 0, capacity, rate, times, false);
    RefillOnce(b, capacity, rate, times);
    AnswersSplit(map[], capacity, rate, before, CallsOf(0, times), true);
    AnswersSplit(map[], capacity, rate, before, CallsOf(0, times), false);
    SuffixDiffers(Answers(map[], capacity, rate, before, true), Answers(m, capacity, rate, CallsOf(0, times), true),
                  Answers(map[], capacity, rate, before, false),
                  Answers(full, capacity, rate, CallsOf(0, times), false));
  }

  lemma SuffixDiffers(a: seq<bool>, b: seq<bool>, c: seq<bool>, d: seq<bool>)
    requires |a| == |c| && b != d
    ensures a + b != c + d
  {
    assert (a + b)[|a|..] == b && (c + d)[|c|..] == d;
  }

  lemma RunInOrder(capacity: real, rate: real)
    requires capacity >= 1.0 && rate >= 0.0 && Earned(IDLE, rate) < capacity
    ensures InOrder(ShowingRun(capacity, rate), 0.0)
  {
    LowLevel(capacity, rate);
    hide LevelAfter;
  }

  // A bucket that never holds a token grants nothing.
  lemma {:induction false} NothingGranted(m: map<Address, Level>, capacity: real, rate: real, calls: seq<Call>,
                                          evict: bool, now: real)
    requires 0.0 <= capacity < 1.0 && rate >= 0.0 && Levels(m, capacity, now) && InOrder(calls, now)
    ensures forall i :: 0 <= i < |calls| ==> !Answers(m, capacity, rate, calls, evict)[i]
    decreases |calls|
  {
    if calls != [] {
      var c := calls[0];
      var kept := if evict then Swept(m, c.now) else m;
      AfterRefill(LevelOf(kept, c.a, capacity, c.now), capacity, rate, c.now);
      NothingGranted(Step(m, capacity, rate, c, evict), capacity, rate, calls[1..], evict, c.now);
    }
  }

  ghost predicate Shows(capacity: real, rate: real, calls: seq<Call>) {
    Answers(map[], capacity, rate, calls, true) != Answers(map[], capacity, rate, calls, false)
  }

  ghost predicate ClockGoesOn(calls: seq<Call>) {
    forall i, j :: 0 <= i < j < |calls| ==> calls[i].now <= calls[j].now
  }

  // Main result: no run of the limiter is answered differently for the eviction if and only
  // if ten minutes earn the capacity, or the capacity is below one token and nothing is
  // ever granted.
  lemma EvictionNeverShowsIff(capacity: real, rate: real)
    requires capacity >= 0.0 && rate >= 0.0
    ensures (forall calls: seq<Call> | ClockGoesOn(calls) :: !Shows(capacity, rate, calls)) <==>
        Earned(IDLE, rate) >= capacity || capacity < 1.0
  {
    hide Answers, Earned;
    if Earned(IDLE, rate) >= capacity || capacity < 1.0 {
      forall calls: seq<Call> | ClockGoesOn(calls)
        ensures !Shows(capacity, rate, calls)
      {
        var now := if calls == [] then 0.0 else calls[0].now;
        if Earned(IDLE, rate) >= capacity {
          EvictionIsInvisible(map[], map[], capacity, rate, calls, now);
        } else {
          NothingGranted(map[], capacity, rate, calls, true, now);
          NothingGranted(map[], capacity, rate, calls, false, now);
        }
      }
    } else {
      RunShows(capacity, rate);
      RunInOrder(capacity, rate);
      assert ClockGoesOn(ShowingRun(capacity, rate)) && Shows(capacity, rate, ShowingRun(capacity, rate));
    }
  }
}
