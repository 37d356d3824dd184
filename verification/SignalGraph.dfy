// The reactive graph as a value: what a node stores, what a computed means, and
// the facts every reachable graph keeps. SignalRuntime.dfy runs the real algorithm.
module SignalGraph {
  import opened Options

  // The body of a computed, or an expression inside an effect. `If` makes the set
  // of sources a body reads depend on the values it reads.
  datatype Expr =
    | Lit(v: int)
    | Get(src: nat)
    | Op(f: (int, int) -> int, a: Expr, b: Expr)
    | If(cond: Expr, thn: Expr, els: Expr)
    | Untrack(body: Expr)

  // The body of an effect: reads, writes, branches and nested batches.
  datatype Stmt =
    | Skip
    | Do(e: Expr)
    | Put(dst: nat, e: Expr)
    | Then(first: Stmt, second: Stmt)
    | Branch(cond: Expr, thn: Stmt, els: Stmt)
    | Batch(body: Stmt)

  datatype Kind = Signal | Computed(body: Expr) | Effect(action: Stmt)

  // The bookkeeping fields of one node. `seen` records, for a consumer, the value
  // it got at its latest tracked read of each source.
  datatype NodeState = NodeState(
    value: int,
    subscribers: seq<nat>,
    dirty: bool,
    hasValue: bool,
    deps: seq<nat>,
    running: bool,
    disposed: bool,
    seen: map<nat, int>)

  type Graph = seq<NodeState>

  // What plain re-evaluation depends on: the bodies and the signals' values.
  datatype Env = Env(kinds: seq<Kind>, sig: seq<int>)

  // ---------------------------------------------------------------------------
  // Ordered sets, as the source's `Set` iterates them
  // ---------------------------------------------------------------------------

  function Add<T(==)>(s: seq<T>, x: T): seq<T> {
    if x in s then s else s + [x]
  }

  function Remove<T(==)>(s: seq<T>, x: T): seq<T> {
    if s == [] then [] else if s[0] == x then Remove(s[1..], x) else [s[0]] + Remove(s[1..], x)
  }

  lemma {:induction false} RemoveOk<T(!new)>(s: seq<T>, x: T)
    ensures forall y :: y in Remove(s, x) <==> y in s && y != x
    ensures Distinct(s) ==> Distinct(Remove(s, x))
    ensures |Remove(s, x)| <= |s| && (x in s ==> |Remove(s, x)| < |s|)
  {
    if s != [] {
      RemoveOk(s[1..], x);
      if s[0] != x {
        assert Distinct(s) ==> Distinct(s[1..]) && s[0] !in s[1..];
      }
    }
  }

  lemma {:induction false} RemoveTwice<T>(s: seq<T>, x: T)
    ensures Remove(Remove(s, x), x) == Remove(s, x)
  {
    if s != [] {
      RemoveTwice(s[1..], x);
      if s[0] != x {
        assert ([s[0]] + Remove(s[1..], x))[1..] == Remove(s[1..], x);
      }
    }
  }

  lemma NonEmptyHas<T>(s: seq<T>)
    requires s != []
    ensures exists x :: x in s
  {
    assert s[0] in s;
  }

  ghost predicate Distinct<T>(s: seq<T>) {
    forall i, j :: 0 <= i < j < |s| ==> s[i] != s[j]
  }

  // ---------------------------------------------------------------------------
  // Evaluation from scratch
  // ---------------------------------------------------------------------------

  predicate IsSource(kinds: seq<Kind>, s: nat) {
    s < |kinds| && !kinds[s].Effect?
  }

  // Every read names a source below `n`.
  predicate ExprOk(kinds: seq<Kind>, e: Expr, n: nat) {
    match e
    case Lit(_) => true
    case Get(s) => s < n && IsSource(kinds, s)
    case Op(_, a, b) => ExprOk(kinds, a, n) && ExprOk(kinds, b, n)
    case If(c, t, f) => ExprOk(kinds, c, n) && ExprOk(kinds, t, n) && ExprOk(kinds, f, n)
    case Untrack(b) => ExprOk(kinds, b, n)
  }

  // No read escapes tracking: what a computed body must satisfy to be a function
  // of its dependencies.
  predicate Tracked(e: Expr) {
    match e
    case Lit(_) => true
    case Get(_) => true
    case Op(_, a, b) => Tracked(a) && Tracked(b)
    case If(c, t, f) => Tracked(c) && Tracked(t) && Tracked(f)
    case Untrack(_) => false
  }

  predicate StmtOk(kinds: seq<Kind>, st: Stmt) {
    match st
    case Skip => true
    case Do(e) => ExprOk(kinds, e, |kinds|)
    case Put(d, e) => d < |kinds| && kinds[d].Signal? && ExprOk(kinds, e, |kinds|)
    case Then(a, b) => StmtOk(kinds, a) && StmtOk(kinds, b)
    case Branch(c, a, b) => ExprOk(kinds, c, |kinds|) && StmtOk(kinds, a) && StmtOk(kinds, b)
    case Batch(a) => StmtOk(kinds, a)
  }

  predicate KindOk(kinds: seq<Kind>, i: nat)
    requires i < |kinds|
  {
    match kinds[i]
    case Signal => true
    case Computed(b) => ExprOk(kinds, b, i) && Tracked(b)
    case Effect(a) => StmtOk(kinds, a)
  }

  ghost predicate EnvOk(env: Env) {
    && |env.sig| == |env.kinds|
    && forall i: nat :: i < |env.kinds| ==> KindOk(env.kinds, i)
  }

  // The value a source has when nothing is cached.
  function Val(env: Env, i: nat): int
    requires |env.sig| == |env.kinds|
    decreases i, 1
  {
    if i >= |env.kinds| then 0
    else match env.kinds[i]
      case Signal => env.sig[i]
      case Computed(b) => Eval(env, b, i)
      case Effect(_) => 0
  }

  function Eval(env: Env, e: Expr, n: nat): int
    requires |env.sig| == |env.kinds|
    decreases n, 0, e
  {
    match e
    case Lit(v) => v
    case Get(s) => if s < n then Val(env, s) else 0
    case Op(f, a, b) => f(Eval(env, a, n), Eval(env, b, n))
    case If(c, t, f) => if Eval(env, c, n) != 0 then Eval(env, t, n) else Eval(env, f, n)
    case Untrack(b) => Eval(env, b, n)
  }

  // The sources such an evaluation reads.
  function Trace(env: Env, e: Expr, n: nat): set<nat>
    requires |env.sig| == |env.kinds|
  {
    match e
    case Lit(_) => {}
    case Get(s) => {s}
    case Op(_, a, b) => Trace(env, a, n) + Trace(env, b, n)
    case If(c, t, f) =>
      Trace(env, c, n) + (if Eval(env, c, n) != 0 then Trace(env, t, n) else Trace(env, f, n))
    case Untrack(_) => {}
  }

  // A tracked body is a function of the sources in its trace.
  lemma {:induction false} EvalDependsOnTrace(env: Env, env': Env, e: Expr, n: nat)
    requires |env.sig| == |env.kinds| == |env'.sig| && env'.kinds == env.kinds
    requires Tracked(e)
    requires forall s :: s in Trace(env, e, n) ==> Val(env, s) == Val(env', s)
    ensures Eval(env', e, n) == Eval(env, e, n) && Trace(env', e, n) == Trace(env, e, n)
  {
    match e
    case Lit(_) =>
    case Get(s) =>
    case Op(_, a, b) =>
      EvalDependsOnTrace(env, env', a, n);
      EvalDependsOnTrace(env, env', b, n);
    case If(c, t, f) =>
      EvalDependsOnTrace(env, env', c, n);
      if Eval(env, c, n) != 0 {
        EvalDependsOnTrace(env, env', t, n);
      } else {
        EvalDependsOnTrace(env, env', f, n);
      }
  }

  // ---------------------------------------------------------------------------
  // Invariants
  // ---------------------------------------------------------------------------

  // A source whose stored value may be handed out without recomputing.
  predicate Fresh(kinds: seq<Kind>, g: Graph, i: nat) {
    i < |g| && i < |kinds| && (kinds[i].Computed? ==> !g[i].dirty && g[i].hasValue)
  }

  // Consumer `i` depends on source `d`.
  predicate Dep(g: Graph, i: nat, d: nat) {
    i < |g| && d in g[i].deps
  }

  // Source `d` notifies consumer `j`.
  predicate Sub(g: Graph, d: nat, j: nat) {
    d < |g| && j in g[d].subscribers
  }

  ghost predicate Shape(env: Env, g: Graph) {
    && EnvOk(env) && |g| == |env.kinds|
    && (forall i: nat :: i < |g| && env.kinds[i].Signal? ==> g[i].value == env.sig[i] && g[i].deps == [])
    && (forall i: nat, d: nat :: Dep(g, i, d) ==>
          IsSource(env.kinds, d) && Sub(g, d, i) && (env.kinds[i].Computed? ==> d < i))
    && (forall d: nat, j: nat :: Sub(g, d, j) ==> j < |g| && !env.kinds[j].Signal?)
  }

  // A clean computed caches its from-scratch value, is subscribed to all that the
  // value depends on, and has only clean dependencies.
  ghost predicate CleanOk(env: Env, g: Graph, n: nat)
    requires |env.sig| == |env.kinds| == |g| && n < |g| && env.kinds[n].Computed?
  {
    && g[n].value == Val(env, n)
    && (forall d: nat :: d in Trace(env, env.kinds[n].body, n) ==> Dep(g, n, d))
    && (forall d: nat :: Dep(g, n, d) ==> Fresh(env.kinds, g, d))
  }

  ghost predicate Core(env: Env, g: Graph) {
    && Shape(env, g)
    && forall n: nat :: n < |g| && env.kinds[n].Computed? && Fresh(env.kinds, g, n) ==> CleanOk(env, g, n)
  }

  // Outside running nodes, being subscribed means depending.
  ghost predicate Symmetric(g: Graph) {
    forall d: nat, j: nat :: Sub(g, d, j) && j < |g| && !g[j].running ==> Dep(g, j, d)
  }

  // What an effect saw is what its sources hold now.
  ghost predicate InSync(env: Env, g: Graph, e: nat)
    requires |env.sig| == |env.kinds|
  {
    forall d: nat :: Dep(g, e, d) ==> Fresh(env.kinds, g, d) && d in g[e].seen && g[e].seen[d] == Val(env, d)
  }

  ghost predicate EffectsInSync(env: Env, g: Graph, pending: seq<nat>)
    requires |env.sig| == |env.kinds|
  {
    forall e: nat :: e < |g| && e < |env.kinds| && env.kinds[e].Effect? && e !in pending ==> InSync(env, g, e)
  }

  // ---------------------------------------------------------------------------
  // Frames
  // ---------------------------------------------------------------------------

  // Node `i` keeps its dependency list and stays in exactly the same subscriber sets.
  ghost predicate SameLinks(g: Graph, h: Graph, i: nat)
    requires |h| == |g| && i < |g|
  {
    && h[i].deps == g[i].deps && h[i].seen == g[i].seen
    && forall d: nat :: Sub(h, d, i) <==> Sub(g, d, i)
  }

  // Node `i` may have gained links, each one matched by a dependency.
  ghost predicate MoreLinks(g: Graph, h: Graph, i: nat)
    requires |h| == |g| && i < |g|
  {
    && (forall d: nat :: Dep(g, i, d) ==> Dep(h, i, d))
    && forall d: nat :: Sub(h, d, i) ==> Sub(g, d, i) || Dep(h, i, d)
  }

  // What running code leaves alone: who is running, who is disposed, and the links
  // of every running node except the current consumer's, which may grow.
  ghost predicate RunFrame(g: Graph, h: Graph, c: Option<nat>) {
    && |h| == |g|
    && (forall i: nat :: i < |g| ==> h[i].running == g[i].running && h[i].disposed == g[i].disposed)
    && (forall i: nat :: i < |g| && g[i].running && c != Some(i) ==> SameLinks(g, h, i))
    && (c.Some? && c.value < |g| ==> MoreLinks(g, h, c.value))
  }

  // Reading additionally never makes a clean node stale nor touches any effect.
  ghost predicate ReadFrame(kinds: seq<Kind>, g: Graph, h: Graph, c: Option<nat>) {
    && RunFrame(g, h, c)
    && (forall i: nat :: Fresh(kinds, g, i) ==> Fresh(kinds, h, i))
    && (forall i: nat :: i < |g| && g[i].running && Fresh(kinds, h, i) ==> Fresh(kinds, g, i))
    && (forall i: nat :: i < |g| && i < |kinds| && kinds[i].Effect? && c != Some(i) ==> SameLinks(g, h, i))
  }

  // Who may be reading sources below `lim`: a running consumer, or nobody. Running
  // computeds are not fresh and lie at or above `lim`.
  ghost predicate ConsumerOk(kinds: seq<Kind>, g: Graph, c: Option<nat>, lim: nat) {
    && |kinds| == |g|
    && (forall i: nat :: i < |g| && g[i].running && kinds[i].Computed? ==> i >= lim && !Fresh(kinds, g, i))
    && (c.Some? ==> c.value < |g| && g[c.value].running && !kinds[c.value].Signal?)
  }

  lemma ConsumerKept(kinds: seq<Kind>, g: Graph, h: Graph, c: Option<nat>, c': Option<nat>, lim: nat)
    requires ConsumerOk(kinds, g, c, lim) && ReadFrame(kinds, g, h, c')
    ensures ConsumerOk(kinds, h, c, lim)
  {
  }

  lemma RunFrameTrans(g: Graph, h: Graph, k: Graph, c: Option<nat>)
    requires RunFrame(g, h, c) && RunFrame(h, k, c)
    ensures RunFrame(g, k, c)
  {
  }

  // What runs without a consumer leaves the present one alone.
  lemma FrameForAny(g: Graph, h: Graph, c: Option<nat>)
    requires RunFrame(g, h, None) && (c.Some? ==> c.value < |g| && g[c.value].running)
    ensures RunFrame(g, h, c)
  {
  }

  lemma ReadFrameTrans(kinds: seq<Kind>, g: Graph, h: Graph, k: Graph, c: Option<nat>)
    requires ReadFrame(kinds, g, h, c) && ReadFrame(kinds, h, k, c)
    ensures ReadFrame(kinds, g, k, c)
  {
  }

  // What a run of expressions did for its consumer: it now depends on `t` as well,
  // all of it fresh, and it is still in sync if it was.
  ghost predicate Gathers(env: Env, g: Graph, h: Graph, c: Option<nat>, t: set<nat>)
    requires |env.sig| == |env.kinds|
  {
    c.Some? ==>
      && (forall d: nat :: d in t ==> Fresh(env.kinds, h, d) && Dep(h, c.value, d))
      && (forall d: nat :: Dep(h, c.value, d) ==> Dep(g, c.value, d) || d in t)
      && (InSync(env, g, c.value) ==> InSync(env, h, c.value))
  }

  lemma GathersTrans(env: Env, g: Graph, h: Graph, k: Graph, c: Option<nat>, t: set<nat>, u: set<nat>)
    requires |env.sig| == |env.kinds| && (c.Some? ==> c.value < |h|)
    requires Gathers(env, g, h, c, t) && Gathers(env, h, k, c, u) && ReadFrame(env.kinds, h, k, c)
    ensures Gathers(env, g, k, c, t + u)
  {
  }

  // ---------------------------------------------------------------------------
  // One tracked read, and one tracked run, as state changes
  // ---------------------------------------------------------------------------

  // `h` is `g` after consumer `i` has read `n` and got `v`.
  ghost predicate AfterRead(g: Graph, h: Graph, i: nat, n: nat, v: int)
    requires i < |g| && n < |g|
  {
    && |h| == |g|
    && (forall k: nat :: k < |g| ==>
          h[k] == g[k].(deps := h[k].deps, seen := h[k].seen, subscribers := h[k].subscribers))
    && (forall k: nat :: k < |g| && k != i ==> h[k].deps == g[k].deps && h[k].seen == g[k].seen)
    && (forall k: nat :: k < |g| && k != n ==> h[k].subscribers == g[k].subscribers)
    && h[i].deps == Add(g[i].deps, n)
    && h[i].seen == g[i].seen[n := v]
    && h[n].subscribers == if n in g[i].deps then g[n].subscribers else Add(g[n].subscribers, i)
  }

  lemma AfterReadLinks(g: Graph, h: Graph, i: nat, n: nat, v: int)
    requires i < |g| && n < |g| && AfterRead(g, h, i, n, v) && (n in g[i].deps ==> Sub(g, n, i))
    ensures forall k: nat, d: nat :: Dep(h, k, d) <==> Dep(g, k, d) || (k == i && d == n)
    ensures forall d: nat, j: nat :: Sub(h, d, j) <==> Sub(g, d, j) || (j == i && d == n)
  {
  }

  // Caches carry over when no clean node lost or changed anything.
  lemma CachesCarry(env: Env, g: Graph, h: Graph)
    requires Core(env, g) && Shape(env, h)
    requires forall k: nat :: Fresh(env.kinds, g, k) ==> Fresh(env.kinds, h, k)
    requires forall k: nat :: k < |g| && env.kinds[k].Computed? && Fresh(env.kinds, h, k) ==>
      Fresh(env.kinds, g, k) && h[k].value == g[k].value && h[k].deps == g[k].deps
    ensures Core(env, h)
  {
  }

  lemma AfterReadOk(env: Env, g: Graph, h: Graph, i: nat, n: nat)
    requires Core(env, g) && IsSource(env.kinds, n) && Fresh(env.kinds, g, n)
    requires i < |g| && g[i].running && !env.kinds[i].Signal? && AfterRead(g, h, i, n, Val(env, n))
    requires env.kinds[i].Computed? ==> n < i && !Fresh(env.kinds, g, i)
    ensures Core(env, h) && ReadFrame(env.kinds, g, h, Some(i)) && Gathers(env, g, h, Some(i), {n})
    ensures Symmetric(g) ==> Symmetric(h)
  {
    assert n in g[i].deps ==> Dep(g, i, n);
    AfterReadLinks(g, h, i, n, Val(env, n));
    assert Shape(env, h);
    assert forall k: nat :: Fresh(env.kinds, g, k) <==> Fresh(env.kinds, h, k);
    CachesCarry(env, g, h);
  }

  // `h` is `g` with a run of `n` begun.
  ghost predicate Begun(g: Graph, h: Graph, n: nat) {
    && n < |g| == |h|
    && (forall k: nat :: k < |g| && k != n ==> h[k] == g[k])
    && h[n] == g[n].(deps := [], seen := map[], running := true)
  }

  // `k` is `h` with the run of `n` ended: `n` leaves the subscriber sets of the
  // dependencies in `prev` it no longer has.
  ghost predicate Ended(h: Graph, k: Graph, n: nat, prev: seq<nat>) {
    && n < |h| == |k|
    && (forall i: nat :: i < |h| ==>
          k[i] == h[i].(subscribers := k[i].subscribers, running := h[i].running && i != n))
    && (forall i: nat :: i < |h| ==>
          k[i].subscribers == if i in prev && i !in h[n].deps then Remove(h[i].subscribers, n) else h[i].subscribers)
  }

  lemma BegunConsumer(kinds: seq<Kind>, g: Graph, h: Graph, n: nat, c: Option<nat>)
    requires ConsumerOk(kinds, g, c, n + 1) && Begun(g, h, n) && kinds[n].Computed? && !Fresh(kinds, g, n)
    ensures ConsumerOk(kinds, h, Some(n), n)
  {
  }

  lemma BegunOk(env: Env, g: Graph, h: Graph, n: nat)
    requires Core(env, g) && n < |g| && !g[n].running && !env.kinds[n].Signal? && Begun(g, h, n)
    requires env.kinds[n].Computed? ==> !Fresh(env.kinds, g, n)
    ensures Core(env, h) && InSync(env, h, n)
    ensures Symmetric(g) ==> Symmetric(h)
    ensures forall k: nat :: Fresh(env.kinds, g, k) <==> Fresh(env.kinds, h, k)
    ensures forall k: nat :: k < |g| && k != n ==> SameLinks(g, h, k)
    ensures forall d: nat, j: nat :: Sub(g, d, j) <==> Sub(h, d, j)
    ensures forall k: nat, d: nat :: Dep(h, k, d) <==> Dep(g, k, d) && k != n
  {
    forall d: nat, j: nat
      ensures Sub(g, d, j) <==> Sub(h, d, j)
    {
      if d < |g| {
        assert g[d].subscribers == h[d].subscribers;
      }
    }
    forall k: nat, d: nat
      ensures Dep(h, k, d) <==> Dep(g, k, d) && k != n
    {
    }
    assert Shape(env, h);
    CachesCarry(env, g, h);
  }

  // Ending a run takes `n` out of subscriber sets and does nothing else to links.
  // `n` has left the subscriber sets of those sources in `gone` it does not depend on.
  ghost predicate Dropped(h: Graph, k: Graph, n: nat, gone: set<nat>) {
    && n < |h| == |k|
    && (forall j: nat :: j < |h| ==> k[j] == h[j].(subscribers := k[j].subscribers))
    && (forall j: nat :: j < |h| ==>
          k[j].subscribers == if j in gone && j !in h[n].deps then Remove(h[j].subscribers, n) else h[j].subscribers)
  }

  lemma DroppedStep(h: Graph, k: Graph, m: Graph, n: nat, gone: set<nat>, d: nat)
    requires Dropped(h, k, n, gone) && d < |h|
    requires m == if d in h[n].deps then k else k[d := k[d].(subscribers := Remove(k[d].subscribers, n))]
    ensures Dropped(h, m, n, gone + {d})
  {
    RemoveTwice(h[d].subscribers, n);
  }

  lemma DroppedAll(g: Graph, h: Graph, k: Graph, n: nat, prev: seq<nat>, gone: set<nat>)
    requires n < |g| && h == g[n := g[n].(running := false)] && Dropped(h, k, n, gone)
    requires forall d: nat :: d in gone <==> d in prev
    ensures Ended(g, k, n, prev)
  {
  }

  lemma EndedLinks(env: Env, h: Graph, k: Graph, n: nat, prev: seq<nat>)
    requires Core(env, h) && Ended(h, k, n, prev)
    ensures Core(env, k)
    ensures forall i: nat :: i < |h| && i != n ==> SameLinks(h, k, i)
    ensures forall i: nat :: Fresh(env.kinds, h, i) <==> Fresh(env.kinds, k, i)
    ensures forall i: nat, d: nat :: Dep(h, i, d) <==> Dep(k, i, d)
    ensures forall d: nat :: Sub(k, d, n) <==> Sub(h, d, n) && (d in prev ==> Dep(h, n, d))
  {
    forall i: nat, d: nat
      ensures Dep(h, i, d) <==> Dep(k, i, d)
    {
    }
    forall d: nat, j: nat
      ensures Sub(k, d, j) <==> Sub(h, d, j) && (j == n && d in prev ==> Dep(h, n, d))
    {
      if d < |h| {
        RemoveOk(h[d].subscribers, n);
      }
    }
    assert Shape(env, k);
    CachesCarry(env, h, k);
  }

  // After a run that began at `g`, `n` is subscribed only to what it depends on.
  lemma EndedSymmetric(env: Env, g: Graph, b: Graph, h: Graph, k: Graph, n: nat)
    requires Core(env, h) && Symmetric(g) && Symmetric(h) && n < |g| && !g[n].running
    requires Begun(g, b, n) && (forall d: nat, j: nat :: Sub(g, d, j) <==> Sub(b, d, j))
    requires RunFrame(b, h, Some(n)) && Ended(h, k, n, g[n].deps)
    ensures Symmetric(k)
  {
    EndedLinks(env, h, k, n, g[n].deps);
    forall d: nat, j: nat | Sub(k, d, j) && j < |k| && !k[j].running
      ensures Dep(k, j, d)
    {
      if j == n {
        assert Sub(h, d, n) && (Sub(b, d, n) || Dep(h, n, d));
      } else {
        assert SameLinks(h, k, j);
        assert Sub(h, d, j);
      }
    }
  }

  // `k` is `h` with the recomputed value of `n` stored.
  ghost predicate Stored(h: Graph, k: Graph, n: nat, v: int) {
    && n < |h| == |k|
    && (forall i: nat :: i < |h| && i != n ==> k[i] == h[i])
    && k[n] == h[n].(value := v, hasValue := true, dirty := false)
  }

  lemma StoredOk(env: Env, h: Graph, k: Graph, n: nat)
    requires Core(env, h) && Stored(h, k, n, Val(env, n)) && env.kinds[n].Computed?
    requires forall d: nat :: d in Trace(env, env.kinds[n].body, n) ==> Dep(h, n, d)
    requires forall d: nat :: Dep(h, n, d) ==> Fresh(env.kinds, h, d)
    ensures Core(env, k) && Fresh(env.kinds, k, n)
    ensures Symmetric(h) ==> Symmetric(k)
    ensures forall i: nat :: Fresh(env.kinds, h, i) ==> Fresh(env.kinds, k, i)
    ensures forall i: nat :: i < |h| ==> SameLinks(h, k, i)
  {
    forall d: nat, j: nat
      ensures Sub(h, d, j) <==> Sub(k, d, j)
      ensures Dep(h, d, j) <==> Dep(k, d, j)
    {
      if d < |h| {
        assert h[d].subscribers == k[d].subscribers && h[d].deps == k[d].deps;
      }
    }
    assert Shape(env, k);
    forall i: nat | i < |k| && env.kinds[i].Computed? && Fresh(env.kinds, k, i)
      ensures CleanOk(env, k, i)
    {
      if i != n {
        assert CleanOk(env, h, i);
      }
    }
  }

  // One whole recomputation, seen from the reader `c`.
  lemma RecomputedFrame(kinds: seq<Kind>, g: Graph, b: Graph, h: Graph, k: Graph, m: Graph, n: nat, v: int,
                        c: Option<nat>)
    requires |g| == |kinds| && n < |g| && kinds[n].Computed? && !g[n].running && !Fresh(kinds, g, n)
    requires ConsumerOk(kinds, g, c, n + 1)
    requires Begun(g, b, n) && ReadFrame(kinds, b, h, Some(n)) && Ended(h, k, n, g[n].deps) && Stored(k, m, n, v)
    requires forall i: nat :: i < |g| && i != n ==> SameLinks(g, b, i) && SameLinks(h, k, i) && SameLinks(k, m, i)
    requires forall i: nat :: Fresh(kinds, g, i) ==> Fresh(kinds, b, i)
    requires forall i: nat :: Fresh(kinds, h, i) ==> Fresh(kinds, m, i)
    ensures ReadFrame(kinds, g, m, c) && ConsumerOk(kinds, m, c, n + 1)
    ensures c.Some? ==> SameLinks(g, m, c.value)
  {
    forall i: nat | i < |g| && i != n && Fresh(kinds, m, i) && g[i].running
      ensures Fresh(kinds, g, i)
    {
      assert k[i] == m[i] && b[i] == g[i];
      assert Fresh(kinds, h, i);
    }
    forall i: nat | i < |g| && i != n && (g[i].running || kinds[i].Effect?)
      ensures SameLinks(g, m, i)
    {
      assert SameLinks(g, b, i) && SameLinks(b, h, i) && SameLinks(h, k, i) && SameLinks(k, m, i);
    }
    forall i: nat | i < |g|
      ensures m[i].running == g[i].running && m[i].disposed == g[i].disposed
    {
      assert b[i].disposed == g[i].disposed && (i != n ==> b[i].running == g[i].running);
    }
  }

  // ---------------------------------------------------------------------------
  // Reachability along subscriber edges
  // ---------------------------------------------------------------------------

  // `n` is reached from `s` in `k + 1` steps. Effects are not walked through.
  ghost predicate ReachIn(kinds: seq<Kind>, g: Graph, s: nat, n: nat, k: nat)
    requires |g| == |kinds|
    decreases k
  {
    s < |g| && n < |g| &&
    if k == 0 then Sub(g, s, n)
    else exists m: nat :: m < |g| && !kinds[m].Effect? && ReachIn(kinds, g, s, m, k - 1) && Sub(g, m, n)
  }

  ghost predicate Reachable(kinds: seq<Kind>, g: Graph, s: nat, n: nat)
    requires |g| == |kinds|
  {
    exists k: nat :: ReachIn(kinds, g, s, n, k)
  }

  // A set holding the direct subscribers and closed under subscriber edges holds
  // everything reachable.
  lemma {:induction false} ClosedHoldsReachable(kinds: seq<Kind>, g: Graph, s: nat, n: nat, k: nat, r: set<nat>)
    requires |g| == |kinds| && ReachIn(kinds, g, s, n, k)
    requires forall x: nat :: Sub(g, s, x) ==> x in r
    requires forall m: nat, x: nat :: m in r && m < |g| && !kinds[m].Effect? && Sub(g, m, x) ==> x in r
    ensures n in r
    decreases k
  {
    if k > 0 {
      var m: nat :| m < |g| && !kinds[m].Effect? && ReachIn(kinds, g, s, m, k - 1) && Sub(g, m, n);
      ClosedHoldsReachable(kinds, g, s, m, k - 1, r);
    }
  }

  lemma ReachStep(kinds: seq<Kind>, g: Graph, s: nat, m: nat, n: nat)
    requires |g| == |kinds| && m < |g| && n < |g| && Sub(g, m, n) && s < |g|
    requires m == s || (!kinds[m].Effect? && Reachable(kinds, g, s, m))
    ensures Reachable(kinds, g, s, n)
  {
    if m == s {
      assert ReachIn(kinds, g, s, n, 0);
    } else {
      var k: nat :| ReachIn(kinds, g, s, m, k);
      assert ReachIn(kinds, g, s, n, k + 1);
    }
  }

  function UpTo(k: nat): (r: set<nat>)
    ensures forall n: nat :: n in r <==> n < k
  {
    if k == 0 then {} else UpTo(k - 1) + {k - 1}
  }

  // The state of a walk from `s`: what is marked is reachable, and what was expanded,
  // apart from `open`, has all its subscribers visited.
  ghost predicate Walk(kinds: seq<Kind>, g: Graph, h: Graph, s: nat, visited: set<nat>, stack: seq<nat>,
                       effects: seq<nat>, open: set<nat>)
  {
    && s < |g| == |h| == |kinds|
    && (forall i: nat :: i < |g| ==> h[i] == g[i].(dirty := g[i].dirty || (i in visited && !kinds[i].Effect?)))
    && (forall x: nat :: x in visited ==> x < |g| && Reachable(kinds, g, s, x))
    && (forall m: nat :: m in stack ==> m == s || (m in visited && !kinds[m].Effect?))
    && (forall m: nat, x: nat ::
          Sub(g, m, x) && (m == s || (m in visited && !kinds[m].Effect?)) && m !in stack && m !in open ==> x in visited)
    && Distinct(effects)
    && (forall e: nat :: e in effects <==> e in visited && kinds[e].Effect?)
  }

  lemma WalkVisit(kinds: seq<Kind>, g: Graph, h: Graph, h': Graph, s: nat, visited: set<nat>, stack: seq<nat>,
                  effects: seq<nat>, n: nat, x: nat)
    requires Walk(kinds, g, h, s, visited, stack, effects, {n})
    requires n == s || (n in visited && !kinds[n].Effect?)
    requires x < |g| && Sub(g, n, x) && x !in visited
    requires h' == if kinds[x].Effect? then h else h[x := h[x].(dirty := true)]
    ensures Walk(kinds, g, h', s, visited + {x},
              if kinds[x].Effect? then stack else stack + [x],
              if kinds[x].Effect? then effects + [x] else effects, {n})
    ensures |h'| == |g|
  {
    ReachStep(kinds, g, s, n, x);
  }

  lemma WalkPop(kinds: seq<Kind>, g: Graph, h: Graph, s: nat, visited: set<nat>, stack: seq<nat>, effects: seq<nat>)
    requires Walk(kinds, g, h, s, visited, stack, effects, {}) && |stack| > 0
    ensures var n := stack[|stack| - 1];
      n < |g| && (n == s || (n in visited && !kinds[n].Effect?)) && h[n].subscribers == g[n].subscribers
      && Walk(kinds, g, h, s, visited, stack[..|stack| - 1], effects, {n})
      && forall j: nat :: j in g[n].subscribers <==> Sub(g, n, j)
  {
    var n := stack[|stack| - 1];
    assert n in stack;
    assert stack == stack[..|stack| - 1] + [n];
  }

  lemma WalkClose(kinds: seq<Kind>, g: Graph, h: Graph, s: nat, visited: set<nat>, stack: seq<nat>,
                  effects: seq<nat>, n: nat)
    requires Walk(kinds, g, h, s, visited, stack, effects, {n}) && n < |g|
    requires forall x :: x in g[n].subscribers ==> x in visited
    ensures Walk(kinds, g, h, s, visited, stack, effects, {}) && visited <= UpTo(|g|)
  {
  }

  lemma WalkStart(kinds: seq<Kind>, g: Graph, s: nat)
    requires s < |g| == |kinds|
    ensures Walk(kinds, g, g, s, {}, [s], [], {})
  {
  }

  // A finished walk has marked exactly what is reachable.
  lemma WalkDone(kinds: seq<Kind>, g: Graph, h: Graph, s: nat, visited: set<nat>, effects: seq<nat>)
    requires Walk(kinds, g, h, s, visited, [], effects, {})
    ensures visited == set n: nat | n < |g| && Reachable(kinds, g, s, n)
    ensures |h| == |g| && forall i: nat :: i < |g| ==>
      h[i] == g[i].(dirty := g[i].dirty || (i in visited && !kinds[i].Effect?))
    ensures Distinct(effects) && forall e: nat :: e in effects <==> e in visited && kinds[e].Effect?
  {
    forall n: nat | n < |g| && Reachable(kinds, g, s, n)
      ensures n in visited
    {
      var k: nat :| ReachIn(kinds, g, s, n, k);
      ClosedHoldsReachable(kinds, g, s, n, k, visited);
    }
  }

  // Reachability only looks at subscriber sets.
  lemma {:induction false} ReachSame(kinds: seq<Kind>, g: Graph, h: Graph, s: nat, n: nat, k: nat)
    requires |g| == |h| == |kinds| && forall d: nat, j: nat :: Sub(g, d, j) <==> Sub(h, d, j)
    ensures ReachIn(kinds, g, s, n, k) <==> ReachIn(kinds, h, s, n, k)
    decreases k
  {
    if k > 0 {
      var j := k - 1;
      forall m: nat
        ensures ReachIn(kinds, g, s, m, j) <==> ReachIn(kinds, h, s, m, j)
      {
        ReachSame(kinds, g, h, s, m, j);
      }
    }
  }

  // `h` is `g` after a write of signal `s` has marked `r` dirty.
  ghost predicate Marked(kinds: seq<Kind>, g: Graph, h: Graph, s: nat, v: int, r: set<nat>)
    requires |g| == |kinds| && s < |g|
  {
    && |h| == |g|
    && forall i: nat :: i < |g| ==>
         h[i] == g[i].(value := if i == s then v else g[i].value,
                       dirty := g[i].dirty || (i in r && !kinds[i].Effect?))
  }

  // Whatever a write does not mark keeps its from-scratch value.
  lemma {:induction false} UnmarkedKeepsValue(env: Env, g: Graph, h: Graph, s: nat, v: int, r: set<nat>, n: nat)
    requires Core(env, g) && s < |g| && env.kinds[s].Signal? && n < |g|
    requires Marked(env.kinds, g, h, s, v, r) && r == set n: nat | n < |g| && Reachable(env.kinds, g, s, n)
    requires n != s && IsSource(env.kinds, n) && Fresh(env.kinds, h, n)
    ensures Val(env.(sig := env.sig[s := v]), n) == Val(env, n)
    ensures env.kinds[n].Computed? ==>
      Trace(env.(sig := env.sig[s := v]), env.kinds[n].body, n) == Trace(env, env.kinds[n].body, n)
      && forall d: nat :: Dep(g, n, d) ==> d != s && Fresh(env.kinds, h, d)
    decreases n
  {
    var env' := env.(sig := env.sig[s := v]);
    if env.kinds[n].Computed? {
      assert n !in r && Fresh(env.kinds, g, n) && CleanOk(env, g, n);
      forall d: nat | Dep(g, n, d)
        ensures d != s && Fresh(env.kinds, h, d) && Val(env', d) == Val(env, d)
      {
        if d == s || d in r {
          ReachStep(env.kinds, g, s, d, n);
        }
        assert Fresh(env.kinds, g, d);
        UnmarkedKeepsValue(env, g, h, s, v, r, d);
      }
      assert KindOk(env.kinds, n);
      EvalDependsOnTrace(env, env', env.kinds[n].body, n);
    }
  }

  // Writing a signal and marking exactly what is reachable keeps the core invariant.
  lemma WriteKeepsCore(env: Env, g: Graph, h: Graph, s: nat, v: int, r: set<nat>)
    requires Core(env, g) && s < |g| && env.kinds[s].Signal?
    requires Marked(env.kinds, g, h, s, v, r) && r == set n: nat | n < |g| && Reachable(env.kinds, g, s, n)
    ensures Core(env.(sig := env.sig[s := v]), h)
    ensures Symmetric(g) ==> Symmetric(h)
  {
    var env' := env.(sig := env.sig[s := v]);
    forall d: nat, j: nat
      ensures Sub(h, d, j) <==> Sub(g, d, j)
      ensures Dep(h, d, j) <==> Dep(g, d, j)
    {
    }
    assert Shape(env', h);
    forall n: nat | n < |h| && env'.kinds[n].Computed? && Fresh(env'.kinds, h, n)
      ensures CleanOk(env', h, n)
    {
      assert CleanOk(env, g, n);
      UnmarkedKeepsValue(env, g, h, s, v, r, n);
    }
  }

  // ... and every effect it does not queue is still in sync.
  lemma WriteKeepsEffects(env: Env, g: Graph, h: Graph, s: nat, v: int, r: set<nat>, pending: seq<nat>,
                          pending': seq<nat>)
    requires Core(env, g) && s < |g| && env.kinds[s].Signal?
    requires Marked(env.kinds, g, h, s, v, r) && r == set n: nat | n < |g| && Reachable(env.kinds, g, s, n)
    requires EffectsInSync(env, g, pending)
    requires forall e :: e in pending ==> e in pending'
    requires forall e :: e in r && env.kinds[e].Effect? ==> e in pending'
    requires Shape(env.(sig := env.sig[s := v]), h)
    ensures EffectsInSync(env.(sig := env.sig[s := v]), h, pending')
  {
    var env' := env.(sig := env.sig[s := v]);
    forall e: nat | e < |h| && env'.kinds[e].Effect? && e !in pending'
      ensures InSync(env', h, e)
    {
      assert InSync(env, g, e);
      forall d: nat | Dep(h, e, d)
        ensures Fresh(env.kinds, h, d) && Val(env', d) == Val(env, d)
      {
        assert Dep(g, e, d);
        if d == s || d in r {
          ReachStep(env.kinds, g, s, d, e);
        }
        UnmarkedKeepsValue(env, g, h, s, v, r, d);
      }
    }
  }

  // ---------------------------------------------------------------------------
  // The invariant between statements
  // ---------------------------------------------------------------------------

  ghost predicate InvOk(env: Env, g: Graph, c: Option<nat>, pending: seq<nat>, capped: bool) {
    && Core(env, g)
    && (forall i: nat :: i < |g| && env.kinds[i].Computed? ==> !g[i].running)
    && (forall i: nat :: i < |g| && g[i].disposed ==> !g[i].running && g[i].deps == [] && env.kinds[i].Effect?)
    && (c.Some? ==> c.value < |g| && g[c.value].running && env.kinds[c.value].Effect?)
    && (forall p: nat :: p in pending ==> p < |g| && env.kinds[p].Effect?) && Distinct(pending)
    && (capped || (Symmetric(g) && EffectsInSync(env, g, pending)))
  }

  lemma InvConsumer(env: Env, g: Graph, c: Option<nat>, pending: seq<nat>, capped: bool)
    requires InvOk(env, g, c, pending, capped)
    ensures Core(env, g) && ConsumerOk(env.kinds, g, c, |env.kinds|)
    ensures RunFrame(g, g, c)
  {
  }

  // Reading keeps the invariant.
  lemma ReadKeepsInv(env: Env, g: Graph, h: Graph, c: Option<nat>, pending: seq<nat>, capped: bool, t: set<nat>)
    requires InvOk(env, g, c, pending, capped) && Core(env, h)
    requires ReadFrame(env.kinds, g, h, c) && Gathers(env, g, h, c, t) && (Symmetric(g) ==> Symmetric(h))
    ensures InvOk(env, h, c, pending, capped) && RunFrame(g, h, c)
  {
    forall i: nat | i < |h| && h[i].disposed
      ensures h[i].deps == []
    {
      assert g[i].disposed && SameLinks(g, h, i);
    }
    if !capped {
      forall e: nat | e < |h| && env.kinds[e].Effect? && e !in pending
        ensures InSync(env, h, e)
      {
        assert InSync(env, g, e);
        if c != Some(e) {
          assert SameLinks(g, h, e);
          assert forall d: nat :: Dep(h, e, d) <==> Dep(g, e, d);
        }
      }
    }
  }

  // A write that queues every effect it reaches keeps the invariant.
  lemma WriteKeepsInv(env: Env, g: Graph, h: Graph, c: Option<nat>, s: nat, v: int, r: set<nat>,
                      pending: seq<nat>, pending': seq<nat>, capped: bool)
    requires InvOk(env, g, c, pending, capped) && s < |g| && env.kinds[s].Signal?
    requires Marked(env.kinds, g, h, s, v, r) && r == set n: nat | n < |g| && Reachable(env.kinds, g, s, n)
    requires forall e: nat :: e in pending' <==> e in pending || (e in r && env.kinds[e].Effect?)
    requires Distinct(pending')
    ensures InvOk(env.(sig := env.sig[s := v]), h, c, pending', capped) && RunFrame(g, h, None)
  {
    WriteKeepsCore(env, g, h, s, v, r);
    assert forall d: nat, j: nat :: Sub(h, d, j) <==> Sub(g, d, j);
    assert forall d: nat, j: nat :: Dep(h, d, j) <==> Dep(g, d, j);
    if !capped {
      WriteKeepsEffects(env, g, h, s, v, r, pending, pending');
    }
  }

  lemma BeginEffect(env: Env, g: Graph, h: Graph, c: Option<nat>, e: nat, pending: seq<nat>,
                    pending': seq<nat>, capped: bool)
    requires InvOk(env, g, c, pending, capped) && Begun(g, h, e)
    requires env.kinds[e].Effect? && !g[e].running && !g[e].disposed
    requires Distinct(pending') && forall x: nat :: x in pending' <==> x in pending && x != e
    ensures InvOk(env, h, Some(e), pending', capped)
    ensures forall k: nat :: k < |g| && k != e ==> SameLinks(g, h, k)
  {
    BegunOk(env, g, h, e);
    if !capped {
      forall x: nat | x < |h| && env.kinds[x].Effect? && x !in pending'
        ensures InSync(env, h, x)
      {
        if x != e {
          assert InSync(env, g, x);
        }
      }
    }
  }

  lemma EndEffect(env: Env, g: Graph, b: Graph, h: Graph, k: Graph, c: Option<nat>, e: nat,
                  pending: seq<nat>, capped: bool)
    requires e < |g| && e < |env.kinds| && env.kinds[e].Effect? && !g[e].running && !g[e].disposed
    requires c.Some? ==> c.value < |g| == |env.kinds| && g[c.value].running && env.kinds[c.value].Effect?
    requires !capped ==> Symmetric(g)
    requires Begun(g, b, e) && (forall i: nat :: i < |g| && i != e ==> SameLinks(g, b, i))
    requires InvOk(env, h, Some(e), pending, capped) && RunFrame(b, h, Some(e))
    requires Ended(h, k, e, g[e].deps)
    ensures InvOk(env, k, c, pending, capped) && RunFrame(g, k, None) && |k| == |h| == |g|
  {
    EndedLinks(env, h, k, e, g[e].deps);
    EndedFrame(g, b, h, k, e);
    hide Core, SameLinks, EffectsInSync, RunFrame, Begun, Symmetric;
    if !capped {
      EndedEffects(env, g, b, h, k, e, pending);
    }
  }

  lemma EndedEffects(env: Env, g: Graph, b: Graph, h: Graph, k: Graph, e: nat, pending: seq<nat>)
    requires e < |g| && !g[e].running && Symmetric(g) && Begun(g, b, e) && RunFrame(b, h, Some(e))
    requires Core(env, h) && Symmetric(h) && EffectsInSync(env, h, pending) && Ended(h, k, e, g[e].deps)
    ensures Symmetric(k) && EffectsInSync(env, k, pending)
  {
    EndedLinks(env, h, k, e, g[e].deps);
    assert forall d: nat, j: nat :: Sub(g, d, j) <==> Sub(b, d, j);
    EndedSymmetric(env, g, b, h, k, e);
    hide Core, SameLinks, RunFrame, Begun, Symmetric;
    forall x: nat | x < |k| && env.kinds[x].Effect? && x !in pending
      ensures InSync(env, k, x)
    {
      assert InSync(env, h, x);
    }
  }

  // From before an effect's run to after it, nobody else's running state and links change.
  lemma EndedFrame(g: Graph, b: Graph, h: Graph, k: Graph, e: nat)
    requires e < |g| == |h| == |k| && !g[e].running && Begun(g, b, e)
    requires (forall i: nat :: i < |g| && i != e ==> SameLinks(g, b, i)) && RunFrame(b, h, Some(e))
    requires forall i: nat :: i < |h| && i != e ==> SameLinks(h, k, i)
    requires forall i: nat :: i < |h| ==> k[i].running == (h[i].running && i != e) && k[i].disposed == h[i].disposed
    ensures RunFrame(g, k, None)
  {
    forall i: nat | i < |g|
      ensures k[i].running == g[i].running && k[i].disposed == g[i].disposed
    {
      assert b[i].disposed == g[i].disposed && (i != e ==> b[i].running == g[i].running);
    }
    hide Begun;
    forall i: nat | i < |g| && g[i].running
      ensures SameLinks(g, k, i)
    {
      assert SameLinks(g, b, i) && SameLinks(b, h, i) && SameLinks(h, k, i);
    }
  }

  // A run cut short by a throw skips the stale dependencies; the flush it was in has
  // already given up on effects, and computeds are unharmed.
  lemma AbortEffect(env: Env, g: Graph, b: Graph, h: Graph, k: Graph, c: Option<nat>, e: nat, pending: seq<nat>)
    requires e < |g| && e < |env.kinds| && env.kinds[e].Effect? && !g[e].running && !g[e].disposed
    requires c.Some? ==> c.value < |g| == |env.kinds| && g[c.value].running && env.kinds[c.value].Effect?
    requires Begun(g, b, e) && (forall i: nat :: i < |g| && i != e ==> SameLinks(g, b, i))
    requires InvOk(env, h, Some(e), pending, true) && RunFrame(b, h, Some(e))
    requires k == h[e := h[e].(running := false)]
    ensures InvOk(env, k, c, pending, true) && RunFrame(g, k, None) && |k| == |h| == |g|
  {
    assert forall i: nat :: i < |h| ==> k[i] == h[i].(running := k[i].running);
    forall d: nat, j: nat
      ensures Sub(h, d, j) <==> Sub(k, d, j)
      ensures Dep(h, d, j) <==> Dep(k, d, j)
    {
    }
    assert Shape(env, k);
    CachesCarry(env, h, k);
    forall i: nat | i < |g|
      ensures k[i].running == g[i].running && k[i].disposed == g[i].disposed
    {
      assert b[i].disposed == g[i].disposed && (i != e ==> b[i].running == g[i].running);
    }
    forall i: nat | i < |g| && g[i].running
      ensures SameLinks(g, k, i)
    {
      assert SameLinks(g, b, i) && SameLinks(b, h, i);
    }
  }

  // ---------------------------------------------------------------------------
  // Creating and disposing nodes
  // ---------------------------------------------------------------------------

  function Grown(env: Env, k: Kind, v: int): Env {
    Env(env.kinds + [k], env.sig + [v])
  }

  lemma {:induction false} ExprOkGrows(kinds: seq<Kind>, k: Kind, e: Expr, n: nat, n': nat)
    requires ExprOk(kinds, e, n) && n <= n'
    ensures ExprOk(kinds + [k], e, n')
  {
    match e
    case Lit(_) =>
    case Get(_) =>
    case Op(_, a, b) => ExprOkGrows(kinds, k, a, n, n'); ExprOkGrows(kinds, k, b, n, n');
    case If(c, t, f) =>
      ExprOkGrows(kinds, k, c, n, n');
      ExprOkGrows(kinds, k, t, n, n');
      ExprOkGrows(kinds, k, f, n, n');
    case Untrack(b) => ExprOkGrows(kinds, k, b, n, n');
  }

  lemma {:induction false} StmtOkGrows(kinds: seq<Kind>, k: Kind, st: Stmt)
    requires StmtOk(kinds, st)
    ensures StmtOk(kinds + [k], st)
  {
    match st
    case Skip =>
    case Do(e) => ExprOkGrows(kinds, k, e, |kinds|, |kinds| + 1);
    case Put(_, e) => ExprOkGrows(kinds, k, e, |kinds|, |kinds| + 1);
    case Then(a, b) => StmtOkGrows(kinds, k, a); StmtOkGrows(kinds, k, b);
    case Branch(c, a, b) =>
      ExprOkGrows(kinds, k, c, |kinds|, |kinds| + 1);
      StmtOkGrows(kinds, k, a);
      StmtOkGrows(kinds, k, b);
    case Batch(a) => StmtOkGrows(kinds, k, a);
  }

  lemma {:induction false} ValGrows(env: Env, k: Kind, v: int, i: nat)
    requires |env.sig| == |env.kinds| && i < |env.kinds|
    ensures Val(Grown(env, k, v), i) == Val(env, i)
    decreases i, 1
  {
    if env.kinds[i].Computed? {
      EvalGrows(env, k, v, env.kinds[i].body, i);
    }
  }

  lemma {:induction false} EvalGrows(env: Env, k: Kind, v: int, e: Expr, n: nat)
    requires |env.sig| == |env.kinds| && n <= |env.kinds|
    ensures Eval(Grown(env, k, v), e, n) == Eval(env, e, n) && Trace(Grown(env, k, v), e, n) == Trace(env, e, n)
    decreases n, 0, e
  {
    match e
    case Lit(_) =>
    case Get(s) =>
      if s < n {
        ValGrows(env, k, v, s);
      }
    case Op(_, a, b) => EvalGrows(env, k, v, a, n); EvalGrows(env, k, v, b, n);
    case If(c, t, f) => EvalGrows(env, k, v, c, n); EvalGrows(env, k, v, t, n); EvalGrows(env, k, v, f, n);
    case Untrack(b) => EvalGrows(env, k, v, b, n);
  }

  lemma EnvGrows(env: Env, k: Kind, v: int)
    requires EnvOk(env) && KindOk(env.kinds + [k], |env.kinds|)
    ensures EnvOk(Grown(env, k, v))
  {
    var env' := Grown(env, k, v);
    forall i: nat | i < |env'.kinds|
      ensures KindOk(env'.kinds, i)
    {
      if i < |env.kinds| {
        assert KindOk(env.kinds, i);
        match env.kinds[i]
        case Signal =>
        case Computed(b) => ExprOkGrows(env.kinds, k, b, i, i);
        case Effect(a) => StmtOkGrows(env.kinds, k, a);
      }
    }
  }

  predicate FreshNode(k: Kind, st: NodeState) {
    && st.subscribers == [] && st.deps == [] && !st.running && !st.disposed
    && (k.Computed? ==> st.dirty)
  }

  // Adding a node, read by nobody yet, keeps the invariant, whoever is running.
  lemma NewNodeKeepsInv(env: Env, g: Graph, k: Kind, st: NodeState, c: Option<nat>, pending: seq<nat>, capped: bool)
    requires InvOk(env, g, c, pending, capped) && FreshNode(k, st)
    requires KindOk(env.kinds + [k], |env.kinds|)
    ensures InvOk(Grown(env, k, st.value), g + [st], c, pending, capped)
  {
    var env', h := Grown(env, k, st.value), g + [st];
    EnvGrows(env, k, st.value);
    forall d: nat, j: nat
      ensures Sub(h, d, j) <==> Sub(g, d, j)
      ensures Dep(h, d, j) <==> Dep(g, d, j)
    {
    }
    assert Shape(env', h);
    forall n: nat | n < |h| && env'.kinds[n].Computed? && Fresh(env'.kinds, h, n)
      ensures CleanOk(env', h, n)
    {
      assert CleanOk(env, g, n);
      ValGrows(env, k, st.value, n);
      EvalGrows(env, k, st.value, env.kinds[n].body, n);
    }
    if !capped {
      forall e: nat | e < |h| && env'.kinds[e].Effect? && e !in pending
        ensures InSync(env', h, e)
      {
        if e < |g| {
          assert InSync(env, g, e);
          forall d: nat | Dep(h, e, d)
            ensures Fresh(env'.kinds, h, d) && d in h[e].seen && h[e].seen[d] == Val(env', d)
          {
            assert Dep(g, e, d);
            ValGrows(env, k, st.value, d);
          }
        }
      }
    }
  }

  lemma DisposedLinks(g: Graph, h: Graph, k: Graph, e: nat, gone: set<nat>)
    requires e < |g| && h == g[e := g[e].(disposed := true, deps := [])]
    requires Dropped(h, k, e, gone) && forall d: nat :: d in gone <==> d in g[e].deps
    ensures |k| == |g| && k[e].deps == [] && k[e].disposed
    ensures forall i: nat :: i < |g| ==>
      k[i] == g[i].(subscribers := k[i].subscribers, deps := k[i].deps, disposed := k[i].disposed)
    ensures forall i: nat :: i < |g| && i != e ==> k[i].deps == g[i].deps && k[i].disposed == g[i].disposed
    ensures forall d: nat, j: nat :: Sub(k, d, j) <==> Sub(g, d, j) && (j == e ==> !Dep(g, e, d))
  {
    assert forall i: nat :: i < |g| ==> k[i] == h[i].(subscribers := k[i].subscribers);
    forall d: nat, j: nat
      ensures Sub(k, d, j) <==> Sub(g, d, j) && (j == e ==> !Dep(g, e, d))
    {
      if d < |g| {
        RemoveOk(h[d].subscribers, e);
        assert h[d].subscribers == g[d].subscribers;
      }
    }
  }

  // A disposed effect is unsubscribed from everything.
  lemma DisposeKeepsInv(env: Env, g: Graph, h: Graph, k: Graph, c: Option<nat>, e: nat, pending: seq<nat>,
                        capped: bool, gone: set<nat>)
    requires InvOk(env, g, c, pending, capped) && e < |g| && env.kinds[e].Effect? && !g[e].running
    requires h == g[e := g[e].(disposed := true, deps := [])]
    requires Dropped(h, k, e, gone) && forall d: nat :: d in gone <==> d in g[e].deps
    ensures InvOk(env, k, c, pending, capped)
    ensures !capped ==> forall d: nat :: !Sub(k, d, e)
  {
    hide Dropped;
    DisposedLinks(g, h, k, e, gone);
    assert forall i: nat, d: nat :: Dep(k, i, d) <==> Dep(g, i, d) && i != e;
    assert Shape(env, k);
    CachesCarry(env, g, k);
    if !capped {
      forall x: nat | x < |k| && env.kinds[x].Effect? && x !in pending
        ensures InSync(env, k, x)
      {
        if x != e {
          assert InSync(env, g, x);
        }
      }
    }
  }

  // At rest nothing is queued and every live effect is in sync.
  lemma AtRest(env: Env, g: Graph, c: Option<nat>, pending: seq<nat>)
    requires InvOk(env, g, c, pending, false)
    requires forall i: nat :: i < |g| ==> !g[i].running
    requires forall p: nat :: p in pending && p < |g| ==> g[p].running
    ensures pending == [] && |env.sig| == |env.kinds| == |g|
    ensures forall e: nat :: e < |g| && env.kinds[e].Effect? ==> InSync(env, g, e)
  {
    if pending != [] {
      NonEmptyHas(pending);
    }
  }
}
