// The reactive core as it runs: mutable nodes, one active consumer, a batch depth and
// a queue of effects. Every method is proved against the graph predicates.
module SignalRuntime {
  import opened Options
  import opened SignalEffects
  import opened SignalGraph
  import opened SignalQueue

  // One signal, computed or effect.
  class Node {
    ghost const id: nat
    const kind: Kind
    var value: int
    var subscribers: seq<nat>
    var dirty: bool
    var hasValue: bool
    var deps: seq<nat>
    var running: bool
    var disposed: bool
    ghost var seen: map<nat, int>

    constructor (ghost id: nat, kind: Kind, value: int, dirty: bool, hasValue: bool)
      ensures this.id == id && this.kind == kind
      ensures State() == NodeState(value, [], dirty, hasValue, [], false, false, map[])
    {
      this.id := id;
      this.kind, this.value, this.dirty, this.hasValue := kind, value, dirty, hasValue;
      subscribers, deps, running, disposed, seen := [], [], false, false, map[];
    }

    ghost function State(): NodeState
      reads this
    {
      NodeState(value, subscribers, dirty, hasValue, deps, running, disposed, seen)
    }
  }

  // The module's globals. A node is named by its index, which is its creation order.
  class Runtime {
    var nodes: seq<Node>
    var current: Option<nat>
    var batchDepth: nat
    var draining: bool
    var pending: seq<nat>
    // The nodes' states, the bodies and the signal values, as values.
    ghost var g: Graph
    ghost var env: Env
    // Whether some flush has hit the cap and thrown.
    ghost var capped: bool
    // How many effect runs have started.
    ghost var runs: nat

    constructor ()
      ensures Inv() && Idle() && Drained() && !capped
      ensures nodes == [] && batchDepth == 0 && !draining
    {
      nodes, current, batchDepth, draining, pending := [], None, 0, false, [];
      g, env, capped, runs := [], Env([], []), false, 0;
    }

    ghost predicate Coupled()
      reads this`g, this`nodes, this`env, nodes
    {
      && |g| == |nodes| == |env.kinds| == |env.sig|
      && forall i: nat :: i < |nodes| ==>
           nodes[i].id == i && nodes[i].kind == env.kinds[i] && nodes[i].State() == g[i]
    }

    // No node at or above `lim` is being read, and every running computed is there.
    ghost predicate Reading(lim: nat)
      reads this, nodes
    {
      && Coupled() && Core(env, g) && ConsumerOk(env.kinds, g, current, lim)
    }

    ghost predicate Inv()
      reads this, nodes
    {
      InvBut(None)
    }

    // The same, with one effect that has not had a run yet.
    ghost predicate InvBut(but: Option<nat>)
      reads this, nodes
    {
      Coupled() && InvOk(env, g, current, pending, capped) && Through(env, g, pending, capped, but)
    }

    // Nothing is executing.
    ghost predicate Idle()
      reads this, nodes
    {
      current.None? && !draining && forall i: nat :: i < |g| ==> !g[i].running
    }

    // Unless a batch or a flush is open, only running effects are still queued.
    ghost predicate Drained()
      reads this
    {
      batchDepth == 0 && !draining ==> forall p: nat :: p in pending && p < |g| ==> g[p].running
    }

    // Every effect that was not disposed saw, in its last run, the present values of the
    // sources it depends on; and if its body is plain, those are exactly the sources that
    // the body reads now.
    ghost predicate Settled()
      reads this
    {
      && pending == []
      && |env.sig| == |env.kinds| == |g|
      && (forall e: nat :: e < |g| && env.kinds[e].Effect? && !g[e].disposed ==> InSync(env, g, e))
      && forall e: nat :: e < |g| && env.kinds[e].Effect? && !g[e].disposed && Plain(env.kinds[e].action) ==>
           DependsExactly(g, e, Reads(env, env.kinds[e].action))
    }

    // -------------------------------------------------------------------------
    // Reading
    // -------------------------------------------------------------------------

    method TrackRead(n: nat)
      requires Reading(n + 1) && IsSource(env.kinds, n) && Fresh(env.kinds, g, n)
      modifies this`g, nodes
      ensures Reading(n + 1)
      ensures ReadFrame(env.kinds, old(g), g, current) && Gathers(env, old(g), g, current, {n})
      ensures Symmetric(old(g)) ==> Symmetric(g)
      ensures Fresh(env.kinds, g, n)
    {
      hide Core, ReadFrame, Gathers, Symmetric, AfterRead;
      if current.None? {
        NothingRead(env, g, g, current);
        NoConsumer(env, g, g, {n});
        return;
      }
      Link(current.value, n, Val(env, n));
      AfterReadOk(env, old(g), g, current.value, n);
      ConsumerKept(env.kinds, old(g), g, current, current, n + 1);
    }

    method Link(c: nat, n: nat, ghost v: int)
      requires Coupled() && c < |g| && n < |g| && c != n
      modifies this`g, nodes[c], nodes[n]
      ensures Coupled() && AfterRead(old(g), g, c, n, v)
    {
      hide AfterRead;
      ghost var g0 := g;
      if n !in nodes[c].deps {
        Depend(c, nodes[c].deps + [n], g[c].seen);
        Subscribe(n, c);
      }
      Depend(c, nodes[c].deps, g[c].seen[n := v]);
      Linked(g0, g, c, n, v);
    }

    method Depend(c: nat, deps: seq<nat>, ghost seen: map<nat, int>)
      requires Coupled() && c < |g|
      modifies this`g, nodes[c]
      ensures Coupled() && g == old(g)[c := old(g)[c].(deps := deps, seen := seen)]
    {
      nodes[c].deps := deps;
      nodes[c].seen := seen;
      g := g[c := nodes[c].State()];
    }

    method Subscribe(d: nat, n: nat)
      requires Coupled() && d < |g|
      modifies this`g, nodes[d]
      ensures Coupled() && g == old(g)[d := old(g)[d].(subscribers := Add(old(g)[d].subscribers, n))]
    {
      nodes[d].subscribers := Add(nodes[d].subscribers, n);
      g := g[d := nodes[d].State()];
    }

    // The start and the end of `trackedRun`, around the node's body.
    method BeginRun(n: nat) returns (prev: seq<nat>, saved: Option<nat>)
      requires Coupled() && n < |g| && !g[n].running
      modifies this`g, this`current, nodes
      ensures Coupled() && Begun(old(g), g, n)
      ensures prev == old(g)[n].deps && saved == old(current) && current == Some(n)
    {
      var node := nodes[n];
      prev := node.deps;
      node.deps := [];
      node.seen := map[];
      saved := current;
      current := Some(n);
      node.running := true;
      g := g[n := node.State()];
    }

    method EndRun(n: nat, prev: seq<nat>, saved: Option<nat>)
      requires Coupled() && n < |g| && forall i: nat :: i < |prev| ==> prev[i] < |g|
      modifies this`g, this`current, nodes
      ensures Coupled() && Ended(old(g), g, n, prev) && current == saved
    {
      hide Ended, Dropped;
      ghost var g0 := g;
      current := saved;
      Stop(n);
      ghost var h := g;
      ghost var gone := DropStale(n, prev);
      DroppedAll(g0, h, g, n, prev, gone);
    }

    // Leave the subscriber sets of the sources in `prev` that are not dependencies.
    method DropStale(n: nat, prev: seq<nat>) returns (ghost gone: set<nat>)
      requires Coupled() && n < |g| && forall i: nat :: i < |prev| ==> prev[i] < |g|
      modifies this`g, nodes
      ensures Coupled() && |g| == |old(g)| && Dropped(old(g), g, n, gone)
      ensures forall d: nat :: d in gone <==> d in prev
    {
      hide Dropped, Coupled;
      ghost var h := g;
      DroppedNone(h, n);
      gone := {};
      for i := 0 to |prev|
        invariant Coupled()
        invariant Dropped(h, g, n, gone) && |g| == |h| && g[n].deps == h[n].deps
        invariant forall d: nat :: d in gone <==> d in prev[..i]
      {
        ghost var k := g;
        var deps := DepsOf(n);
        Sized();
        if prev[i] !in deps {
          Unsubscribe(prev[i], n);
        }
        DroppedStep(h, k, g, n, gone, prev[i]);
        gone := gone + {prev[i]};
        assert prev[..i + 1] == prev[..i] + [prev[i]];
      }
      assert prev[..|prev|] == prev;
    }

    method DepsOf(n: nat) returns (deps: seq<nat>)
      requires Coupled() && n < |g|
      ensures deps == g[n].deps
    {
      deps := nodes[n].deps;
    }

    method Stop(n: nat)
      requires Coupled() && n < |g|
      modifies this`g, nodes[n]
      ensures Coupled() && g == old(g)[n := old(g)[n].(running := false)]
    {
      nodes[n].running := false;
      g := g[n := nodes[n].State()];
    }

    method Unsubscribe(d: nat, n: nat)
      requires Coupled() && d < |g|
      modifies this`g, nodes[d]
      ensures Coupled() && g == old(g)[d := old(g)[d].(subscribers := Remove(old(g)[d].subscribers, n))]
    {
      nodes[d].subscribers := Remove(nodes[d].subscribers, n);
      g := g[d := nodes[d].State()];
    }

    method Recompute(n: nat)
      requires Reading(n + 1) && n < |nodes| && env.kinds[n].Computed? && !Fresh(env.kinds, g, n)
      modifies this`g, this`current, nodes
      decreases n, 1
      ensures current == old(current) && Reading(n + 1)
      ensures ReadFrame(env.kinds, old(g), g, current) && Fresh(env.kinds, g, n)
      ensures current.Some? ==> SameLinks(old(g), g, current.value)
      ensures Symmetric(old(g)) ==> Symmetric(g)
    {
      hide Core, ReadFrame, Gathers, Symmetric, CleanOk, Begun, Ended, Stored;
      hide SameLinks, Shape, Trace, Eval, ExprOk, ConsumerOk;
      ghost var g0 := g;
      KindOfComputed(env, g0, n, current);
      var prev, saved := BeginRun(n);
      ghost var g1 := g;
      BegunOk(env, g0, g1, n);
      BegunConsumer(env.kinds, g0, g1, n, saved);
      var next := RunExpr(nodes[n].kind.body, n);
      ghost var g2 := g;
      GatheredAll(env, g0, g1, g2, n, prev);
      EndRun(n, prev, saved);
      ghost var g3 := g;
      EndedLinks(env, g2, g3, n, prev);
      if Symmetric(g0) {
        FrameOfRead(env.kinds, g1, g2, Some(n));
        EndedSymmetric(env, g0, g1, g2, g3, n);
      }
      Store(n, next);
      StoredOk(env, g3, g, n);
      RecomputedFrame(env.kinds, g0, g1, g2, g3, g, n, next, current);
    }

    method Store(n: nat, next: int)
      requires Coupled() && n < |g|
      modifies this`g, nodes[n]
      ensures Coupled() && Stored(old(g), g, n, next)
    {
      var node := nodes[n];
      if !node.hasValue || node.value != next {
        node.value := next;
      }
      node.hasValue := true;
      node.dirty := false;
      g := g[n := node.State()];
    }

    // Read a signal or a computed: the value is always the from-scratch one.
    method ReadAt(n: nat) returns (v: int)
      requires Reading(n + 1) && IsSource(env.kinds, n)
      modifies this`g, this`current, nodes
      decreases n, 2
      ensures v == Val(env, n)
      ensures current == old(current) && Reading(n + 1)
      ensures ReadFrame(env.kinds, old(g), g, current) && Gathers(env, old(g), g, current, {n})
      ensures Symmetric(old(g)) ==> Symmetric(g)
    {
      hide Core, ReadFrame, Gathers, Symmetric, SameLinks;
      ghost var g0 := g;
      NothingRead(env, g0, g0, current);
      var node := nodes[n];
      if node.kind.Computed? && (node.dirty || !node.hasValue) {
        Recompute(n);
        NothingGathered(env, g0, g, current);
      }
      ghost var g1 := g;
      TrackRead(n);
      ReadFrameTrans(env.kinds, g0, g1, g, current);
      GathersTrans(env, g0, g1, g, current, {}, {n});
      assert {} + {n} == {n};
      FreshValue(env, g, n);
      v := node.value;
    }

    method RunExpr(e: Expr, lim: nat) returns (v: int)
      requires Reading(lim) && ExprOk(env.kinds, e, lim) && lim <= |env.kinds|
      modifies this`g, this`current, nodes
      decreases lim, 0, e
      ensures v == Eval(env, e, lim)
      ensures current == old(current) && Reading(lim)
      ensures ReadFrame(env.kinds, old(g), g, current) && Gathers(env, old(g), g, current, Trace(env, e, lim))
      ensures Symmetric(old(g)) ==> Symmetric(g)
    {
      hide Core, ReadFrame, Gathers, Symmetric;
      ghost var g0 := g;
      match e
      case Lit(x) =>
        NothingRead(env, g, g, current);
        v := x;
      case Get(s) =>
        v := ReadAt(s);
        ConsumerKept(env.kinds, g0, g, current, current, lim);
      case Op(f, a, b) =>
        var x := RunExpr(a, lim);
        ghost var g1 := g;
        var y := RunExpr(b, lim);
        ReadFrameTrans(env.kinds, g0, g1, g, current);
        GathersTrans(env, g0, g1, g, current, Trace(env, a, lim), Trace(env, b, lim));
        v := f(x, y);
      case If(c, t, f) =>
        var x := RunExpr(c, lim);
        ghost var g1 := g;
        if x != 0 {
          v := RunExpr(t, lim);
          GathersTrans(env, g0, g1, g, current, Trace(env, c, lim), Trace(env, t, lim));
        } else {
          v := RunExpr(f, lim);
          GathersTrans(env, g0, g1, g, current, Trace(env, c, lim), Trace(env, f, lim));
        }
        ReadFrameTrans(env.kinds, g0, g1, g, current);
      case Untrack(b) =>
        var saved := current;
        current := None;
        v := RunExpr(b, lim);
        current := saved;
        NothingRead(env, g0, g, current);
        ConsumerKept(env.kinds, g0, g, current, None, lim);
    }

    // -------------------------------------------------------------------------
    // Writing
    // -------------------------------------------------------------------------

    // Marks exactly the reachable computeds dirty, on any graph, and returns each
    // reachable effect once.
    method PropagateChange(s: nat) returns (effects: seq<nat>, ghost reached: set<nat>)
      requires Coupled() && s < |g|
      requires forall d: nat, j: nat :: Sub(g, d, j) ==> j < |g|
      modifies this`g, nodes
      ensures Coupled() && |g| == |old(g)|
      ensures reached == set n: nat | n < |g| && Reachable(env.kinds, old(g), s, n)
      ensures forall i: nat :: i < |g| ==>
        g[i] == old(g)[i].(dirty := old(g)[i].dirty || (i in reached && !env.kinds[i].Effect?))
      ensures Distinct(effects) && forall e: nat :: e in effects <==> e in reached && env.kinds[e].Effect?
    {
      hide Walk, Reachable, Coupled;
      ghost var g0 := g;
      Sized();
      effects := [];
      var visited: set<nat> := {};
      var stack := [s];
      WalkStart(env.kinds, g0, s);
      while |stack| > 0
        invariant Coupled() && |g| == |g0| && Walk(env.kinds, g0, g, s, visited, stack, effects, {})
        decreases UpTo(|g0|) - visited, |stack|
      {
        var n := stack[|stack| - 1];
        WalkPop(env.kinds, g0, g, s, visited, stack, effects);
        stack := stack[..|stack| - 1];
        var subs := SubscribersOf(n);
        ghost var visited0, stack0 := visited, stack;
        for i := 0 to |subs|
          invariant Coupled() && |g| == |g0| && Walk(env.kinds, g0, g, s, visited, stack, effects, {n})
          invariant visited0 <= visited && (visited == visited0 ==> stack == stack0)
          invariant forall k :: 0 <= k < i ==> subs[k] in visited
        {
          var sub := subs[i];
          if sub !in visited {
            assert Sub(g0, n, sub);
            ghost var h := g;
            var isEffect := IsEffect(sub);
            if isEffect {
              WalkVisit(env.kinds, g0, h, g, s, visited, stack, effects, n, sub);
              effects := effects + [sub];
            } else {
              MarkDirty(sub);
              WalkVisit(env.kinds, g0, h, g, s, visited, stack, effects, n, sub);
              stack := stack + [sub];
            }
            visited := visited + {sub};
          }
        }
        WalkClose(env.kinds, g0, g, s, visited, stack, effects, n);
      }
      WalkDone(env.kinds, g0, g, s, visited, effects);
      reached := visited;
    }

    lemma Sized()
      requires Coupled()
      ensures |g| == |nodes| == |env.kinds| == |env.sig|
    {
    }

    method SubscribersOf(n: nat) returns (subs: seq<nat>)
      requires Coupled() && n < |g|
      ensures subs == g[n].subscribers
    {
      subs := nodes[n].subscribers;
    }

    method IsEffect(n: nat) returns (b: bool)
      requires Coupled() && n < |g| == |env.kinds|
      ensures b == env.kinds[n].Effect?
    {
      b := nodes[n].kind.Effect?;
    }

    method MarkDirty(n: nat)
      requires Coupled() && n < |g|
      modifies this`g, nodes[n]
      ensures Coupled() && g == old(g)[n := old(g)[n].(dirty := true)]
    {
      nodes[n].dirty := true;
      g := g[n := nodes[n].State()];
    }

    // What every statement leaves as it found it.
    twostate predicate Kept()
      reads this
    {
      && nodes == old(nodes) && env.kinds == old(env.kinds) && current == old(current)
      && batchDepth == old(batchDepth) && draining == old(draining) && (old(capped) ==> capped)
    }

    method SetSignal(s: nat, v: int)
      requires Coupled() && s < |g|
      modifies this`g, this`env, nodes
      ensures Coupled() && g == old(g)[s := old(g)[s].(value := v)]
      ensures env == old(env).(sig := old(env).sig[s := v])
    {
      nodes[s].value := v;
      g := g[s := nodes[s].State()];
      env := env.(sig := env.sig[s := v]);
    }

    method ValueOf(s: nat) returns (v: int)
      requires Coupled() && s < |g|
      ensures v == g[s].value
    {
      v := nodes[s].value;
    }

    method Enqueue(effects: seq<nat>)
      requires Distinct(pending)
      modifies this`pending
      ensures Distinct(pending) && old(pending) <= pending
      ensures forall e: nat :: e in pending <==> e in old(pending) || e in effects
    {
      for i := 0 to |effects|
        invariant Distinct(pending) && old(pending) <= pending
        invariant forall e: nat :: e in pending <==> e in old(pending) || e in effects[..i]
      {
        pending := Add(pending, effects[i]);
        assert effects[..i + 1] == effects[..i] + [effects[i]];
      }
      assert effects[..|effects|] == effects;
    }

    // Stores an unequal value and marks what depends on it.
    method Change(s: nat, v: int) returns (effects: seq<nat>, ghost reached: set<nat>)
      requires Inv() && s < |g| == |env.kinds| == |env.sig| && env.kinds[s].Signal?
      modifies this`g, this`env, nodes
      ensures Coupled() && env == old(env).(sig := old(env).sig[s := v])
      ensures Marked(env.kinds, old(g), g, s, v, reached)
      ensures reached == set n: nat | n < |old(g)| && Reachable(env.kinds, old(g), s, n)
      ensures Distinct(effects) && forall e: nat :: e in effects <==>
          e in reached && e < |env.kinds| && env.kinds[e].Effect?
    {
      hide InvOk, Reachable, Marked, Coupled, Through;
      ghost var g0, env0 := g, env;
      SignalHere(env, g, current, pending, capped, s);
      SetSignal(s, v);
      ghost var g1 := g;
      ValueSet(env0, g0, g1, s, v);
      effects, reached := PropagateChange(s);
      MarkedAfterWrite(env0.kinds, g0, g1, g, s, v, reached);
    }

    lemma Changed(env0: Env, g0: Graph, s: nat, v: int, reached: set<nat>, pending0: seq<nat>)
      requires Coupled() && InvOk(env0, g0, current, pending0, capped) && Through(env0, g0, pending0, capped, None)
      requires s < |g0| && s < |env0.sig| && s < |env0.kinds| && env0.kinds[s].Signal?
      requires env == env0.(sig := env0.sig[s := v])
      requires Marked(env0.kinds, g0, g, s, v, reached)
      requires reached == set n: nat | n < |g0| && Reachable(env0.kinds, g0, s, n)
      requires Distinct(pending) && forall e: nat :: e in pending <==>
          e in pending0 || (e in reached && e < |env0.kinds| && env0.kinds[e].Effect?)
      ensures Inv() && RunFrame(g0, g, None)
    {
      hide InvOk, Reachable, RunFrame, Marked, Coupled, Through;
      assert forall e :: e in reached ==> e < |env0.kinds| by {
        SignalHere(env0, g0, current, pending0, capped, s);
      }
      WriteKeepsInv(env0, g0, g, current, s, v, reached, pending0, pending, capped);
      ThroughWrite(env0, g0, g, current, s, v, reached, pending0, pending, capped);
    }

    // `write`: a no-op on an equal value; otherwise store, propagate and flush.
    method Write(s: nat, v: int) returns (ok: bool, ghost order: seq<nat>)
      requires Inv() && Drained() && s < |g| == |env.kinds| == |env.sig| && env.kinds[s].Signal?
      modifies this, nodes
      decreases if draining then 0 else 1, 0, 2
      ensures Kept() && Inv() && Drained() && RunFrame(old(g), g, None)
      ensures ok || (capped && pending == [])
      ensures env == ExecAll(old(env).(sig := old(env).sig[s := v]), order) && runs == old(runs) + |order|
      ensures old(batchDepth) > 0 || old(draining) ==> ok && order == [] && old(pending) <= pending
      ensures old(env).sig[s] == v ==>
        ok && order == [] && g == old(g) && pending == old(pending) && capped == old(capped)
      ensures old(env).sig[s] != v && (batchDepth > 0 || draining) ==>
        Queued(old(env).kinds, old(g), s, old(pending), pending)
      ensures old(env).sig[s] != v && batchDepth == 0 && !draining ==>
        RunsReached(old(env).kinds, old(g), s, old(pending), order, ok)
    {
      hide InvOk, Reachable, RunFrame, Marked, Coupled, Through, Exec, Runnable, InTurn;
      ghost var g0, env0 := g, env;
      order := [];
      SignalHere(env, g, current, pending, capped, s);
      var before := ValueOf(s);
      if before == v {
        assert env.sig[s := v] == env.sig;
        return true, [];
      }
      var effects, reached := Change(s, v);
      ghost var pending0 := pending;
      if |effects| > 0 {
        Enqueue(effects);
        Changed(env0, g0, s, v, reached, pending0);
        ghost var g2, queue := g, pending;
        assert Queued(env0.kinds, g0, s, pending0, queue);
        ok, order := MaybeDrain();
        RunFrameTrans(g0, g2, g, None);
        if batchDepth == 0 && !draining {
          InTurnSame(env0.kinds, g0, g2, queue, order, ok);
        }
      } else {
        Changed(env0, g0, s, v, reached, pending0);
        StillDrained(g0, g, None, pending);
        assert Queued(env0.kinds, g0, s, pending0, pending);
        ok := true;
        if batchDepth == 0 && !draining {
          NothingInTurn(env0.kinds, g0, pending);
        }
      }
    }

    // The first queued effect that is not mid-run, if any.
    method FirstIdle() returns (i: nat, disposed: bool)
      requires Coupled() && forall k: nat :: k < |pending| ==> pending[k] < |g|
      ensures i <= |pending| && forall k :: 0 <= k < i ==> g[pending[k]].running
      ensures i < |pending| ==> !g[pending[i]].running && disposed == g[pending[i]].disposed
    {
      i := 0;
      while i < |pending| && nodes[pending[i]].running
        invariant 0 <= i <= |pending|
        invariant forall k :: 0 <= k < i ==> g[pending[k]].running
      {
        i := i + 1;
      }
      disposed := i < |pending| && nodes[pending[i]].disposed;
    }

    // Take the first queued effect that is not mid-run off the queue.
    method Dequeue() returns (e: nat, found: bool, disposed: bool)
      requires Inv()
      modifies this`pending
      ensures Distinct(pending)
      ensures !found ==> pending == old(pending) && forall p: nat :: p in pending && p < |g| ==> g[p].running
      ensures found ==> e in old(pending) && e < |g| == |env.kinds| && env.kinds[e].Effect? && !g[e].running
      ensures found ==> disposed == g[e].disposed && |pending| < |old(pending)|
      ensures found ==> forall x: nat :: x in pending <==> x in old(pending) && x != e
      ensures found ==> Through(env, g, pending, capped, Some(e))
      ensures Coupled() && InvOk(env, g, current, old(pending), capped)
      ensures !found || disposed ==> Inv()
      ensures Runnable(g, old(pending)) == (if found && !disposed then [e] else []) + Runnable(g, pending)
      ensures !found ==> Runnable(g, pending) == []
    {
      hide InvOk, Through, Runnable;
      PendingHere(env, g, current, pending, capped);
      var i;
      i, disposed := FirstIdle();
      e, found := 0, i < |pending|;
      if !found {
        NoneRunnable(g, pending);
      } else {
        e := pending[i];
        ghost var pending0 := pending;
        RunnableTake(g, pending, i);
        RemoveOk(pending, e);
        pending := Remove(pending, e);
        ThroughDequeued(env, g, pending0, pending, capped, e);
        if disposed {
          DisposedLeaves(env, g, current, pending0, pending, capped, e);
        }
      }
    }

    // Run queued effects until only running ones are left, at most MAX_FLUSH_ITERATIONS of
    // them; `ok` is false when that cap was hit. They run in the order in which they were
    // queued, and the signals afterwards are what their bodies, one after the other, make
    // of them.
    method MaybeDrain() returns (ok: bool, ghost order: seq<nat>)
      requires Inv()
      modifies this, nodes
      decreases if draining then 0 else 1, 0, 0
      ensures Kept() && Inv() && Drained() && RunFrame(old(g), g, None)
      ensures ok || (capped && pending == [])
      ensures |env.sig| == |env.kinds| && env == ExecAll(old(env), order)
      ensures runs == old(runs) + |order| && |order| <= MAX_FLUSH_ITERATIONS
      ensures old(batchDepth) == 0 && !old(draining) ==> InTurn(old(env).kinds, old(g), old(pending), order, ok)
      ensures old(batchDepth) > 0 || old(draining) || (forall p: nat :: p in old(pending) && p < |old(g)| ==>
          old(g)[p].running) ==>
        ok && order == [] && g == old(g) && pending == old(pending) && capped == old(capped)
    {
      hide InvBut, InvOk, RunFrame, Coupled, Through, Exec, ExecAll, DependsExactly, Reads, ReadsOpen, ExecOpen;
      hide Runnable, AllPlain, FlushOrder, Flushed;
      Here();
      order := [];
      if batchDepth > 0 || draining {
        ExecNone(env);
        return true, [];
      }
      ghost var still := forall p: nat :: p in pending && p < |g| ==> g[p].running;
      FlushStart();
      SetDraining(true);
      ok := true;
      ghost var more: seq<nat> := [];
      var iterations := 0;
      while true
        invariant nodes == old(nodes) && env.kinds == old(env.kinds) && current == old(current)
        invariant batchDepth == 0 && draining && (old(capped) ==> capped) && ok
        invariant |env.sig| == |env.kinds|
        invariant Inv() && Flushed(old(g), old(env), old(pending), g, env, pending, order, more)
        invariant iterations <= MAX_FLUSH_ITERATIONS && runs == old(runs) + iterations && iterations == |order|
        invariant still ==> order == [] && g == old(g) && pending == old(pending) && capped == old(capped)
        decreases MAX_FLUSH_ITERATIONS - iterations, |pending|
      {
        ghost var pending0 := pending;
        var e, found, disposed := Dequeue();
        if !found {
          FlushedAll(old(g), old(env), old(pending), g, env, pending, order, more);
          break;
        }
        if disposed {
          FlushedSkip(old(g), old(env), old(pending), g, env, pending0, pending, order, more);
          continue;
        }
        iterations := iterations + 1;
        if iterations > MAX_FLUSH_ITERATIONS {
          FlushedCap(old(g), old(env), old(pending), g, env, pending0, e, order, more);
          GiveUp(pending0);
          ok := false;
          break;
        }
        more := RunNext(e, pending0, old(g), old(env), old(pending), order, more);
        order := order + [e];
      }
      SetDraining(false);
    }

    lemma FlushStart()
      requires Inv()
      ensures Flushed(g, env, pending, g, env, pending, [], [])
    {
      hide InvOk, Through;
      Here();
      ExecNone(env);
      assert [] + Runnable(g, pending) == Runnable(g, pending) == Runnable(g, pending) + [];
    }

    // One run of a flush that began at `g0`, `env0` and `queue0`.
    method RunNext(e: nat, ghost queue: seq<nat>, ghost g0: Graph, ghost env0: Env, ghost queue0: seq<nat>,
                   ghost order: seq<nat>, ghost more: seq<nat>)
      returns (ghost more': seq<nat>)
      requires Coupled() && InvOk(env, g, current, queue, capped) && |g| == |env.kinds| && draining
      requires Distinct(pending) && forall x: nat :: x in pending <==> x in queue && x != e
      requires e < |g| && env.kinds[e].Effect? && !g[e].running && !g[e].disposed
      requires Runnable(g, queue) == [e] + Runnable(g, pending) && e in queue
      requires Through(env, g, pending, capped, Some(e)) && |env.sig| == |env.kinds|
      requires Flushed(g0, env0, queue0, g, env, queue, order, more)
      modifies this, nodes
      decreases 0, 3
      ensures Kept() && Inv() && runs == old(runs) + 1 && |env.sig| == |env.kinds|
      ensures Flushed(g0, env0, queue0, g, env, pending, order + [e], more')
    {
      hide InvBut, InvOk, RunFrame, Coupled, Through, Exec, ExecAll, DependsExactly, Reads, ReadsOpen, ExecOpen;
      hide Runnable, AllPlain, Flushed;
      ghost var g1, env1, pending1 := g, env, pending;
      var _, _ := RunEffectNode(e, queue);
      ghost var queued := pending[|pending1|..];
      more' := more + Runnable(g0, queued);
      assert pending == pending1 + queued;
      FlushedNext(g0, env0, queue0, g1, env1, queue, g, env, pending1, queued, e, order, more);
    }

    method SetDraining(b: bool)
      requires Inv()
      modifies this`draining
      ensures Inv() && draining == b
    {
      draining := b;
    }

    // The queue is dropped when the cap is hit.
    method GiveUp(ghost queue: seq<nat>)
      requires Coupled() && InvOk(env, g, current, queue, capped)
      modifies this`pending, this`capped
      ensures Inv() && pending == [] && capped
    {
      CapReached(env, g, current, queue, capped);
      ThroughCapped(env, g, [], None);
      pending := [];
      capped := true;
    }

    lemma Here()
      requires Inv()
      ensures RunFrame(g, g, current) && RunFrame(g, g, None) && |env.sig| == |env.kinds| == |g| == |nodes|
    {
    }

    // One effect run, from its cleared dependency list to the stale unsubscription.
    // A throw inside the body (`!ok`) skips the latter.
    method RunEffectNode(e: nat, ghost queue: seq<nat>) returns (ok: bool, ghost script: Script)
      requires Coupled() && InvOk(env, g, current, queue, capped) && |g| == |env.kinds|
      requires Distinct(pending) && forall x: nat :: x in pending <==> x in queue && x != e
      requires e < |g| && env.kinds[e].Effect? && !g[e].running && !g[e].disposed
      requires batchDepth == 0 && !draining ==> forall p: nat :: p in pending && p < |g| ==> g[p].running
      requires Through(env, g, pending, capped, Some(e)) && |env.sig| == |env.kinds|
      modifies this, nodes
      decreases if draining then 0 else 1, 2
      ensures Kept() && Inv() && RunFrame(old(g), g, None) && |env.sig| == |env.kinds|
      ensures ok && !old(draining) && old(batchDepth) == 0 ==>
        && env == ExecOpen(old(env), old(env).kinds[e].action, script)
        && DependsExactly(g, e, ReadsOpen(old(env), old(env).kinds[e].action, script))
      ensures Calm(old(draining), old(batchDepth), old(env).kinds[e].action) ==>
        runs == old(runs) + 1 && env == Exec(old(env), old(env).kinds[e].action) &&
        DependsExactly(g, e, Reads(old(env), old(env).kinds[e].action))
      ensures ok || (capped && pending == [])
      ensures batchDepth == 0 && !draining ==>
        forall p: nat :: p in pending && p < |g| && p != e ==> g[p].running
      ensures old(draining) || old(batchDepth) > 0 ==> ok && runs == old(runs) + 1 && old(pending) <= pending
      ensures Plain(old(env).kinds[e].action) ==> pending == old(pending)
    {
      hide InvBut, InvOk, RunFrame, Begun, Ended, SameLinks, Coupled, Through, Exec, Reads, DepsGrow, DependsExactly;
      hide ExecOpen, ReadsOpen;
      ghost var g0, env0 := g, env;
      EffectHere(env, g, current, queue, capped, e);
      var prev, saved, action := StartEffect(e, queue);
      ghost var g1 := g;
      ok, script := RunStmt(action);
      ghost var g2 := g;
      StillDrained(g1, g2, current, pending);
      FinishEffect(e, prev, saved, ok, g0, g1, env0);
      if Calm(draining, batchDepth, action) {
        DependsAfterRun(g0, g1, g2, g, e, Reads(env0, action), prev);
      }
      if ok && !draining && batchDepth == 0 {
        DependsAfterRun(g0, g1, g2, g, e, ReadsOpen(env0, action, script), prev);
      }
    }

    // Everything of an effect's run before its body.
    method StartEffect(e: nat, ghost queue: seq<nat>) returns (prev: seq<nat>, saved: Option<nat>, action: Stmt)
      requires Coupled() && InvOk(env, g, current, queue, capped) && |g| == |env.kinds|
      requires Distinct(pending) && forall x: nat :: x in pending <==> x in queue && x != e
      requires e < |g| && env.kinds[e].Effect? && !g[e].running && !g[e].disposed
      requires batchDepth == 0 && !draining ==> forall p: nat :: p in pending && p < |g| ==> g[p].running
      requires Through(env, g, pending, capped, Some(e))
      modifies this`g, this`current, this`runs, nodes
      ensures Inv() && Drained() && runs == old(runs) + 1 && current == Some(e)
      ensures prev == old(g)[e].deps && saved == old(current) && action == env.kinds[e].action
      ensures Begun(old(g), g, e) && |g| == |old(g)| && forall k: nat :: k < |g| && k != e ==> SameLinks(old(g), g, k)
      ensures forall i: nat :: i < |g| && i != e ==> g[i].running == old(g)[i].running
    {
      hide InvOk, RunFrame, Begun, SameLinks, Coupled, Through;
      prev, saved := BeginRun(e);
      runs := runs + 1;
      BeginEffect(env, old(g), g, saved, e, queue, pending, capped);
      BegunRunning(old(g), g, e);
      ThroughBegun(env, old(g), g, saved, queue, pending, capped, e);
      action := ActionOf(e);
    }

    // Everything after it: `g0` and `env0` are the state before the run, `g1` the one it
    // began with.
    method FinishEffect(e: nat, prev: seq<nat>, saved: Option<nat>, ok: bool, ghost g0: Graph, ghost g1: Graph,
                        ghost env0: Env)
      requires Inv() && current == Some(e) && (ok || (capped && pending == []))
      requires e < |g0| && e < |env.kinds| && env.kinds[e].Effect?
      requires !g0[e].running && !g0[e].disposed && prev == g0[e].deps
      requires saved.Some? ==>
          saved.value < |g0| == |env.kinds| && g0[saved.value].running && env.kinds[saved.value].Effect?
      requires !capped ==> Symmetric(g0)
      requires forall i: nat :: i < |prev| ==> prev[i] < |g0|
      requires Begun(g0, g1, e) && |g1| == |g0| && forall k: nat :: k < |g0| && k != e ==> SameLinks(g0, g1, k)
      requires RunFrame(g1, g, Some(e)) && |g| == |g0|
      requires |env0.sig| == |env0.kinds| && env.kinds == env0.kinds
      requires Plain(env.kinds[e].action) ==>
        env == Exec(env0, env.kinds[e].action) && DepsGrow(g1, g, Some(e), Reads(env0, env.kinds[e].action))
      modifies this`g, this`current, nodes
      ensures Inv() && current == saved && RunFrame(g0, g, None) && |g| == |g0| && |env.sig| == |env.kinds|
      ensures ok ==> Ended(old(g), g, e, prev)
      ensures forall i: nat :: i < |g| && i != e ==> g[i].running == old(g)[i].running
    {
      hide InvOk, RunFrame, Begun, Ended, SameLinks, Coupled, Through, Exec, Reads, DepsGrow;
      ghost var g2 := g;
      Here();
      if ok {
        EndRun(e, prev, saved);
        EndEffect(env, g0, g1, g2, g, saved, e, pending, capped);
        ThroughEnded(env0, env, g0, g1, g2, g, pending, capped, e, prev);
      } else {
        current := saved;
        Stop(e);
        AbortEffect(env, g0, g1, g2, g, saved, e, pending);
        ThroughCapped(env, g, pending, None);
      }
      StoppedRunning(g2, g, e);
      Here();
    }

    method ActionOf(e: nat) returns (st: Stmt)
      requires Coupled() && e < |g| && env.kinds[e].Effect?
      ensures st == env.kinds[e].action
    {
      st := nodes[e].kind.action;
    }

    method RunStmt(st: Stmt) returns (ok: bool, ghost script: Script)
      requires Inv() && Drained() && StmtOk(env.kinds, st)
      modifies this, nodes
      decreases if draining then 0 else 1, 1, st
      ensures Kept() && Inv() && Drained() && RunFrame(old(g), g, current)
      ensures ok || (capped && pending == [])
      ensures old(draining) || old(batchDepth) > 0 ==> ok && runs == old(runs) && old(pending) <= pending
      ensures ok && !old(draining) && old(batchDepth) == 0 ==>
        env == ExecOpen(old(env), st, script) && DepsGrow(old(g), g, current, ReadsOpen(old(env), st, script))
      ensures Calm(old(draining), old(batchDepth), st) ==>
        ok && runs == old(runs) && env == Exec(old(env), st) && DepsGrow(old(g), g, current, Reads(old(env), st))
      ensures Plain(st) ==> pending == old(pending) && capped == old(capped)
    {
      hide InvOk, RunFrame, Through, DepsGrow, Coupled;
      ghost var g0 := g;
      InvConsumer(env, g, current, pending, capped);
      ok, script := true, Quiet;
      match st
      case Skip =>
        DepsGrowNone(g, g, current);
      case Do(e) =>
        var _ := Evaluate(e);
      case Put(d, e) =>
        ok, script := RunPut(d, e);
      case Then(a, b) =>
        ok, script := RunThen(a, b);
      case Branch(c, a, b) =>
        ok, script := RunBranch(c, a, b);
      case Batch(a) =>
        ok, script := RunBatch(a);
    }

    method RunThen(a: Stmt, b: Stmt) returns (ok: bool, ghost script: Script)
      requires Inv() && Drained() && StmtOk(env.kinds, Then(a, b))
      modifies this, nodes
      decreases if draining then 0 else 1, 1, Then(a, b), 0
      ensures Kept() && Inv() && Drained() && RunFrame(old(g), g, current)
      ensures ok || (capped && pending == [])
      ensures old(draining) || old(batchDepth) > 0 ==> ok && runs == old(runs) && old(pending) <= pending
      ensures ok && !old(draining) && old(batchDepth) == 0 ==>
        && env == ExecOpen(old(env), Then(a, b), script)
        && DepsGrow(old(g), g, current, ReadsOpen(old(env), Then(a, b), script))
      ensures Calm(old(draining), old(batchDepth), Then(a, b)) ==>
        && ok && runs == old(runs) && env == Exec(old(env), Then(a, b))
        && DepsGrow(old(g), g, current, Reads(old(env), Then(a, b)))
      ensures Plain(Then(a, b)) ==> pending == old(pending) && capped == old(capped)
    {
      hide InvOk, RunFrame, Through, DepsGrow, Coupled;
      ghost var g0 := g;
      Here();
      ghost var first;
      ok, first := RunStmt(a);
      script := Both(first, Quiet);
      if ok {
        ghost var g1, env1, second := g, env, Quiet;
        ok, second := RunStmt(b);
        script := Both(first, second);
        RunFrameTrans(g0, g1, g, current);
        if ok && !draining && batchDepth == 0 {
          DepsGrowTrans(g0, g1, g, current, ReadsOpen(old(env), a, first), ReadsOpen(env1, b, second));
        }
        if Calm(draining, batchDepth, Then(a, b)) {
          DepsGrowTrans(g0, g1, g, current, Reads(old(env), a), Reads(env1, b));
        }
      }
    }

    method RunBranch(c: Expr, a: Stmt, b: Stmt) returns (ok: bool, ghost script: Script)
      requires Inv() && Drained() && StmtOk(env.kinds, Branch(c, a, b))
      modifies this, nodes
      decreases if draining then 0 else 1, 1, Branch(c, a, b), 0
      ensures Kept() && Inv() && Drained() && RunFrame(old(g), g, current)
      ensures ok || (capped && pending == [])
      ensures old(draining) || old(batchDepth) > 0 ==> ok && runs == old(runs) && old(pending) <= pending
      ensures ok && !old(draining) && old(batchDepth) == 0 ==>
        && env == ExecOpen(old(env), Branch(c, a, b), script)
        && DepsGrow(old(g), g, current, ReadsOpen(old(env), Branch(c, a, b), script))
      ensures Calm(old(draining), old(batchDepth), Branch(c, a, b)) ==>
        && ok && runs == old(runs) && env == Exec(old(env), Branch(c, a, b))
        && DepsGrow(old(g), g, current, Reads(old(env), Branch(c, a, b)))
      ensures Plain(Branch(c, a, b)) ==> pending == old(pending) && capped == old(capped)
    {
      hide InvOk, RunFrame, Through, DepsGrow, Coupled, Exec, Reads, ExecOpen, ReadsOpen, Trace, Eval;
      ghost var g0 := g;
      Here();
      var v := Evaluate(c);
      ghost var g1 := g;
      ghost var chosen := if v != 0 then a else b;
      if v != 0 {
        ok, script := RunStmt(a);
      } else {
        ok, script := RunStmt(b);
      }
      BranchMeans(old(env), c, a, b, script);
      RunFrameTrans(g0, g1, g, current);
      if ok && !draining && batchDepth == 0 {
        DepsGrowTrans(g0, g1, g, current, Trace(old(env), c, |env.kinds|), ReadsOpen(old(env), chosen, script));
      }
      if Calm(draining, batchDepth, Branch(c, a, b)) {
        DepsGrowTrans(g0, g1, g, current, Trace(old(env), c, |env.kinds|), Reads(old(env), chosen));
      }
    }

    method RunPut(d: nat, e: Expr) returns (ok: bool, ghost script: Script)
      requires Inv() && Drained() && StmtOk(env.kinds, Put(d, e))
      modifies this, nodes
      decreases if draining then 0 else 1, 1, Put(d, e), 0
      ensures Kept() && Inv() && Drained() && RunFrame(old(g), g, current)
      ensures ok || (capped && pending == [])
      ensures old(draining) || old(batchDepth) > 0 ==> ok && runs == old(runs) && old(pending) <= pending
      ensures ok && !old(draining) && old(batchDepth) == 0 ==>
        && env == ExecOpen(old(env), Put(d, e), script)
        && DepsGrow(old(g), g, current, ReadsOpen(old(env), Put(d, e), script))
      ensures Calm(old(draining), old(batchDepth), Put(d, e)) ==>
        && ok && runs == old(runs) && env == Exec(old(env), Put(d, e))
        && DepsGrow(old(g), g, current, Reads(old(env), Put(d, e)))
    {
      hide InvOk, RunFrame, Through, DepsGrow, Coupled, Trace, Eval;
      ghost var g0 := g;
      Here();
      var v := Evaluate(e);
      Here();
      ghost var g1 := g;
      ghost var order;
      RunningConsumer(env, g, current, pending, capped);
      ok, order := Write(d, v);
      script := Flush(order);
      AfterFlush(g0, g1, g, current, Trace(old(env), e, |env.kinds|));
    }

    // The flush at the end of an outermost batch finds nothing to do after a plain body.
    method RunBatch(a: Stmt) returns (ok: bool, ghost script: Script)
      requires Inv() && Drained() && StmtOk(env.kinds, a)
      modifies this, nodes
      decreases if draining then 0 else 1, 1, Batch(a), 0
      ensures Kept() && Inv() && Drained() && RunFrame(old(g), g, current)
      ensures ok || (capped && pending == [])
      ensures old(draining) || old(batchDepth) > 0 ==> ok && runs == old(runs) && old(pending) <= pending
      ensures ok && !old(draining) && old(batchDepth) == 0 ==>
        && env == ExecOpen(old(env), Batch(a), script)
        && DepsGrow(old(g), g, current, ReadsOpen(old(env), Batch(a), script))
      ensures Calm(old(draining), old(batchDepth), Batch(a)) ==>
        && ok && runs == old(runs) && env == Exec(old(env), Batch(a))
        && DepsGrow(old(g), g, current, Reads(old(env), Batch(a)))
      ensures Plain(Batch(a)) ==> pending == old(pending) && capped == old(capped)
    {
      hide InvOk, Through, Coupled, RunFrame, DepsGrow, Exec, ExecAll, Reads, ExecOpen, ReadsOpen, Plain;
      ghost var g0 := g;
      Here();
      batchDepth := batchDepth + 1;
      ok, script := RunStmt(a);
      ghost var g1 := g;
      StillDrained(g0, g1, current, pending);
      RunningNow();
      ghost var order;
      ok, order := LeaveBatch();
      script := Flush(order);
      BatchMeans(old(env), a, order);
      ExecNone(Exec(old(env), a));
      PlainBatch(a);
      AfterFlush(g0, g1, g, current, Reads(old(env), a));
    }

    lemma RunningNow()
      requires Inv()
      ensures (current.Some? ==> current.value < |g| && g[current.value].running) && |env.sig| == |env.kinds|
    {
      hide Through;
    }

    // The end of a batch; only the outermost one flushes.
    method LeaveBatch() returns (ok: bool, ghost order: seq<nat>)
      requires Inv() && batchDepth > 0
      modifies this, nodes
      decreases if draining then 0 else 1, 0, 1
      ensures nodes == old(nodes) && env.kinds == old(env.kinds) && current == old(current)
      ensures batchDepth == old(batchDepth) - 1 && draining == old(draining) && (old(capped) ==> capped)
      ensures Inv() && Drained() && RunFrame(old(g), g, None)
      ensures ok || (capped && pending == [])
      ensures |env.sig| == |env.kinds| && |old(env).sig| == |env.kinds| && env == ExecAll(old(env), order)
      ensures runs == old(runs) + |order| && |order| <= MAX_FLUSH_ITERATIONS
      ensures batchDepth == 0 && !draining ==> InTurn(env.kinds, old(g), old(pending), order, ok)
      ensures batchDepth > 0 || draining || (forall p: nat :: p in old(pending) && p < |old(g)| ==>
          old(g)[p].running) ==>
        ok && order == [] && g == old(g) && pending == old(pending) && capped == old(capped)
    {
      hide InvOk, Through, Coupled, RunFrame, Exec, ExecAll, Runnable, InTurn;
      Here();
      batchDepth := batchDepth - 1;
      ok, order := true, [];
      ExecNone(env);
      if batchDepth == 0 {
        ok, order := MaybeDrain();
      }
    }

    // Evaluate an expression between statements.
    method Evaluate(e: Expr) returns (v: int)
      requires Inv() && Drained() && ExprOk(env.kinds, e, |env.kinds|)
      modifies this`g, this`current, nodes
      ensures v == Eval(env, e, |env.kinds|)
      ensures current == old(current) && Inv() && Drained() && RunFrame(old(g), g, current)
      ensures DepsGrow(old(g), g, current, Trace(env, e, |env.kinds|))
    {
      hide InvOk, RunFrame, Through, DepsGrow, Core, ReadFrame, ConsumerOk, Gathers, Symmetric, Eval, Trace, ExprOk;
      ghost var g0 := g;
      InvConsumer(env, g, current, pending, capped);
      v := RunExpr(e, |nodes|);
      ReadKeepsInv(env, g0, g, current, pending, capped, Trace(env, e, |env.kinds|));
      ThroughRead(env, g0, g, current, pending, capped, Trace(env, e, |env.kinds|));
      StillDrained(g0, g, current, pending);
    }

    // -------------------------------------------------------------------------
    // The public operations
    // -------------------------------------------------------------------------

    // Add a node that nobody reads yet.
    method AddNode(kind: Kind, value: int, dirty: bool, hasValue: bool) returns (n: nat)
      requires Inv() && KindOk(env.kinds + [kind], |env.kinds|) && (kind.Computed? ==> dirty)
      modifies this`nodes, this`g, this`env
      ensures InvBut(if kind.Effect? then Some(n) else None)
      ensures n == |old(nodes)| && n < |g| == |nodes| == |env.kinds|
      ensures env == Grown(old(env), kind, value)
      ensures g == old(g) + [NodeState(value, [], dirty, hasValue, [], false, false, map[])]
      ensures n !in pending && nodes == old(nodes) + [nodes[n]] && fresh(nodes[n])
    {
      hide InvOk, Through;
      PendingBelow(env, g, current, pending, capped);
      n := |nodes|;
      var node := new Node(n, kind, value, dirty, hasValue);
      NewNodeKeepsInv(env, g, kind, node.State(), current, pending, capped);
      ThroughGrown(env, g, kind, node.State(), current, pending, capped);
      nodes := nodes + [node];
      g := g + [node.State()];
      env := Grown(env, kind, value);
    }

    method NewSignal(initial: int) returns (n: nat)
      requires Inv()
      modifies this`nodes, this`g, this`env
      ensures Inv() && n == |old(nodes)| && n < |g| && g[..n] == old(g)
      ensures (old(Idle()) ==> Idle()) && (old(Drained()) ==> Drained())
      ensures env == Grown(old(env), Signal, initial)
    {
      hide InvOk, Through;
      n := AddNode(Signal, initial, false, true);
    }

    method NewComputed(body: Expr) returns (n: nat)
      requires Inv() && ExprOk(env.kinds, body, |env.kinds|) && Tracked(body)
      modifies this`nodes, this`g, this`env
      ensures Inv() && n == |old(nodes)| && n < |g| && g[..n] == old(g)
      ensures (old(Idle()) ==> Idle()) && (old(Drained()) ==> Drained())
      ensures env == Grown(old(env), Computed(body), 0)
    {
      hide InvOk, Through;
      ExprOkGrows(env.kinds, Computed(body), body, |env.kinds|, |env.kinds|);
      n := AddNode(Computed(body), 0, true, false);
    }

    // Runs the effect once, then whatever it queued.
    method NewEffect(action: Stmt) returns (n: nat, ok: bool, ghost script: Script, ghost order: seq<nat>)
      requires Inv() && Drained() && StmtOk(env.kinds, action)
      modifies this, nodes
      ensures Inv() && Drained() && (old(Idle()) ==> Idle()) && (ok || capped)
      ensures n == |old(nodes)| && n < |nodes| && current == old(current)
      ensures batchDepth == old(batchDepth) && draining == old(draining)
      ensures env.kinds == old(env.kinds) + [Effect(action)]
      ensures |env.sig| == |env.kinds| && |old(env).sig| == |old(env).kinds|
      ensures Calm(draining, batchDepth, action) ==> runs == old(runs) + 1 + |order|
      ensures Calm(draining, batchDepth, action) ==>
        env == ExecAll(Exec(Grown(old(env), Effect(action), 0), action), order)
      ensures ok && !draining && batchDepth == 0 ==>
        env == ExecAll(ExecOpen(Grown(old(env), Effect(action), 0), action, script), order)
      ensures old(Idle()) && batchDepth == 0 && !capped ==> Settled()
    {
      hide InvBut, Through, Exec, ExecOpen, ExecAll, RunFrame, Coupled, Plain;
      StmtOkGrows(env.kinds, Effect(action), action);
      n := AddNode(Effect(action), 0, false, false);
      ghost var g0 := g;
      ok, script, order := FirstRun(n);
      StillDrained(g0, g, None, pending);
      if old(Idle()) && batchDepth == 0 && !capped {
        Rest();
      }
    }

    // The run of an effect that was just created, and the flush after it.
    method FirstRun(n: nat) returns (ok: bool, ghost script: Script, ghost order: seq<nat>)
      requires InvBut(Some(n)) && Drained() && n < |g| == |env.kinds| && env.kinds[n].Effect?
      requires !g[n].running && !g[n].disposed && n !in pending
      modifies this, nodes
      ensures Kept() && Inv() && Drained() && RunFrame(old(g), g, None) && (ok || capped)
      ensures |old(env).sig| == |old(env).kinds| && |env.sig| == |env.kinds|
      ensures Calm(draining, batchDepth, old(env).kinds[n].action) ==> runs == old(runs) + 1 + |order|
      ensures Calm(draining, batchDepth, old(env).kinds[n].action) ==>
        env == ExecAll(Exec(old(env), old(env).kinds[n].action), order)
      ensures ok && !draining && batchDepth == 0 ==>
        env == ExecAll(ExecOpen(old(env), old(env).kinds[n].action, script), order)
    {
      hide InvOk, RunFrame, Through, Exec, Reads, DependsExactly, ExecOpen, ReadsOpen, Runnable, InTurn, Coupled, Plain;
      QueueOne(env, g, current, pending, capped, n);
      ghost var g0 := g;
      order := [];
      ok, script := RunEffectNode(n, Add(pending, n));
      StillDrained(g0, g, None, pending);
      if ok {
        ghost var g1 := g;
        ok, order := MaybeDrain();
        RunFrameTrans(g0, g1, g, None);
      }
    }

    // With nothing executing and no batch open, everything has settled.
    lemma Rest()
      requires Inv() && Idle() && Drained() && batchDepth == 0 && !capped
      ensures Settled()
    {
      hide InvOk, Through, Reads, DependsExactly, InSync;
      AtRest(env, g, current, pending);
      ThroughRest(env, g);
    }

    // Reading outside any effect: the value is the from-scratch one.
    method Read(n: nat) returns (v: int)
      requires Inv() && Idle() && Drained() && IsSource(env.kinds, n)
      modifies this`g, this`current, nodes
      ensures Inv() && Idle() && Drained()
      ensures v == Val(env, n)
    {
      hide InvOk, RunFrame, Through;
      GetOk(env, g, current, pending, capped, n);
      v := Evaluate(Get(n));
      StillDrained(old(g), g, current, pending);
    }

    // The signals afterwards are what the write and the effect runs of its flush, one after
    // the other, make of them.
    method Set(s: nat, v: int) returns (ok: bool, ghost order: seq<nat>)
      requires Inv() && Idle() && Drained() && s < |env.kinds| == |env.sig| && env.kinds[s].Signal?
      modifies this, nodes
      ensures Inv() && Idle() && Drained() && (ok || capped)
      ensures nodes == old(nodes) && env.kinds == old(env.kinds) && batchDepth == old(batchDepth)
      ensures env == ExecAll(old(env).(sig := old(env).sig[s := v]), order) && runs == old(runs) + |order|
      ensures batchDepth > 0 ==> ok && order == []
      ensures old(env).sig[s] == v ==>
        ok && order == [] && g == old(g) && pending == old(pending) && capped == old(capped)
      ensures old(env).sig[s] != v && batchDepth > 0 ==> Queued(old(env).kinds, old(g), s, old(pending), pending)
      ensures old(env).sig[s] != v && batchDepth == 0 ==>
        RunsReached(old(env).kinds, old(g), s, old(pending), order, ok)
      ensures batchDepth == 0 && !capped ==> Settled()
    {
      hide InvOk, RunFrame, Through, Exec;
      ok, order := Write(s, v);
      StillDrained(old(g), g, None, pending);
      if batchDepth == 0 && !capped {
        Rest();
      }
    }

    method BeginBatch()
      requires Inv() && Idle() && Drained()
      modifies this`batchDepth
      ensures Inv() && Idle() && Drained() && batchDepth == old(batchDepth) + 1
    {
      batchDepth := batchDepth + 1;
    }

    // The outermost exit flushes: at most MAX_FLUSH_ITERATIONS effect runs.
    method EndBatch() returns (ok: bool, ghost order: seq<nat>)
      requires Inv() && Idle() && Drained() && batchDepth > 0
      modifies this, nodes
      ensures Inv() && Idle() && Drained() && (ok || capped)
      ensures nodes == old(nodes) && env.kinds == old(env.kinds) && batchDepth == old(batchDepth) - 1
      ensures |env.sig| == |env.kinds| && env == ExecAll(old(env), order)
      ensures runs == old(runs) + |order| && |order| <= MAX_FLUSH_ITERATIONS
      ensures batchDepth == 0 && !capped ==> Settled()
      ensures batchDepth == 0 ==> InTurn(old(env).kinds, old(g), old(pending), order, ok)
    {
      hide InvOk, RunFrame, Through, Exec, Runnable, InTurn;
      ok, order := LeaveBatch();
      StillDrained(old(g), g, None, pending);
      if batchDepth == 0 && !capped {
        Rest();
      }
    }

    method Dispose(e: nat)
      requires Inv() && e < |env.kinds| == |g| && env.kinds[e].Effect? && !g[e].running
      modifies this`g, nodes
      ensures Inv() && e < |g| && g[e].disposed
      ensures (old(Idle()) ==> Idle()) && (old(Drained()) ==> Drained())
      ensures !capped && !old(g[e].disposed) ==> forall d: nat :: !Sub(g, d, e)
    {
      hide InvOk, Dropped, Through;
      EffectHere(env, g, current, pending, capped, e);
      var node := nodes[e];
      if node.disposed {
        return;
      }
      ghost var g0 := g;
      node.disposed := true;
      var prev := node.deps;
      node.deps := [];
      g := g[e := node.State()];
      ghost var h := g;
      ghost var gone := DropStale(e, prev);
      DisposeKeepsInv(env, g0, h, g, current, e, pending, capped, gone);
      ThroughDisposed(env, g0, h, g, pending, capped, e, gone);
      DroppedRunning(h, g, e, gone);
    }
  }

  lemma Linked(g: Graph, h: Graph, c: nat, n: nat, v: int)
    requires c < |g| && n < |g| && c != n
    requires
      var g1 := if n in g[c].deps then g
                else g[c := g[c].(deps := g[c].deps + [n])]
                      [n := g[n].(subscribers := Add(g[n].subscribers, c))];
      h == g1[c := g1[c].(seen := g1[c].seen[n := v])]
    ensures AfterRead(g, h, c, n, v)
  {
  }

  lemma DroppedNone(h: Graph, n: nat)
    requires n < |h|
    ensures Dropped(h, h, n, {})
  {
  }

  lemma FrameOfRead(kinds: seq<Kind>, g: Graph, h: Graph, c: Option<nat>)
    requires ReadFrame(kinds, g, h, c)
    ensures RunFrame(g, h, c)
  {
  }

  lemma NoConsumer(env: Env, g: Graph, h: Graph, t: set<nat>)
    requires |env.sig| == |env.kinds|
    ensures Gathers(env, g, h, None, t)
  {
  }

  // Reads made while no consumer is active leave every running node as it was.
  lemma NothingRead(env: Env, g: Graph, h: Graph, c: Option<nat>)
    requires Core(env, g) && Core(env, h) && (g == h || ReadFrame(env.kinds, g, h, None))
    requires c.Some? ==> c.value < |g| && g[c.value].running
    ensures ReadFrame(env.kinds, g, h, c) && Gathers(env, g, h, c, {})
    ensures |h| == |g| && (c.Some? ==> h[c.value].running)
  {
    if c.Some? && g != h {
      assert SameLinks(g, h, c.value);
      NothingGathered(env, g, h, c);
    }
  }

  lemma NothingGathered(env: Env, g: Graph, h: Graph, c: Option<nat>)
    requires Core(env, g) && Core(env, h) && |g| == |h| && (c.Some? ==> c.value < |g| && SameLinks(g, h, c.value))
    requires ReadFrame(env.kinds, g, h, c)
    ensures Gathers(env, g, h, c, {})
  {
  }

  lemma KindOfComputed(env: Env, g: Graph, n: nat, c: Option<nat>)
    requires Core(env, g) && n < |g| && env.kinds[n].Computed? && ConsumerOk(env.kinds, g, c, n + 1)
    ensures ExprOk(env.kinds, env.kinds[n].body, n) && !g[n].running
  {
    assert KindOk(env.kinds, n);
  }

  // After its body has run, a node depends on exactly what the body read.
  lemma GatheredAll(env: Env, g: Graph, b: Graph, h: Graph, n: nat, prev: seq<nat>)
    requires Core(env, g) && Begun(g, b, n) && env.kinds[n].Computed? && prev == g[n].deps
    requires Gathers(env, b, h, Some(n), Trace(env, env.kinds[n].body, n))
    ensures forall d: nat :: d in Trace(env, env.kinds[n].body, n) ==> Dep(h, n, d)
    ensures forall d: nat :: Dep(h, n, d) ==> Fresh(env.kinds, h, d)
    ensures forall i: nat :: i < |prev| ==> prev[i] < |g|
  {
    forall i: nat | i < |prev|
      ensures prev[i] < |g|
    {
      assert Dep(g, n, prev[i]);
    }
  }

  lemma FreshValue(env: Env, g: Graph, n: nat)
    requires Core(env, g) && IsSource(env.kinds, n) && Fresh(env.kinds, g, n)
    ensures g[n].value == Val(env, n)
  {
  }

  lemma PlainBatch(a: Stmt)
    ensures Plain(Batch(a)) == Plain(a)
  {
  }

  // What a consumer gathered before a flush it has afterwards too.
  lemma AfterFlush(g: Graph, h: Graph, k: Graph, c: Option<nat>, t: set<nat>)
    requires RunFrame(g, h, c) && RunFrame(h, k, None) && (c.Some? ==> c.value < |h| && h[c.value].running)
    ensures RunFrame(g, k, c) && (DepsGrow(g, h, c, t) ==> DepsGrow(g, k, c, t))
  {
    FrameForAny(h, k, c);
    DepsGrowFrame(h, k, c);
    RunFrameTrans(g, h, k, c);
    if DepsGrow(g, h, c, t) {
      DepsGrowTrans(g, h, k, c, t, {});
      assert t + {} == t;
    }
  }

  lemma RunningConsumer(env: Env, g: Graph, c: Option<nat>, pending: seq<nat>, capped: bool)
    requires InvOk(env, g, c, pending, capped)
    ensures c.Some? ==> c.value < |g| && g[c.value].running
  {
  }

  // Where a flush that began at `g0`, `env0` and `queue0` stands after running `order`, when
  // its runs have queued `more`.
  ghost predicate Flushed(g0: Graph, env0: Env, queue0: seq<nat>, g: Graph, env: Env, queue: seq<nat>,
                          order: seq<nat>, more: seq<nat>) {
    && |env0.sig| == |env0.kinds| && |env.sig| == |env.kinds| && env.kinds == env0.kinds
    && RunFrame(g0, g, None) && env == ExecAll(env0, order)
    && Runnable(g0, queue0) + more == order + Runnable(g, queue)
    && AllWait(g0, more) && (AllPlain(env0.kinds, queue0) ==> more == [] && AllPlain(env0.kinds, queue))
  }

  lemma FlushedAll(g0: Graph, env0: Env, queue0: seq<nat>, g: Graph, env: Env, queue: seq<nat>,
                   order: seq<nat>, more: seq<nat>)
    requires Flushed(g0, env0, queue0, g, env, queue, order, more) && Runnable(g, queue) == []
    requires |order| <= MAX_FLUSH_ITERATIONS
    ensures RunFrame(g0, g, None)
    ensures |env.sig| == |env.kinds| && |env0.sig| == |env0.kinds| && env == ExecAll(env0, order)
    ensures InTurn(env0.kinds, g0, queue0, order, true)
  {
    hide Runnable, RunFrame, ExecAll;
    assert order + [] == order;
    assert FlushOrder(order, Runnable(g0, queue0), more, true);
  }

  lemma FlushedSkip(g0: Graph, env0: Env, queue0: seq<nat>, g: Graph, env: Env, queue: seq<nat>, queue': seq<nat>,
                    order: seq<nat>, more: seq<nat>)
    requires Flushed(g0, env0, queue0, g, env, queue, order, more) && Runnable(g, queue) == [] + Runnable(g, queue')
    requires forall x: nat :: x in queue' ==> x in queue
    ensures Flushed(g0, env0, queue0, g, env, queue', order, more)
  {
    hide Runnable, RunFrame, ExecAll;
    assert [] + Runnable(g, queue') == Runnable(g, queue');
  }

  lemma FlushedCap(g0: Graph, env0: Env, queue0: seq<nat>, g: Graph, env: Env, queue: seq<nat>, e: nat,
                   order: seq<nat>, more: seq<nat>)
    requires Flushed(g0, env0, queue0, g, env, queue, order, more) && Runnable(g, queue) != []
    requires |order| == MAX_FLUSH_ITERATIONS
    ensures RunFrame(g0, g, None)
    ensures |env.sig| == |env.kinds| && |env0.sig| == |env0.kinds| && env == ExecAll(env0, order)
    ensures InTurn(env0.kinds, g0, queue0, order, false)
  {
    hide Runnable, RunFrame, ExecAll;
    assert |Runnable(g0, queue0) + more| == |order| + |Runnable(g, queue)|;
    assert (order + Runnable(g, queue))[..|order|] == order;
    assert FlushOrder(order, Runnable(g0, queue0), more, false);
  }

  lemma FlushedNext(g0: Graph, env0: Env, queue0: seq<nat>, g1: Graph, env1: Env, queue1: seq<nat>, g: Graph, env: Env,
                    rest: seq<nat>, queued: seq<nat>, e: nat, order: seq<nat>, more: seq<nat>)
    requires Flushed(g0, env0, queue0, g1, env1, queue1, order, more) && RunFrame(g1, g, None)
    requires e < |env1.kinds| && env1.kinds[e].Effect? && env == Exec(env1, env1.kinds[e].action)
    requires Runnable(g1, queue1) == [e] + Runnable(g1, rest)
    requires e in queue1 && forall x: nat :: x in rest ==> x in queue1
    requires Plain(env1.kinds[e].action) ==> queued == []
    ensures Flushed(g0, env0, queue0, g, env, rest + queued, order + [e], more + Runnable(g0, queued))
  {
    hide Exec, ExecAll, RunFrame, Runnable;
    ExecNext(env0, order, e);
    RunFrameTrans(g0, g1, g, None);
    FlagsKept(g0, g);
    FlagsKept(g1, g);
    RunnableSame(g0, g, queued);
    RunnableSame(g1, g, rest);
    RunnableAppend(g, rest, queued);
    Regrouped(Runnable(g0, queue0), more, order, e, Runnable(g1, rest), Runnable(g0, queued));
    RunnableIs(g0, queued);
    if AllPlain(env0.kinds, queue0) {
      assert queued == [] && rest + queued == rest;
      NoneRunnable(g0, queued);
    }
  }

  lemma Regrouped(waiting: seq<nat>, more: seq<nat>, order: seq<nat>, e: nat, rest: seq<nat>, queued: seq<nat>)
    requires waiting + more == order + ([e] + rest)
    ensures waiting + (more + queued) == order + [e] + (rest + queued)
  {
    assert waiting + (more + queued) == waiting + more + queued;
  }

  lemma FlagsKept(g: Graph, h: Graph)
    requires RunFrame(g, h, None)
    ensures |h| == |g| && forall i: nat :: i < |g| ==> h[i].running == g[i].running && h[i].disposed == g[i].disposed
  {
  }

  lemma StillDrained(g: Graph, h: Graph, c: Option<nat>, pending: seq<nat>)
    requires RunFrame(g, h, c)
    ensures |h| == |g| && forall i: nat :: i < |g| ==> h[i].running == g[i].running
  {
  }

  lemma SignalHere(env: Env, g: Graph, c: Option<nat>, pending: seq<nat>, capped: bool, s: nat)
    requires InvOk(env, g, c, pending, capped) && s < |g| && env.kinds[s].Signal?
    ensures |env.sig| == |env.kinds| == |g| && g[s].value == env.sig[s] && Distinct(pending) && RunFrame(g, g, None)
    ensures forall d: nat, j: nat :: Sub(g, d, j) ==> j < |g|
  {
  }

  lemma ValueSet(env: Env, g: Graph, h: Graph, s: nat, v: int)
    requires s < |g| && h == g[s := g[s].(value := v)]
    ensures forall d: nat, j: nat :: Sub(g, d, j) <==> Sub(h, d, j)
  {
  }

  lemma MarkedAfterWrite(kinds: seq<Kind>, g: Graph, h: Graph, k: Graph, s: nat, v: int, r: set<nat>)
    requires s < |g| == |kinds| && h == g[s := g[s].(value := v)] && |k| == |h|
    requires forall d: nat, j: nat :: Sub(g, d, j) <==> Sub(h, d, j)
    requires forall i: nat :: i < |h| ==> k[i] == h[i].(dirty := h[i].dirty || (i in r && !kinds[i].Effect?))
    requires r == set n: nat | n < |h| && Reachable(kinds, h, s, n)
    ensures Marked(kinds, g, k, s, v, r)
    ensures r == set n: nat | n < |g| && Reachable(kinds, g, s, n)
  {
    forall n: nat
      ensures Reachable(kinds, g, s, n) <==> Reachable(kinds, h, s, n)
    {
      forall k: nat
        ensures ReachIn(kinds, g, s, n, k) <==> ReachIn(kinds, h, s, n, k)
      {
        ReachSame(kinds, g, h, s, n, k);
      }
    }
  }

  lemma PendingHere(env: Env, g: Graph, c: Option<nat>, pending: seq<nat>, capped: bool)
    requires InvOk(env, g, c, pending, capped)
    ensures forall i: nat :: i < |pending| ==> pending[i] < |g| && env.kinds[pending[i]].Effect?
    ensures Distinct(pending) && |env.kinds| == |g|
  {
    forall i: nat | i < |pending|
      ensures pending[i] < |g| && env.kinds[pending[i]].Effect?
    {
      assert pending[i] in pending;
    }
  }

  lemma DisposedLeaves(env: Env, g: Graph, c: Option<nat>, pending: seq<nat>, pending': seq<nat>, capped: bool, e: nat)
    requires InvOk(env, g, c, pending, capped) && e < |g| && g[e].disposed
    requires Distinct(pending') && forall x: nat :: x in pending' <==> x in pending && x != e
    ensures InvOk(env, g, c, pending', capped)
  {
  }

  lemma CapReached(env: Env, g: Graph, c: Option<nat>, pending: seq<nat>, capped: bool)
    requires InvOk(env, g, c, pending, capped)
    ensures InvOk(env, g, c, [], true)
  {
  }

  lemma EffectHere(env: Env, g: Graph, c: Option<nat>, pending: seq<nat>, capped: bool, e: nat)
    requires InvOk(env, g, c, pending, capped) && e < |g| && env.kinds[e].Effect?
    ensures StmtOk(env.kinds, env.kinds[e].action)
    ensures c.Some? ==> c.value < |g| == |env.kinds| && g[c.value].running && env.kinds[c.value].Effect?
    ensures !capped ==> Symmetric(g)
    ensures forall i: nat :: i < |g[e].deps| ==> g[e].deps[i] < |g|
  {
    assert KindOk(env.kinds, e);
    forall i: nat | i < |g[e].deps|
      ensures g[e].deps[i] < |g|
    {
      assert Dep(g, e, g[e].deps[i]);
    }
  }

  lemma BegunRunning(g: Graph, h: Graph, n: nat)
    requires Begun(g, h, n)
    ensures |h| == |g| && forall i: nat :: i < |g| && i != n ==> h[i].running == g[i].running
  {
  }

  lemma StoppedRunning(h: Graph, k: Graph, n: nat)
    requires n < |h| == |k|
    requires (exists prev :: Ended(h, k, n, prev)) || k == h[n := h[n].(running := false)]
    ensures forall i: nat :: i < |h| && i != n ==> k[i].running == h[i].running
  {
  }

  lemma PendingBelow(env: Env, g: Graph, c: Option<nat>, pending: seq<nat>, capped: bool)
    requires InvOk(env, g, c, pending, capped)
    ensures forall p :: p in pending ==> p < |g|
  {
  }

  lemma QueueOne(env: Env, g: Graph, c: Option<nat>, pending: seq<nat>, capped: bool, n: nat)
    requires InvOk(env, g, c, pending, capped) && n < |g| && env.kinds[n].Effect? && n !in pending
    ensures InvOk(env, g, c, Add(pending, n), capped) && Distinct(pending) && |env.sig| == |env.kinds|
  {
  }

  lemma GetOk(env: Env, g: Graph, c: Option<nat>, pending: seq<nat>, capped: bool, n: nat)
    requires InvOk(env, g, c, pending, capped) && IsSource(env.kinds, n)
    ensures ExprOk(env.kinds, Get(n), |env.kinds|) && |env.sig| == |env.kinds|
  {
  }

  lemma DroppedRunning(h: Graph, k: Graph, n: nat, gone: set<nat>)
    requires Dropped(h, k, n, gone)
    ensures |k| == |h| && forall i: nat :: i < |h| ==> k[i].running == h[i].running && k[i].disposed == h[i].disposed
  {
  }
}
