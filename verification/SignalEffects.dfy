// What running an effect's body means: the writes it makes and the sources it reads.
module SignalEffects {
  import opened Options
  import opened SignalGraph

  // The signals after the body has run with nothing else running in between.
  function Exec(env: Env, st: Stmt): (r: Env)
    requires |env.sig| == |env.kinds|
    ensures r.kinds == env.kinds && |r.sig| == |r.kinds|
    decreases st
  {
    match st
    case Skip => env
    case Do(_) => env
    case Put(d, e) => if d < |env.sig| then env.(sig := env.sig[d := Eval(env, e, |env.kinds|)]) else env
    case Then(a, b) => Exec(Exec(env, a), b)
    case Branch(c, a, b) => if Eval(env, c, |env.kinds|) != 0 then Exec(env, a) else Exec(env, b)
    case Batch(a) => Exec(env, a)
  }

  // The sources it reads on the way, while tracked.
  function Reads(env: Env, st: Stmt): set<nat>
    requires |env.sig| == |env.kinds|
    decreases st
  {
    match st
    case Skip => {}
    case Do(e) => Trace(env, e, |env.kinds|)
    case Put(_, e) => Trace(env, e, |env.kinds|)
    case Then(a, b) => Reads(env, a) + Reads(Exec(env, a), b)
    case Branch(c, a, b) =>
      Trace(env, c, |env.kinds|) + if Eval(env, c, |env.kinds|) != 0 then Reads(env, a) else Reads(env, b)
    case Batch(a) => Reads(env, a)
  }

  function ExecAll(env: Env, order: seq<nat>): (r: Env)
    requires |env.sig| == |env.kinds|
    ensures r.kinds == env.kinds && |r.sig| == |r.kinds|
  {
    if order == [] then env
    else
      var before, e := ExecAll(env, order[..|order| - 1]), order[|order| - 1];
      if e < |env.kinds| && env.kinds[e].Effect? then Exec(before, env.kinds[e].action) else before
  }

  lemma ExecNone(env: Env)
    requires |env.sig| == |env.kinds|
    ensures ExecAll(env, []) == env
  {
  }

  lemma ExecNext(env: Env, order: seq<nat>, e: nat)
    requires |env.sig| == |env.kinds| && e < |env.kinds| && env.kinds[e].Effect?
    ensures ExecAll(env, order + [e]) == Exec(ExecAll(env, order), env.kinds[e].action)
  {
  }

  // When a body runs undisturbed: inside a flush or a batch its writes flush nothing, and a
  // plain body has none.
  predicate Calm(draining: bool, batchDepth: nat, st: Stmt) {
    draining || batchDepth > 0 || Plain(st)
  }

  // Outside a flush and a batch every write of a body is followed by a flush, and so is the
  // end of a batch in it: which effects those ran, in the order of the body.
  datatype Script = Quiet | Flush(order: seq<nat>) | Both(first: Script, second: Script)

  // The signals after the body has run with those flushes in between.
  function ExecOpen(env: Env, st: Stmt, script: Script): (r: Env)
    requires |env.sig| == |env.kinds|
    ensures r.kinds == env.kinds && |r.sig| == |r.kinds|
    decreases st
  {
    match st
    case Skip => env
    case Do(_) => env
    case Put(_, _) => if script.Flush? then ExecAll(Exec(env, st), script.order) else Exec(env, st)
    case Then(a, b) => if script.Both? then ExecOpen(ExecOpen(env, a, script.first), b, script.second) else env
    case Branch(c, a, b) =>
      if Eval(env, c, |env.kinds|) != 0 then ExecOpen(env, a, script) else ExecOpen(env, b, script)
    case Batch(a) => if script.Flush? then ExecAll(Exec(env, a), script.order) else Exec(env, a)
  }

  // What it reads on the way.
  function ReadsOpen(env: Env, st: Stmt, script: Script): set<nat>
    requires |env.sig| == |env.kinds|
    decreases st
  {
    match st
    case Then(a, b) =>
      if script.Both? then
        ReadsOpen(env, a, script.first) + ReadsOpen(ExecOpen(env, a, script.first), b, script.second)
      else {}
    case Branch(c, a, b) =>
      var chosen := if Eval(env, c, |env.kinds|) != 0 then a else b;
      Trace(env, c, |env.kinds|) + ReadsOpen(env, chosen, script)
    case _ => Reads(env, st)
  }

  lemma BranchMeans(env: Env, c: Expr, a: Stmt, b: Stmt, script: Script)
    requires |env.sig| == |env.kinds|
    ensures var st, chosen := Branch(c, a, b), if Eval(env, c, |env.kinds|) != 0 then a else b;
      && Exec(env, st) == Exec(env, chosen) && ExecOpen(env, st, script) == ExecOpen(env, chosen, script)
      && Reads(env, st) == Trace(env, c, |env.kinds|) + Reads(env, chosen)
      && ReadsOpen(env, st, script) == Trace(env, c, |env.kinds|) + ReadsOpen(env, chosen, script)
  {
  }

  lemma BatchMeans(env: Env, a: Stmt, order: seq<nat>)
    requires |env.sig| == |env.kinds|
    ensures Exec(env, Batch(a)) == Exec(env, a) && ExecOpen(env, Batch(a), Flush(order)) == ExecAll(Exec(env, a), order)
    ensures Reads(env, Batch(a)) == Reads(env, a) == ReadsOpen(env, Batch(a), Flush(order))
  {
  }

  // A body that writes nothing and reads nothing untracked.
  predicate Plain(st: Stmt) {
    match st
    case Skip => true
    case Do(e) => Tracked(e)
    case Put(_, _) => false
    case Then(a, b) => Plain(a) && Plain(b)
    case Branch(c, a, b) => Tracked(c) && Plain(a) && Plain(b)
    case Batch(a) => Plain(a)
  }

  lemma {:induction false} PlainWritesNothing(env: Env, st: Stmt)
    requires |env.sig| == |env.kinds| && Plain(st)
    ensures Exec(env, st) == env
  {
    match st
    case Then(a, b) => PlainWritesNothing(env, a); PlainWritesNothing(env, b);
    case Branch(c, a, b) => PlainWritesNothing(env, a); PlainWritesNothing(env, b);
    case Batch(a) => PlainWritesNothing(env, a);
    case _ =>
  }

  // What a plain body reads depends only on the values it reads.
  lemma {:induction false} ReadsDependOnReads(env: Env, env': Env, st: Stmt)
    requires |env.sig| == |env.kinds| == |env'.sig| && env'.kinds == env.kinds && Plain(st)
    requires forall s :: s in Reads(env, st) ==> Val(env, s) == Val(env', s)
    ensures Reads(env', st) == Reads(env, st)
  {
    match st
    case Skip =>
    case Do(e) => EvalDependsOnTrace(env, env', e, |env.kinds|);
    case Then(a, b) =>
      PlainWritesNothing(env, a);
      PlainWritesNothing(env', a);
      ReadsDependOnReads(env, env', a);
      ReadsDependOnReads(env, env', b);
    case Branch(c, a, b) =>
      EvalDependsOnTrace(env, env', c, |env.kinds|);
      if Eval(env, c, |env.kinds|) != 0 {
        ReadsDependOnReads(env, env', a);
      } else {
        ReadsDependOnReads(env, env', b);
      }
    case Batch(a) => ReadsDependOnReads(env, env', a);
  }

  lemma {:induction false} ReadsGrow(env: Env, k: Kind, v: int, st: Stmt)
    requires |env.sig| == |env.kinds| && StmtOk(env.kinds, st) && Plain(st)
    ensures Reads(Grown(env, k, v), st) == Reads(env, st)
  {
    match st
    case Skip =>
    case Do(e) => TraceGrows(env, k, v, e);
    case Then(a, b) =>
      PlainWritesNothing(env, a);
      PlainWritesNothing(Grown(env, k, v), a);
      ReadsGrow(env, k, v, a);
      ReadsGrow(env, k, v, b);
    case Branch(c, a, b) =>
      TraceGrows(env, k, v, c);
      ReadsGrow(env, k, v, a);
      ReadsGrow(env, k, v, b);
    case Batch(a) => ReadsGrow(env, k, v, a);
  }

  // One node more at the end changes nothing for an expression over the others.
  lemma {:induction false} TraceGrows(env: Env, k: Kind, v: int, e: Expr)
    requires |env.sig| == |env.kinds| && ExprOk(env.kinds, e, |env.kinds|)
    ensures Eval(Grown(env, k, v), e, |env.kinds| + 1) == Eval(env, e, |env.kinds|)
    ensures Trace(Grown(env, k, v), e, |env.kinds| + 1) == Trace(env, e, |env.kinds|)
  {
    match e
    case Lit(_) =>
    case Get(s) => ValGrows(env, k, v, s);
    case Op(_, a, b) => TraceGrows(env, k, v, a); TraceGrows(env, k, v, b);
    case If(c, t, f) => TraceGrows(env, k, v, c); TraceGrows(env, k, v, t); TraceGrows(env, k, v, f);
    case Untrack(b) => TraceGrows(env, k, v, b);
  }

  // ---------------------------------------------------------------------------
  // Dependencies
  // ---------------------------------------------------------------------------

  // The consumer has come to depend on exactly `t` besides.
  ghost predicate DepsGrow(g: Graph, h: Graph, c: Option<nat>, t: set<nat>) {
    c.Some? ==> forall d: nat :: Dep(h, c.value, d) <==> Dep(g, c.value, d) || d in t
  }

  lemma DepsGrowTrans(g: Graph, h: Graph, k: Graph, c: Option<nat>, t: set<nat>, u: set<nat>)
    requires DepsGrow(g, h, c, t) && DepsGrow(h, k, c, u)
    ensures DepsGrow(g, k, c, t + u)
  {
  }

  lemma DepsGrowNone(g: Graph, h: Graph, c: Option<nat>)
    requires |g| == |h| && forall i: nat :: i < |g| ==> h[i].deps == g[i].deps
    ensures DepsGrow(g, h, c, {})
  {
  }

  // What runs without a consumer adds nothing to the present one.
  lemma DepsGrowFrame(g: Graph, h: Graph, c: Option<nat>)
    requires RunFrame(g, h, None) && (c.Some? ==> c.value < |g| && g[c.value].running)
    ensures DepsGrow(g, h, c, {})
  {
  }

  ghost predicate DependsExactly(g: Graph, e: nat, t: set<nat>) {
    forall d: nat :: Dep(g, e, d) <==> d in t
  }

  lemma DependsAfterRun(g: Graph, b: Graph, h: Graph, k: Graph, e: nat, t: set<nat>, prev: seq<nat>)
    requires Begun(g, b, e) && DepsGrow(b, h, Some(e), t) && Ended(h, k, e, prev)
    ensures DependsExactly(k, e, t)
  {
  }

  // Every effect with a plain body that is neither queued nor running depends on exactly
  // what its body would read now; `but` is one that has not run yet.
  ghost predicate Thorough(env: Env, g: Graph, pending: seq<nat>, but: Option<nat>)
    requires |env.sig| == |env.kinds|
  {
    forall e: nat :: e < |g| && e < |env.kinds| && env.kinds[e].Effect? && e !in pending && but != Some(e) ==>
      Settles(env, g, e)
  }

  ghost predicate Settles(env: Env, g: Graph, e: nat)
    requires |env.sig| == |env.kinds| && e < |g| && e < |env.kinds| && env.kinds[e].Effect?
  {
    !g[e].running && !g[e].disposed && Plain(env.kinds[e].action) ==>
      DependsExactly(g, e, Reads(env, env.kinds[e].action))
  }

  lemma ThoroughWrite(env: Env, g: Graph, h: Graph, s: nat, v: int, r: set<nat>, pending: seq<nat>,
                      pending': seq<nat>, but: Option<nat>)
    requires Core(env, g) && s < |g| && env.kinds[s].Signal?
    requires Thorough(env, g, pending, but) && EffectsInSync(env, g, pending)
    requires Marked(env.kinds, g, h, s, v, r) && r == set n: nat | n < |g| && Reachable(env.kinds, g, s, n)
    requires forall e: nat :: e in pending' <==> e in pending || (e in r && env.kinds[e].Effect?)
    ensures Thorough(env.(sig := env.sig[s := v]), h, pending', but)
  {
    var env' := env.(sig := env.sig[s := v]);
    forall e: nat | e < |h| && env'.kinds[e].Effect? && e !in pending' && but != Some(e)
      ensures Settles(env', h, e)
    {
      assert Settles(env, g, e) && InSync(env, g, e);
      assert forall d: nat :: Dep(h, e, d) <==> Dep(g, e, d);
      if !g[e].running && !g[e].disposed && Plain(env.kinds[e].action) {
        forall d | d in Reads(env, env.kinds[e].action)
          ensures Val(env, d) == Val(env', d)
        {
          assert Dep(g, e, d);
          UnreachedKeepsValue(env, g, h, s, v, r, e, d);
        }
        ReadsDependOnReads(env, env', env.kinds[e].action);
      }
    }
  }

  lemma UnreachedKeepsValue(env: Env, g: Graph, h: Graph, s: nat, v: int, r: set<nat>, e: nat, d: nat)
    requires Core(env, g) && s < |g| && env.kinds[s].Signal? && e < |g| && e !in r && Dep(g, e, d) && InSync(env, g, e)
    requires Marked(env.kinds, g, h, s, v, r) && r == set n: nat | n < |g| && Reachable(env.kinds, g, s, n)
    ensures Val(env.(sig := env.sig[s := v]), d) == Val(env, d)
  {
    if d == s || d in r {
      ReachStep(env.kinds, g, s, d, e);
    }
    UnmarkedKeepsValue(env, g, h, s, v, r, d);
  }

  lemma ThoroughEnded(env: Env, h: Graph, k: Graph, pending: seq<nat>, e: nat, prev: seq<nat>)
    requires |env.sig| == |env.kinds| == |h| && Thorough(env, h, pending, None) && Ended(h, k, e, prev)
    requires e < |env.kinds| && env.kinds[e].Effect? && Settles(env, k, e)
    ensures Thorough(env, k, pending, None)
  {
  }

  lemma ThoroughGrown(env: Env, g: Graph, k: Kind, st: NodeState, pending: seq<nat>)
    requires EnvOk(env) && |g| == |env.kinds| && Thorough(env, g, pending, None)
    ensures Thorough(Grown(env, k, st.value), g + [st], pending, Some(|g|))
    ensures !k.Effect? ==> Thorough(Grown(env, k, st.value), g + [st], pending, None)
  {
    var env', h := Grown(env, k, st.value), g + [st];
    forall e: nat | e < |g| && env.kinds[e].Effect? && e !in pending
      ensures Settles(env', h, e)
    {
      assert Settles(env, g, e) && KindOk(env.kinds, e);
      assert forall d: nat :: Dep(h, e, d) <==> Dep(g, e, d);
      if Plain(env.kinds[e].action) {
        ReadsGrow(env, k, st.value, env.kinds[e].action);
      }
    }
  }

  // ---------------------------------------------------------------------------
  // The same under the invariant between statements
  // ---------------------------------------------------------------------------

  ghost predicate Through(env: Env, g: Graph, pending: seq<nat>, capped: bool, but: Option<nat>) {
    capped || (|env.sig| == |env.kinds| == |g| && Thorough(env, g, pending, but))
  }

  lemma ThroughRead(env: Env, g: Graph, h: Graph, c: Option<nat>, pending: seq<nat>, capped: bool, t: set<nat>)
    requires InvOk(env, g, c, pending, capped) && Through(env, g, pending, capped, None)
    requires ReadFrame(env.kinds, g, h, c) && Gathers(env, g, h, c, t)
    ensures Through(env, h, pending, capped, None) && DepsGrow(g, h, c, t)
  {
  }

  lemma ThroughWrite(env: Env, g: Graph, h: Graph, c: Option<nat>, s: nat, v: int, r: set<nat>,
                     pending: seq<nat>, pending': seq<nat>, capped: bool)
    requires InvOk(env, g, c, pending, capped) && Through(env, g, pending, capped, None)
    requires s < |g| && env.kinds[s].Signal?
    requires Marked(env.kinds, g, h, s, v, r) && r == set n: nat | n < |g| && Reachable(env.kinds, g, s, n)
    requires forall e: nat :: e in pending' <==> e in pending || (e in r && env.kinds[e].Effect?)
    ensures Through(env.(sig := env.sig[s := v]), h, pending', capped, None) && DepsGrow(g, h, c, {})
  {
    if !capped {
      ThoroughWrite(env, g, h, s, v, r, pending, pending', None);
    }
    DepsGrowNone(g, h, c);
  }

  lemma ThroughBegun(env: Env, g: Graph, h: Graph, c: Option<nat>, queue: seq<nat>, pending: seq<nat>,
                     capped: bool, e: nat)
    requires InvOk(env, g, c, queue, capped) && Through(env, g, pending, capped, Some(e)) && Begun(g, h, e)
    ensures Through(env, h, pending, capped, None)
  {
  }

  // After an effect's run its dependencies are what the body read.
  lemma ThroughEnded(env0: Env, env: Env, g: Graph, b: Graph, h: Graph, k: Graph, pending: seq<nat>,
                     capped: bool, e: nat, prev: seq<nat>)
    requires |env0.sig| == |env0.kinds| && e < |env0.kinds| && env0.kinds[e].Effect? && env.kinds == env0.kinds
    requires Through(env, h, pending, capped, None) && Begun(g, b, e) && Ended(h, k, e, prev)
    requires Plain(env0.kinds[e].action) ==>
      env == Exec(env0, env0.kinds[e].action) && DepsGrow(b, h, Some(e), Reads(env0, env0.kinds[e].action))
    ensures Through(env, k, pending, capped, None)
  {
    if !capped {
      var action := env0.kinds[e].action;
      if Plain(action) {
        PlainWritesNothing(env0, action);
        DependsAfterRun(g, b, h, k, e, Reads(env0, action), prev);
      }
      ThoroughEnded(env, h, k, pending, e, prev);
    }
  }

  lemma ThroughDequeued(env: Env, g: Graph, pending: seq<nat>, pending': seq<nat>, capped: bool, e: nat)
    requires Through(env, g, pending, capped, None) && forall x: nat :: x in pending' <==> x in pending && x != e
    ensures Through(env, g, pending', capped, Some(e))
    ensures e < |g| && g[e].disposed ==> Through(env, g, pending', capped, None)
  {
  }

  lemma ThroughGrown(env: Env, g: Graph, k: Kind, st: NodeState, c: Option<nat>, pending: seq<nat>, capped: bool)
    requires InvOk(env, g, c, pending, capped) && Through(env, g, pending, capped, None)
    ensures Through(Grown(env, k, st.value), g + [st], pending, capped, if k.Effect? then Some(|g|) else None)
  {
    if !capped {
      ThoroughGrown(env, g, k, st, pending);
    }
  }

  lemma ThroughDisposed(env: Env, g: Graph, h: Graph, k: Graph, pending: seq<nat>, capped: bool, e: nat, gone: set<nat>)
    requires Through(env, g, pending, capped, None) && e < |g| && h == g[e := g[e].(disposed := true, deps := [])]
    requires Dropped(h, k, e, gone) && forall d: nat :: d in gone <==> d in g[e].deps
    ensures Through(env, k, pending, capped, None)
  {
  }

  lemma ThroughCapped(env: Env, g: Graph, pending: seq<nat>, but: Option<nat>)
    ensures Through(env, g, pending, true, but)
  {
  }

  lemma ThroughRest(env: Env, g: Graph)
    requires Through(env, g, [], false, None)
    requires forall i: nat :: i < |g| ==> !g[i].running
    ensures |env.sig| == |env.kinds| == |g|
    ensures forall e: nat :: e < |g| && env.kinds[e].Effect? && !g[e].disposed && Plain(env.kinds[e].action) ==>
      DependsExactly(g, e, Reads(env, env.kinds[e].action))
  {
  }
}
