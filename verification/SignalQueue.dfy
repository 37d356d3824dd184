// The queue of effects: which of them a flush runs, and in which order.
module SignalQueue {
  import opened Options
  import opened SignalEffects
  import opened SignalGraph

  const MAX_FLUSH_ITERATIONS: nat := 1000

  predicate Waits(g: Graph, e: nat) {
    e < |g| && !g[e].running && !g[e].disposed
  }

  // The queued effects that a flush may run, in the order they were queued.
  function Runnable(g: Graph, q: seq<nat>): seq<nat> {
    if q == [] then []
    else
      var last := q[|q| - 1];
      Runnable(g, q[..|q| - 1]) + if Waits(g, last) then [last] else []
  }

  // What a flush runs: everything that was waiting, in order, and then `more`, which the
  // runs themselves queued; or the first of these up to the cap, if they exceed it.
  ghost predicate FlushOrder(order: seq<nat>, waiting: seq<nat>, more: seq<nat>, ok: bool) {
    if ok then order == waiting + more && |order| <= MAX_FLUSH_ITERATIONS
    else |order| == MAX_FLUSH_ITERATIONS < |waiting + more| && order == (waiting + more)[..MAX_FLUSH_ITERATIONS]
  }

  // No body in the queue writes anything.
  ghost predicate AllPlain(kinds: seq<Kind>, q: seq<nat>) {
    forall p: nat :: p in q && p < |kinds| && kinds[p].Effect? ==> Plain(kinds[p].action)
  }

  // The effects run are those queued in `q`, in turn, and then what their runs queued;
  // bodies that write nothing queue nothing.
  ghost predicate InTurn(kinds: seq<Kind>, g: Graph, q: seq<nat>, order: seq<nat>, ok: bool) {
    exists more ::
      FlushOrder(order, Runnable(g, q), more, ok) && AllWait(g, more) && (AllPlain(kinds, q) ==> more == [])
  }

  // Neither running nor disposed, every one of them.
  ghost predicate AllWait(g: Graph, q: seq<nat>) {
    forall e :: e in q ==> Waits(g, e)
  }

  // A flush never runs an effect that is disposed, or one that is still running.
  lemma OnlyWaitingRun(kinds: seq<Kind>, g: Graph, q: seq<nat>, order: seq<nat>, ok: bool)
    requires InTurn(kinds, g, q, order, ok)
    ensures |order| <= MAX_FLUSH_ITERATIONS && AllWait(g, order)
  {
    hide Waits;
    RunnableIs(g, q);
    var more :| FlushOrder(order, Runnable(g, q), more, ok) && AllWait(g, more) && (AllPlain(kinds, q) ==> more == []);
    assert forall e :: e in order ==> e in Runnable(g, q) + more;
  }

  // An effect is among the runnable ones exactly if it is queued and waits.
  lemma {:induction false} RunnableIs(g: Graph, q: seq<nat>)
    ensures forall e :: e in Runnable(g, q) <==> e in q && Waits(g, e)
  {
    hide Waits;
    if q != [] {
      RunnableIs(g, q[..|q| - 1]);
      assert q == q[..|q| - 1] + [q[|q| - 1]];
    }
  }

  // Where all of a queue wait, they are runnable as they stand.
  lemma {:induction false} AllRunnable(g: Graph, q: seq<nat>)
    requires AllWait(g, q)
    ensures Runnable(g, q) == q
  {
    hide Waits;
    if q != [] {
      var init, last := q[..|q| - 1], q[|q| - 1];
      assert q == init + [last] && last in q && forall e :: e in init ==> e in q;
      AllRunnable(g, init);
    }
  }

  // Queued effects that write nothing run exactly once each, in the order of the queue, and
  // the flush succeeds exactly if the cap allows them all.
  lemma PlainQueueRunsOnce(kinds: seq<Kind>, g: Graph, q: seq<nat>, order: seq<nat>, ok: bool)
    requires InTurn(kinds, g, q, order, ok) && AllPlain(kinds, q)
    ensures ok <==> |Runnable(g, q)| <= MAX_FLUSH_ITERATIONS
    ensures order == if ok then Runnable(g, q) else Runnable(g, q)[..MAX_FLUSH_ITERATIONS]
  {
    var more :| FlushOrder(order, Runnable(g, q), more, ok) && AllWait(g, more) && (AllPlain(kinds, q) ==> more == []);
    assert Runnable(g, q) + [] == Runnable(g, q);
  }

  // After a write: what was queued, and then each effect that the written signal reaches.
  ghost predicate Queued(kinds: seq<Kind>, g: Graph, s: nat, before: seq<nat>, queue: seq<nat>) {
    && |g| == |kinds| && before <= queue && Distinct(queue)
    && forall e: nat :: e in queue <==>
         e in before || (e < |g| && kinds[e].Effect? && Reachable(kinds, g, s, e))
  }

  // A flush after a write runs these in turn.
  ghost predicate RunsReached(kinds: seq<Kind>, g: Graph, s: nat, before: seq<nat>, order: seq<nat>, ok: bool) {
    exists queue :: Queued(kinds, g, s, before, queue) && InTurn(kinds, g, queue, order, ok)
  }

  // The runnable ones depend on nothing but who is running and who is disposed.
  lemma InTurnSame(kinds: seq<Kind>, g: Graph, h: Graph, q: seq<nat>, order: seq<nat>, ok: bool)
    requires RunFrame(g, h, None) && InTurn(kinds, h, q, order, ok)
    ensures InTurn(kinds, g, q, order, ok)
  {
    RunnableSame(g, h, q);
  }

  lemma NothingInTurn(kinds: seq<Kind>, g: Graph, q: seq<nat>)
    requires forall p: nat :: p in q && p < |g| ==> g[p].running
    ensures InTurn(kinds, g, q, [], true)
  {
    NoneRunnable(g, q);
    assert FlushOrder([], Runnable(g, q), [], true);
  }

  lemma {:induction false} RunnableAppend(g: Graph, q: seq<nat>, more: seq<nat>)
    ensures Runnable(g, q + more) == Runnable(g, q) + Runnable(g, more)
  {
    hide Waits;
    if more == [] {
      assert q + more == q;
    } else {
      var init := more[..|more| - 1];
      RunnableAppend(g, q, init);
      assert (q + more)[..|q + more| - 1] == q + init;
    }
  }

  lemma {:induction false} RunnableSame(g: Graph, h: Graph, q: seq<nat>)
    requires |h| == |g|
    requires forall i: nat :: i < |g| ==> h[i].running == g[i].running && h[i].disposed == g[i].disposed
    ensures Runnable(h, q) == Runnable(g, q)
  {
    if q != [] {
      RunnableSame(g, h, q[..|q| - 1]);
    }
  }

  lemma {:induction false} NoneRunnable(g: Graph, q: seq<nat>)
    requires forall k: nat :: k < |q| ==> !Waits(g, q[k])
    ensures Runnable(g, q) == []
  {
    if q != [] {
      NoneRunnable(g, q[..|q| - 1]);
    }
  }

  lemma {:induction false} RemoveAt(q: seq<nat>, i: nat)
    requires Distinct(q) && i < |q|
    ensures Remove(q, q[i]) == q[..i] + q[i + 1..]
  {
    if i == 0 {
      RemoveAbsent(q[1..], q[0]);
    } else {
      assert q[0] != q[i];
      RemoveAt(q[1..], i - 1);
      assert q[..i] + q[i + 1..] == [q[0]] + (q[1..][..i - 1] + q[1..][i..]);
    }
  }

  lemma {:induction false} RemoveAbsent(q: seq<nat>, x: nat)
    requires x !in q
    ensures Remove(q, x) == q
  {
    if q != [] {
      RemoveAbsent(q[1..], x);
    }
  }

  // Taking the first effect that is not mid-run.
  lemma RunnableTake(g: Graph, q: seq<nat>, i: nat)
    requires Distinct(q) && i < |q| && forall k: nat :: k < i ==> !Waits(g, q[k])
    ensures Runnable(g, q) == (if Waits(g, q[i]) then [q[i]] else []) + Runnable(g, Remove(q, q[i]))
  {
    hide Waits;
    var front, back := q[..i], q[i + 1..];
    RemoveAt(q, i);
    NoneRunnable(g, front);
    RunnableAppend(g, front, back);
    RunnableAppend(g, front + [q[i]], back);
    RunnableAppend(g, front, [q[i]]);
    assert q == front + [q[i]] + back;
    assert Runnable(g, [q[i]]) == if Waits(g, q[i]) then [q[i]] else [] by {
      assert [q[i]][..0] == [];
      NoneRunnable(g, []);
    }
  }
}
