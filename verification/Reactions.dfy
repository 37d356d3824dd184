// Reactions: the server's grouped aggregate for a viewer, and the client's folding of the
// deltas that are broadcast.
module Reactions {
  import opened Text
  import opened Paging
  import opened Messages
  import ClientLog
  type Rx = ClientLog.Rx

  // ---------------------------------------------------------------------------
  // The aggregate
  // ---------------------------------------------------------------------------

  // Who reacted to a message with an emoji.
  function Who(table: set<Reaction>, m: Id, e: string): set<Reaction> {
    set r | r in table && r.message == m && r.emoji == e
  }

  function Count(table: set<Reaction>, m: Id, e: string): nat {
    |Who(table, m, e)|
  }

  predicate Lists(rx: seq<Rx>, e: string) {
    exists i :: 0 <= i < |rx| && rx[i].emoji == e
  }

  predicate Line(x: Rx, table: set<Reaction>, m: Id, viewer: Id) {
    && x.count == Count(table, m, x.emoji) && x.count >= 1
    && (x.me <==> Reaction(m, viewer, x.emoji) in table)
  }

  predicate DistinctLines(rx: seq<Rx>) {
    forall i, j :: 0 <= i < j < |rx| ==> rx[i].emoji != rx[j].emoji
  }

  // The lines are the server's aggregate for the viewer: one for each emoji in use, with
  // its count and whether the viewer is among them, and none that is empty or repeated.
  ghost predicate Agrees(rx: seq<Rx>, table: set<Reaction>, m: Id, viewer: Id) {
    && DistinctLines(rx)
    && (forall i :: 0 <= i < |rx| ==> Line(rx[i], table, m, viewer))
    && forall e :: Count(table, m, e) > 0 ==> Lists(rx, e)
  }

  // The most used come first, and lines of one count by their emoji.
  predicate Ahead(x: Rx, y: Rx) {
    x.count > y.count || (x.count == y.count && TextLess(x.emoji, y.emoji))
  }

  predicate MostUsedFirst(rx: seq<Rx>) {
    forall i, j :: 0 <= i < j < |rx| ==> Ahead(rx[i], rx[j])
  }

  // Grouping the table by emoji, and ordering, gives such lines.
  method ReactionsFor(table: set<Reaction>, m: Id, viewer: Id) returns (rx: seq<Rx>)
    ensures Agrees(rx, table, m, viewer) && MostUsedFirst(rx)
  {
    hide Ahead, MostUsedFirst;
    NoLines();
    rx := [];
    var left := set r | r in table && r.message == m :: r.emoji;
    forall e | e in left
      ensures Count(table, m, e) > 0
    {
      var r :| r in table && r.message == m && r.emoji == e;
      SomeoneCounts(table, r);
    }
    while left != {}
      invariant forall e :: e in left ==> !Lists(rx, e) && Count(table, m, e) > 0
      invariant DistinctLines(rx) && forall i :: 0 <= i < |rx| ==> Line(rx[i], table, m, viewer)
      invariant forall r :: r in table && r.message == m ==> r.emoji in left || Lists(rx, r.emoji)
      invariant MostUsedFirst(rx)
      decreases |left|
    {
      var e :| e in left;
      var line := ClientLog.Rx(e, Count(table, m, e), Reaction(m, viewer, e) in table);
      assert Line(line, table, m, viewer);
      PlacedIs(rx, line);
      LinesPlaced(rx, line, table, m, viewer);
      left, rx := left - {e}, Placed(rx, line);
    }
    forall e | Count(table, m, e) > 0
      ensures Lists(rx, e)
    {
      var r :| r in Who(table, m, e);
    }
  }

  lemma NoLines()
    ensures MostUsedFirst([])
  {
  }

  function Placed(rx: seq<Rx>, x: Rx): seq<Rx> {
    if rx == [] || Ahead(x, rx[0]) then [x] + rx else [rx[0]] + Placed(rx[1..], x)
  }

  lemma {:induction false} PlacedIs(rx: seq<Rx>, x: Rx)
    requires MostUsedFirst(rx) && DistinctLines(rx) && !Lists(rx, x.emoji)
    ensures MostUsedFirst(Placed(rx, x)) && DistinctLines(Placed(rx, x))
    ensures forall y :: y in Placed(rx, x) <==> y in rx || y == x
    ensures forall e :: Lists(Placed(rx, x), e) <==> Lists(rx, e) || e == x.emoji
  {
    hide Ahead;
    if rx != [] && !Ahead(x, rx[0]) {
      var rest := rx[1..];
      assert rx == [rx[0]] + rest;
      ListsFirst(rx[0], rest);
      PlacedIs(rest, x);
      AheadTotal(rx[0], x);
      ListsFirst(rx[0], Placed(rest, x));
      FirstAhead(rx[0], Placed(rest, x), rest, x);
    } else {
      ListsFirst(x, rx);
      forall i | 0 <= i < |rx|
        ensures Ahead(x, rx[i])
      {
        if i > 0 {
          AheadTransitive(x, rx[0], rx[i]);
        }
      }
      FirstAhead(x, rx, rx, x);
    }
  }

  lemma LinesPlaced(rx: seq<Rx>, x: Rx, table: set<Reaction>, m: Id, viewer: Id)
    requires MostUsedFirst(rx) && DistinctLines(rx) && !Lists(rx, x.emoji)
    requires Line(x, table, m, viewer) && forall i :: 0 <= i < |rx| ==> Line(rx[i], table, m, viewer)
    ensures forall i :: 0 <= i < |Placed(rx, x)| ==> Line(Placed(rx, x)[i], table, m, viewer)
  {
    PlacedIs(rx, x);
    forall i | 0 <= i < |Placed(rx, x)|
      ensures Line(Placed(rx, x)[i], table, m, viewer)
    {
      assert Placed(rx, x)[i] in Placed(rx, x);
    }
  }

  // `x` before lines that are all behind it.
  lemma FirstAhead(x: Rx, rx: seq<Rx>, rest: seq<Rx>, last: Rx)
    requires MostUsedFirst(rx) && DistinctLines(rx) && !Lists(rx, x.emoji)
    requires forall y :: y in rx ==> y in rest || y == last
    requires (forall y :: y in rest ==> Ahead(x, y)) && (last in rx ==> Ahead(x, last))
    ensures MostUsedFirst([x] + rx) && DistinctLines([x] + rx)
  {
    hide Ahead;
    assert forall i :: 0 <= i < |rx| ==> rx[i] in rx;
  }

  lemma ListsFirst(x: Rx, rest: seq<Rx>)
    ensures forall e :: Lists([x] + rest, e) <==> Lists(rest, e) || e == x.emoji
  {
    var rx := [x] + rest;
    forall e
      ensures Lists(rx, e) <==> Lists(rest, e) || e == x.emoji
    {
      assert rx[0] == x;
      if Lists(rest, e) {
        var i :| 0 <= i < |rest| && rest[i].emoji == e;
        assert rx[i + 1].emoji == e;
      }
    }
  }

  lemma AheadTotal(x: Rx, y: Rx)
    requires x.emoji != y.emoji
    ensures Ahead(x, y) <==> !Ahead(y, x)
  {
    TextTotal(x.emoji, y.emoji);
  }

  lemma AheadTransitive(x: Rx, y: Rx, z: Rx)
    requires Ahead(x, y) && Ahead(y, z)
    ensures Ahead(x, z)
  {
    if TextLess(x.emoji, y.emoji) && TextLess(y.emoji, z.emoji) {
      TextTransitive(x.emoji, y.emoji, z.emoji);
    }
  }

  lemma SomeoneCounts(table: set<Reaction>, r: Reaction)
    ensures r in table ==> Count(table, r.message, r.emoji) > 0
  {
    if r in table {
      assert r in Who(table, r.message, r.emoji);
    }
  }

  lemma ListsNext(rx: seq<Rx>, x: Rx)
    ensures forall e :: Lists(rx + [x], e) <==> Lists(rx, e) || e == x.emoji
  {
    forall e
      ensures Lists(rx + [x], e) <==> Lists(rx, e) || e == x.emoji
    {
      assert (rx + [x])[|rx|] == x;
      if Lists(rx, e) {
        var i :| 0 <= i < |rx| && rx[i].emoji == e;
        assert (rx + [x])[i].emoji == e;
      }
    }
  }

  // ---------------------------------------------------------------------------
  // The client's fold
  // ---------------------------------------------------------------------------

  datatype Toggle = Toggle(user: Id, emoji: string, on: bool)

  function FindLine(rx: seq<Rx>, e: string): (at: int)
    ensures -1 <= at < |rx|
    ensures at >= 0 ==> rx[at].emoji == e
    ensures at < 0 <==> !Lists(rx, e)
  {
    if rx == [] then -1
    else if rx[0].emoji == e then 0
    else
      var rest := FindLine(rx[1..], e);
      assert rx == [rx[0]] + rx[1..];
      assert forall i :: 0 < i < |rx| ==> rx[1..][i - 1] == rx[i];
      if rest < 0 then -1 else rest + 1
  }

  function Fold(rx: seq<Rx>, t: Toggle, viewer: Id): seq<Rx> {
    var at := FindLine(rx, t.emoji);
    if t.on then
      if at < 0 then rx + [ClientLog.Rx(t.emoji, 1, t.user == viewer)]
      else rx[at := rx[at].(count := rx[at].count + 1, me := if t.user == viewer then true else rx[at].me)]
    else if at < 0 then rx
    else
      var less := rx[at].(count := rx[at].count - 1, me := if t.user == viewer then false else rx[at].me);
      if less.count <= 0 then rx[..at] + rx[at + 1..] else rx[at := less]
  }

  // ---------------------------------------------------------------------------
  // One toggle
  // ---------------------------------------------------------------------------

  function Toggled(table: set<Reaction>, m: Id, t: Toggle): set<Reaction> {
    if t.on then table + {Reaction(m, t.user, t.emoji)} else table - {Reaction(m, t.user, t.emoji)}
  }

  predicate Changes(table: set<Reaction>, m: Id, t: Toggle) {
    t.on != (Reaction(m, t.user, t.emoji) in table)
  }

  // A toggle that changes the table moves the count of its own emoji by one, and no other
  // count; one that does not moves nothing.
  lemma ToggleCounts(table: set<Reaction>, m: Id, t: Toggle, e: string)
    ensures !Changes(table, m, t) ==> Toggled(table, m, t) == table
    ensures Changes(table, m, t) ==>
      Count(Toggled(table, m, t), m, e) == Count(table, m, e) + if e != t.emoji then 0 else if t.on then 1 else -1
  {
    var it := Reaction(m, t.user, t.emoji);
    if e != t.emoji {
      assert Who(Toggled(table, m, t), m, e) == Who(table, m, e);
    } else if t.on {
      assert Who(Toggled(table, m, t), m, e) == Who(table, m, e) + {it};
    } else {
      assert Who(Toggled(table, m, t), m, e) == Who(table, m, e) - {it};
    }
  }

  // Folding the delta of a real change keeps the client in agreement with the server.
  lemma FoldAgrees(rx: seq<Rx>, table: set<Reaction>, m: Id, viewer: Id, t: Toggle)
    requires Agrees(rx, table, m, viewer) && Changes(table, m, t)
    ensures Agrees(Fold(rx, t, viewer), Toggled(table, m, t), m, viewer)
  {
    var rx', table' := Fold(rx, t, viewer), Toggled(table, m, t);
    var at := FindLine(rx, t.emoji);
    FoldLines(rx, table, m, viewer, t);
    forall i | 0 <= i < |rx'|
      ensures Line(rx'[i], table', m, viewer)
    {
      FoldedLine(rx, table, m, viewer, t, rx'[i]);
    }
    forall e | Count(table', m, e) > 0
      ensures Lists(rx', e)
    {
      ToggleCounts(table, m, t, e);
    }
  }

  // The folded list has the old lines except its own emoji's, which is there exactly when
  // its count is not zero.
  lemma FoldLines(rx: seq<Rx>, table: set<Reaction>, m: Id, viewer: Id, t: Toggle)
    requires Agrees(rx, table, m, viewer) && Changes(table, m, t)
    ensures DistinctLines(Fold(rx, t, viewer))
    ensures forall e :: Lists(Fold(rx, t, viewer), e) <==>
        if e == t.emoji then Count(Toggled(table, m, t), m, e) > 0 else Lists(rx, e)
    ensures forall x :: x in Fold(rx, t, viewer) && x.emoji != t.emoji ==> x in rx
    ensures forall x :: x in Fold(rx, t, viewer) && x.emoji == t.emoji ==> Updated(rx, t, viewer, x)
  {
    var rx' := Fold(rx, t, viewer);
    var at := FindLine(rx, t.emoji);
    ToggleCounts(table, m, t, t.emoji);
    if at < 0 {
      AbsentLine(rx, table, m, viewer, t);
    } else {
      assert Line(rx[at], table, m, viewer);
      PresentLine(rx, t, viewer, at);
    }
  }

  // The line of the toggled emoji afterwards.
  predicate Updated(rx: seq<Rx>, t: Toggle, viewer: Id, x: Rx) {
    var at := FindLine(rx, t.emoji);
    if at < 0 then t.on && x.count == 1 && x.me == (t.user == viewer)
    else x.count == rx[at].count + (if t.on then 1 else -1) && x.count > 0
           && x.me == if t.user == viewer then t.on else rx[at].me
  }

  lemma AbsentLine(rx: seq<Rx>, table: set<Reaction>, m: Id, viewer: Id, t: Toggle)
    requires Agrees(rx, table, m, viewer) && Changes(table, m, t) && FindLine(rx, t.emoji) < 0
    ensures t.on && Count(table, m, t.emoji) == 0
    ensures DistinctLines(Fold(rx, t, viewer))
    ensures forall e :: Lists(Fold(rx, t, viewer), e) <==> Lists(rx, e) || e == t.emoji
    ensures forall x :: x in Fold(rx, t, viewer) ==> if x.emoji == t.emoji then Updated(rx, t, viewer, x) else x in rx
  {
    assert Count(table, m, t.emoji) == 0;
    SomeoneCounts(table, Reaction(m, t.user, t.emoji));
    ListsNext(rx, ClientLog.Rx(t.emoji, 1, t.user == viewer));
  }

  lemma PresentLine(rx: seq<Rx>, t: Toggle, viewer: Id, at: nat)
    requires DistinctLines(rx) && at == FindLine(rx, t.emoji) && rx[at].count >= 1
    ensures var rx' := Fold(rx, t, viewer);
      && DistinctLines(rx')
      && (forall e :: Lists(rx', e) <==> if e == t.emoji then t.on || rx[at].count > 1 else Lists(rx, e))
      && forall x :: x in rx' ==> if x.emoji == t.emoji then Updated(rx, t, viewer, x) else x in rx
  {
    if !t.on && rx[at].count == 1 {
      LineRemoved(rx, at);
    } else {
      var x := rx[at].(count := rx[at].count + (if t.on then 1 else -1),
                     me := if t.user == viewer then t.on else rx[at].me);
      assert Fold(rx, t, viewer) == rx[at := x];
      LineReplaced(rx, at, x);
    }
  }

  lemma LineRemoved(rx: seq<Rx>, at: nat)
    requires DistinctLines(rx) && at < |rx|
    ensures var rx' := rx[..at] + rx[at + 1..];
      && DistinctLines(rx') && (forall e :: Lists(rx', e) <==> Lists(rx, e) && e != rx[at].emoji)
      && forall x :: x in rx' ==> x in rx && x.emoji != rx[at].emoji
  {
    var rx' := rx[..at] + rx[at + 1..];
    forall e
      ensures Lists(rx', e) <==> Lists(rx, e) && e != rx[at].emoji
    {
      if Lists(rx, e) && e != rx[at].emoji {
        var i :| 0 <= i < |rx| && rx[i].emoji == e;
        assert rx'[if i > at then i - 1 else i].emoji == e;
      }
    }
  }

  lemma LineReplaced(rx: seq<Rx>, at: nat, x: Rx)
    requires DistinctLines(rx) && at < |rx| && x.emoji == rx[at].emoji
    ensures var rx' := rx[at := x];
      && DistinctLines(rx') && (forall e :: Lists(rx', e) <==> Lists(rx, e))
      && forall y :: y in rx' ==> if y.emoji == x.emoji then y == x else y in rx
  {
    var rx' := rx[at := x];
    forall e
      ensures Lists(rx', e) <==> Lists(rx, e)
    {
      assert forall i :: 0 <= i < |rx| ==> rx'[i].emoji == rx[i].emoji;
    }
  }

  lemma FoldedLine(rx: seq<Rx>, table: set<Reaction>, m: Id, viewer: Id, t: Toggle, x: Rx)
    requires Agrees(rx, table, m, viewer) && Changes(table, m, t)
    requires if x.emoji == t.emoji then Updated(rx, t, viewer, x) else x in rx
    ensures Line(x, Toggled(table, m, t), m, viewer)
  {
    ToggleCounts(table, m, t, x.emoji);
    if x.emoji == t.emoji {
      var at := FindLine(rx, t.emoji);
      if at >= 0 {
        assert Line(rx[at], table, m, viewer);
      } else {
        assert Count(table, m, t.emoji) == 0;
        assert viewer != t.user ==> Reaction(m, viewer, t.emoji) !in Who(table, m, t.emoji);
      }
    }
  }

  // Folding the delta of a toggle that changed nothing would put the client wrong, except
  // for taking away an emoji nobody has: that is why only changes are broadcast.
  lemma FoldAgreesIff(rx: seq<Rx>, table: set<Reaction>, m: Id, viewer: Id, t: Toggle)
    requires Agrees(rx, table, m, viewer)
    ensures Agrees(Fold(rx, t, viewer), Toggled(table, m, t), m, viewer) <==>
        Changes(table, m, t) || (!t.on && Count(table, m, t.emoji) == 0)
  {
    ToggleCounts(table, m, t, t.emoji);
    var rx', at := Fold(rx, t, viewer), FindLine(rx, t.emoji);
    if Changes(table, m, t) {
      FoldAgrees(rx, table, m, viewer, t);
    } else if at < 0 {
      assert Count(table, m, t.emoji) == 0;
      SomeoneCounts(table, Reaction(m, t.user, t.emoji));
    } else {
      assert Line(rx[at], table, m, viewer);
      if !t.on && rx[at].count == 1 {
        PresentLine(rx, t, viewer, at);
        assert !Lists(rx', t.emoji);
      } else {
        assert rx'[at].count != Count(table, m, t.emoji);
        assert !Line(rx'[at], table, m, viewer);
      }
    }
  }

  // ---------------------------------------------------------------------------
  // Whole runs
  // ---------------------------------------------------------------------------

  // What happens to one message: someone toggles a reaction, and may or may not be a
  // member, or the message is deleted.
  datatype Event = React(t: Toggle, member: bool) | Delete

  // The reactions of the message on the server and on one client.
  datatype Both = Both(table: set<Reaction>, deleted: bool, rx: seq<Rx>)

  function Cleared(table: set<Reaction>, m: Id): set<Reaction> {
    set r | r in table && r.message != m
  }

  // A toggle is broadcast, and then folded, only if it is accepted and changes the table.
  function Step(s: Both, m: Id, viewer: Id, e: Event): Both {
    match e
    case React(t, member) =>
      if s.deleted || !member || !Changes(s.table, m, t) then s
      else s.(table := Toggled(s.table, m, t), rx := Fold(s.rx, t, viewer))
    case Delete =>
      if s.deleted then s else Both(Cleared(s.table, m), true, [])
  }

  function Run(s: Both, m: Id, viewer: Id, events: seq<Event>): Both {
    if events == [] then s else Step(Run(s, m, viewer, events[..|events| - 1]), m, viewer, events[|events| - 1])
  }

  // Main result: from a message that was hydrated for a viewer on, folding the broadcasts
  // keeps the client's lines equal to what hydrating it again would give, over every run.
  lemma {:induction false} FoldingRefinesTheAggregate(s: Both, m: Id, viewer: Id, events: seq<Event>)
    requires Agrees(s.rx, s.table, m, viewer)
    ensures var r := Run(s, m, viewer, events); Agrees(r.rx, r.table, m, viewer)
  {
    if events != [] {
      var before, e := Run(s, m, viewer, events[..|events| - 1]), events[|events| - 1];
      FoldingRefinesTheAggregate(s, m, viewer, events[..|events| - 1]);
      if e.React? && Changes(before.table, m, e.t) {
        FoldAgrees(before.rx, before.table, m, viewer, e.t);
      } else if e.Delete? && !before.deleted {
        forall x
          ensures Count(Cleared(before.table, m), m, x) == 0
        {
          assert Who(Cleared(before.table, m), m, x) == {};
        }
      }
    }
  }

  // Two sets of lines in agreement with one table hold the same lines.
  lemma AggregateIsUnique(a: seq<Rx>, b: seq<Rx>, table: set<Reaction>, m: Id, viewer: Id)
    requires Agrees(a, table, m, viewer) && Agrees(b, table, m, viewer)
    ensures forall x :: x in a <==> x in b
    ensures |a| == |b|
  {
    Included(a, b, table, m, viewer);
    Included(b, a, table, m, viewer);
    SameLength(a);
    SameLength(b);
    assert (set x | x in a) == set x | x in b;
  }

  // In the server's order they are the same sequence.
  lemma {:induction false} OrderIsUnique(a: seq<Rx>, b: seq<Rx>)
    requires MostUsedFirst(a) && MostUsedFirst(b) && forall x :: x in a <==> x in b
    ensures a == b
  {
    hide Ahead;
    assert a != [] ==> a[0] in b;
    assert b != [] ==> b[0] in a;
    if a != [] {
      FrontIsAhead(a, b);
      FrontIsAhead(b, a);
      FrontsMeet(a[0], b[0]);
      RestOf(a);
      RestOf(b);
      OrderIsUnique(a[1..], b[1..]);
      assert a == [a[0]] + a[1..] && b == [b[0]] + b[1..];
    }
  }

  lemma FrontIsAhead(a: seq<Rx>, b: seq<Rx>)
    requires a != [] && b != [] && MostUsedFirst(a) && forall x :: x in a <==> x in b
    ensures b[0] == a[0] || Ahead(a[0], b[0])
  {
    hide Ahead;
    assert b[0] in b;
    var i :| 0 <= i < |a| && a[i] == b[0];
  }

  lemma FrontsMeet(x: Rx, y: Rx)
    requires (x == y || Ahead(x, y)) && (x == y || Ahead(y, x))
    ensures x == y
  {
    TextTotal(x.emoji, y.emoji);
  }

  lemma RestOf(a: seq<Rx>)
    requires a != [] && MostUsedFirst(a)
    ensures MostUsedFirst(a[1..]) && forall x :: x in a[1..] <==> x in a && x != a[0]
  {
    TextTotal(a[0].emoji, a[0].emoji);
    forall i | 0 < i < |a|
      ensures a[i] != a[0]
    {
      assert Ahead(a[0], a[i]);
    }
  }

  // Main result: the aggregate of a table is one sequence of lines.
  lemma AggregateIsDetermined(a: seq<Rx>, b: seq<Rx>, table: set<Reaction>, m: Id, viewer: Id)
    requires Agrees(a, table, m, viewer) && MostUsedFirst(a)
    requires Agrees(b, table, m, viewer) && MostUsedFirst(b)
    ensures a == b
  {
    hide Agrees, MostUsedFirst;
    AggregateIsUnique(a, b, table, m, viewer);
    OrderIsUnique(a, b);
  }

  lemma Included(a: seq<Rx>, b: seq<Rx>, table: set<Reaction>, m: Id, viewer: Id)
    requires Agrees(a, table, m, viewer) && Agrees(b, table, m, viewer)
    ensures forall x :: x in a ==> x in b
  {
  }

  lemma {:induction false} SameLength(a: seq<Rx>)
    requires DistinctLines(a)
    ensures |set x | x in a| == |a|
  {
    if a == [] {
      assert (set x | x in a) == {};
    } else {
      var init, y := a[..|a| - 1], a[|a| - 1];
      SameLength(init);
      assert a == init + [y];
      assert (set x | x in a) == (set x | x in init) + {y};
    }
  }

  // The frames' effect on a client's log: one message is folded, or blanked, and nothing
  // else changes.
  method ApplyReact(log: ClientLog.Log, id: string, t: Toggle, viewer: Id)
    requires log.Valid()
    modifies log`messages, log`version
    ensures log.Valid() && |log.messages| == |old(log.messages)|
    ensures forall i :: 0 <= i < |log.messages| ==> var was := old(log.messages)[i];
      log.messages[i] == if was.id == id then was.(rx := Fold(was.rx, t, viewer)) else was
  {
    log.PatchMessage(id, (m: ClientLog.Message) => m.(rx := Fold(m.rx, t, viewer)));
  }

  method ApplyDelete(log: ClientLog.Log, id: string)
    requires log.Valid()
    modifies log`messages, log`version
    ensures log.Valid() && |log.messages| == |old(log.messages)|
    ensures forall i :: 0 <= i < |log.messages| ==> var was := old(log.messages)[i];
      log.messages[i] == if was.id == id then was.(body := "", deleted := true, rx := []) else was
  {
    log.PatchMessage(id, (m: ClientLog.Message) => m.(body := "", deleted := true, rx := []));
  }
}
