// A channel's loaded history on the client: an ordered array and its index map.
module ClientLog {
  import opened Options
  import opened DecimalIds

  // One line of a message's reactions as a viewer sees it.
  datatype Rx = Rx(emoji: string, count: int, me: bool)

  datatype Message = Message(id: string, body: string, edited: Option<nat>, deleted: bool, rx: seq<Rx>)

  // ---------------------------------------------------------------------------
  // Ordered logs
  // ---------------------------------------------------------------------------

  predicate Proper(ms: seq<Message>) {
    forall i :: 0 <= i < |ms| ==> Canonical(ms[i].id)
  }

  // The number of an id.
  function Num(id: string): nat {
    if Canonical(id) then Value(id) else 0
  }

  lemma CompareNum(a: string, b: string)
    requires Canonical(a) && Canonical(b)
    ensures IdCompare(a, b) < 0 <==> Num(a) < Num(b)
    ensures IdCompare(a, b) > 0 <==> Num(a) > Num(b)
    ensures a == b <==> Num(a) == Num(b)
  {
    CompareIsNumeric(a, b);
  }

  predicate Before(a: Message, b: Message) {
    Num(a.id) < Num(b.id)
  }

  predicate Ordered(ms: seq<Message>) {
    Proper(ms) && forall i, j :: 0 <= i < j < |ms| ==> Before(ms[i], ms[j])
  }

  // The map is the exact inverse of the array.
  predicate Inverse(index: map<string, nat>, ms: seq<Message>) {
    && (forall i :: 0 <= i < |ms| ==> ms[i].id in index && index[ms[i].id] == i)
    && forall id :: id in index ==> index[id] < |ms| && ms[index[id]].id == id
  }

  function Held(ms: seq<Message>): set<Message> {
    set m | m in ms
  }

  // Adding a message replaces the one with its id, if there is one.
  function Put(held: set<Message>, m: Message): set<Message> {
    (set x | x in held && x.id != m.id) + {m}
  }

  lemma PutIs(ms: seq<Message>, m: Message)
    ensures forall after: seq<Message> :: Held(after) == Put(Held(ms), m) ==>
        forall x :: x in after <==> x == m || (x in ms && x.id != m.id)
  {
    forall after: seq<Message> | Held(after) == Put(Held(ms), m)
      ensures forall x :: x in after <==> x == m || (x in ms && x.id != m.id)
    {
      assert forall x :: x in after <==> x in Held(after);
    }
  }

  predicate HasId(ms: seq<Message>, id: string) {
    exists i :: 0 <= i < |ms| && ms[i].id == id
  }

  predicate DistinctIds(ms: seq<Message>) {
    forall i, j :: 0 <= i < j < |ms| ==> ms[i].id != ms[j].id
  }

  // An ordered log is determined by the messages it holds.
  lemma {:induction false} OrderedUnique(a: seq<Message>, b: seq<Message>)
    requires Ordered(a) && Ordered(b) && Held(a) == Held(b)
    ensures a == b
  {
    assert a != [] ==> a[0] in Held(a);
    assert b != [] ==> b[0] in Held(b);
    if a != [] && b != [] {
      LeastFirst(a, b[0]);
      LeastFirst(b, a[0]);
      RestHeld(a);
      RestHeld(b);
      OrderedUnique(a[1..], b[1..]);
      assert a == [a[0]] + a[1..] && b == [b[0]] + b[1..];
    }
  }

  lemma LeastFirst(a: seq<Message>, x: Message)
    requires Ordered(a) && x in a
    ensures x == a[0] || Before(a[0], x)
  {
  }

  lemma RestHeld(a: seq<Message>)
    requires Ordered(a) && a != []
    ensures Ordered(a[1..]) && Held(a[1..]) == Held(a) - {a[0]}
  {
  }

  // Messages that arrive out of order end up in the same log as in any other order.
  ghost function PutAll(held: set<Message>, list: seq<Message>): set<Message> {
    if list == [] then held else Put(PutAll(held, list[..|list| - 1]), list[|list| - 1])
  }

  function Others(held: set<Message>, list: seq<Message>): set<Message> {
    set x | x in held && !HasId(list, x.id)
  }

  lemma HasIdNext(init: seq<Message>, m: Message)
    ensures forall id :: HasId(init + [m], id) <==> HasId(init, id) || id == m.id
    ensures forall x :: x in init ==> HasId(init, x.id)
  {
    forall id
      ensures HasId(init + [m], id) <==> HasId(init, id) || id == m.id
    {
      if HasId(init, id) {
        var i :| 0 <= i < |init| && init[i].id == id;
        assert (init + [m])[i].id == id;
      }
      assert (init + [m])[|init|].id == m.id;
    }
  }

  // What a list of messages makes of a log does not mention their order.
  lemma {:induction false} PutAllIs(held: set<Message>, list: seq<Message>)
    requires DistinctIds(list)
    ensures PutAll(held, list) == Others(held, list) + Held(list)
  {
    if list == [] {
      assert Others(held, list) == held;
    } else {
      var init, m := list[..|list| - 1], list[|list| - 1];
      PutAllIs(held, init);
      assert list == init + [m];
      assert forall x :: x in init ==> x.id != m.id;
      PutNext(held, init, m);
    }
  }

  lemma PutNext(held: set<Message>, init: seq<Message>, m: Message)
    requires forall x :: x in init ==> x.id != m.id
    ensures Put(Others(held, init) + Held(init), m) == Others(held, init + [m]) + Held(init + [m])
  {
    HasIdNext(init, m);
    hide HasId;
    forall x
      ensures x in Put(Others(held, init) + Held(init), m) <==> x in Others(held, init + [m]) + Held(init + [m])
    {
    }
  }

  lemma SameHeld(held: set<Message>, a: seq<Message>, b: seq<Message>)
    requires DistinctIds(a) && DistinctIds(b) && Held(a) == Held(b)
    ensures PutAll(held, a) == PutAll(held, b)
  {
    PutAllIs(held, a);
    PutAllIs(held, b);
    forall x | x in held
      ensures HasId(a, x.id) <==> HasId(b, x.id)
    {
      if HasId(a, x.id) {
        SameIds(a, b, x.id);
      }
      if HasId(b, x.id) {
        SameIds(b, a, x.id);
      }
    }
  }

  // Main result: logs that started alike and were given the same messages, each once and in
  // whatever order, are the same array.
  lemma ArrivalOrderIsIrrelevant(start: seq<Message>, a: seq<Message>, b: seq<Message>,
                                 endA: seq<Message>, endB: seq<Message>)
    requires DistinctIds(a) && DistinctIds(b) && Held(a) == Held(b)
    requires Ordered(endA) && Held(endA) == PutAll(Held(start), a)
    requires Ordered(endB) && Held(endB) == PutAll(Held(start), b)
    ensures endA == endB
  {
    hide Ordered, Held, PutAll, DistinctIds;
    SameHeld(Held(start), a, b);
    OrderedUnique(endA, endB);
  }

  // Two clients that receive the same messages in different orders show the same log.
  method ReceiveBoth(one: Log, other: Log, a: seq<Message>, b: seq<Message>)
    requires one != other && one.Valid() && other.Valid() && one.messages == other.messages
    requires Proper(a) && Proper(b) && DistinctIds(a) && DistinctIds(b) && Held(a) == Held(b)
    modifies one, other
    ensures one.Valid() && other.Valid() && one.messages == other.messages
    ensures Held(one.messages) == PutAll(Held(old(one.messages)), a)
  {
    hide Ordered, Held, PutAll, DistinctIds, Inverse, Canonical;
    ghost var start := one.messages;
    one.AddAll(a);
    other.AddAll(b);
    ArrivalOrderIsIrrelevant(start, a, b, one.messages, other.messages);
  }

  lemma SameIds(a: seq<Message>, b: seq<Message>, id: string)
    requires Held(a) <= Held(b) && HasId(a, id)
    ensures HasId(b, id)
  {
    var i :| 0 <= i < |a| && a[i].id == id;
    assert a[i] in Held(b);
  }

  // ---------------------------------------------------------------------------
  // Sorting
  // ---------------------------------------------------------------------------

  function InsertSorted(ms: seq<Message>, m: Message): seq<Message> {
    if ms == [] || IdCompare(m.id, ms[0].id) < 0 then [m] + ms else [ms[0]] + InsertSorted(ms[1..], m)
  }

  function SortById(ms: seq<Message>): seq<Message> {
    if ms == [] then [] else InsertSorted(SortById(ms[..|ms| - 1]), ms[|ms| - 1])
  }

  lemma {:induction false} InsertSortedIs(ms: seq<Message>, m: Message)
    requires Ordered(ms) && Canonical(m.id) && !HasId(ms, m.id)
    ensures Ordered(InsertSorted(ms, m)) && Held(InsertSorted(ms, m)) == Held(ms) + {m}
    ensures InsertSorted(ms, m) != [] && (InsertSorted(ms, m)[0] == m || (ms != [] && InsertSorted(ms, m)[0] == ms[0]))
  {
    if ms != [] {
      CompareNum(m.id, ms[0].id);
      assert ms[0].id != m.id;
      if IdCompare(m.id, ms[0].id) < 0 {
        assert Before(m, ms[0]);
        assert forall i :: 0 < i < |ms| ==> Before(ms[0], ms[i]);
        assert Held([m] + ms) == Held(ms) + {m};
      } else {
        assert ms == [ms[0]] + ms[1..];
        assert !HasId(ms[1..], m.id) by {
          assert forall i :: 0 <= i < |ms[1..]| ==> ms[1..][i] == ms[i + 1];
        }
        InsertSortedIs(ms[1..], m);
        ConsOrdered(ms[0], InsertSorted(ms[1..], m), ms[1..], m);
        assert Held(ms) == {ms[0]} + Held(ms[1..]);
      }
    }
  }

  lemma ConsOrdered(x: Message, ms: seq<Message>, rest: seq<Message>, m: Message)
    requires Ordered(ms) && Held(ms) == Held(rest) + {m} && Canonical(x.id) && Before(x, m) && Ordered([x] + rest)
    ensures Ordered([x] + ms) && Held([x] + ms) == {x} + Held(ms)
  {
    forall i | 0 <= i < |ms|
      ensures Before(x, ms[i])
    {
      assert ms[i] in Held(ms);
      if ms[i] != m {
        var j :| 0 <= j < |rest| && rest[j] == ms[i];
        assert Before(([x] + rest)[0], ([x] + rest)[j + 1]);
      }
    }
  }

  lemma {:induction false} SortByIdIs(ms: seq<Message>)
    requires Proper(ms) && DistinctIds(ms)
    ensures Ordered(SortById(ms)) && Held(SortById(ms)) == Held(ms)
  {
    if ms != [] {
      var init, m := ms[..|ms| - 1], ms[|ms| - 1];
      SortByIdIs(init);
      assert !HasId(SortById(init), m.id) by {
        if HasId(SortById(init), m.id) {
          SameIds(SortById(init), init, m.id);
        }
      }
      InsertSortedIs(SortById(init), m);
      assert ms == init + [m];
    }
  }

  // Sorted messages go in front of a log in order exactly when each of them is older than
  // its first.
  lemma InFrontIff(sorted: seq<Message>, ms: seq<Message>, page: set<Message>)
    requires Ordered(sorted) && Held(sorted) == page && Ordered(ms)
    ensures Ordered(sorted + ms) <==> forall m :: m in page && ms != [] ==> Before(m, ms[0])
  {
    hide Num, Canonical;
    PrependInOrderIff(sorted, ms);
    if sorted != [] {
      var top := sorted[|sorted| - 1];
      assert top in Held(sorted);
      forall m | m in page
        ensures m == top || Before(m, top)
      {
        var i :| 0 <= i < |sorted| && sorted[i] == m;
      }
    }
  }

  lemma SortNothing()
    ensures SortById([]) == []
  {
  }

  // A page joins the front of a log in order exactly when it is older than the log's
  // first message.
  lemma PrependInOrderIff(page: seq<Message>, ms: seq<Message>)
    requires Ordered(page) && Ordered(ms)
    ensures Ordered(page + ms) <==> page == [] || ms == [] || Before(page[|page| - 1], ms[0])
  {
    if page != [] && ms != [] {
      var all := page + ms;
      if Before(page[|page| - 1], ms[0]) {
        forall i, j | 0 <= i < j < |all|
          ensures Before(all[i], all[j])
        {
          if i < |page| <= j {
            assert i == |page| - 1 || Before(page[i], page[|page| - 1]);
            assert j == |page| || Before(ms[0], ms[j - |page|]);
          }
        }
      } else {
        assert all[|page| - 1] == page[|page| - 1] && all[|page|] == ms[0];
      }
    } else {
      assert page + ms == if page == [] then ms else page;
    }
  }

  // ---------------------------------------------------------------------------
  // The log
  // ---------------------------------------------------------------------------

  class Log {
    var messages: seq<Message>
    var index: map<string, nat>
    var cursor: Option<string>
    var complete: bool
    var anchor: Option<string>
    var version: nat

    // Strictly ascending by number, and indexed exactly.
    ghost predicate Valid()
      reads this
    {
      Ordered(messages) && Inverse(index, messages)
    }

    constructor ()
      ensures Valid() && messages == [] && anchor == None
    {
      messages, index, cursor, complete, anchor, version := [], map[], None, false, None, 0;
    }

    // The first position whose id is not below.
    method LowerBound(id: string) returns (at: nat)
      requires Valid() && Canonical(id)
      ensures at <= |messages|
      ensures forall i :: 0 <= i < at ==> Num(messages[i].id) < Num(id)
      ensures forall i :: at <= i < |messages| ==> Num(messages[i].id) >= Num(id)
    {
      hide Num, Canonical, IdCompare, Inverse;
      var lo, hi := 0, |messages|;
      while lo < hi
        invariant 0 <= lo <= hi <= |messages|
        invariant forall i :: 0 <= i < lo ==> Num(messages[i].id) < Num(id)
        invariant forall i :: hi <= i < |messages| ==> Num(messages[i].id) >= Num(id)
      {
        var mid := (lo + hi) / 2;
        CompareNum(messages[mid].id, id);
        assert forall i :: 0 <= i < mid ==> Before(messages[i], messages[mid]);
        assert forall i :: mid < i < |messages| ==> Before(messages[mid], messages[i]);
        if IdCompare(messages[mid].id, id) < 0 {
          lo := mid + 1;
        } else {
          hi := mid;
        }
      }
      at := lo;
    }

    // Insertion into an ordered set keyed by id, wherever the message falls.
    method AddMessage(m: Message)
      requires Valid() && Canonical(m.id)
      modifies this`messages, this`index, this`version
      ensures Valid() && Held(messages) == Put(Held(old(messages)), m)
      ensures forall x :: x in messages <==> x == m || (x in old(messages) && x.id != m.id)
      ensures version > old(version)
    {
      hide Num, Canonical, IdCompare, Held, Put, HasId;
      PutIs(messages, m);
      version := version + 1;
      if m.id in index {
        ReplaceHeld(messages, index, m);
        messages := messages[index[m.id] := m];
        return;
      }
      NotIndexed(messages, index, m.id);
      if messages == [] || IdCompare(m.id, messages[|messages| - 1].id) > 0 {
        AppendHeld(messages, index, m);
        index := index[m.id := |messages|];
        messages := messages + [m];
      } else {
        var at := LowerBound(m.id);
        InsertHeld(messages, at, m);
        OrderedDistinct(messages[..at] + [m] + messages[at..]);
        Splice(at, m);
      }
    }

    // Messages arriving one after the other.
    method AddAll(list: seq<Message>)
      requires Valid() && Proper(list)
      modifies this`messages, this`index, this`version
      ensures Valid() && Held(messages) == PutAll(Held(old(messages)), list)
    {
      hide Ordered, Inverse, Held, Put, Canonical;
      for i := 0 to |list|
        invariant Valid() && Held(messages) == PutAll(Held(old(messages)), list[..i])
      {
        AddMessage(list[i]);
        assert list[..i + 1][..i] == list[..i];
      }
      assert list[..|list|] == list;
    }

    // Inserts at a position and renumbers everything from there on.
    method Splice(at: nat, m: Message)
      requires Inverse(index, messages) && at <= |messages| && DistinctIds(messages[..at] + [m] + messages[at..])
      modifies this`messages, this`index
      ensures messages == old(messages)[..at] + [m] + old(messages)[at..]
      ensures Inverse(index, messages)
    {
      hide HasId, Inverse;
      RenumberedFrom(index, messages, at, m);
      messages := messages[..at] + [m] + messages[at..];
      ghost var after := messages;
      for i := at to |messages|
        invariant messages == after
        invariant Renumbered(index, after, i)
      {
        assert HasId(messages, messages[i].id) by {
          IsHeld(messages, i);
        }
        index := index[messages[i].id := i];
      }
      RenumberedAll(index, messages);
    }

    // Prepends a page's unknown messages, sorted. The log is still in order exactly if they
    // are all older than what it had.
    method PrependPage(page: seq<Message>, next: Option<string>)
      requires Valid() && Proper(page) && DistinctIds(page)
      modifies this
      ensures exists front ::
          && Ordered(front) && messages == front + old(messages)
          && forall m :: m in front <==> m in page && m.id !in old(index)
      ensures Inverse(index, messages) && anchor == old(anchor)
      ensures Valid() <==>
          forall m :: m in page && m.id !in old(index) && old(messages) != [] ==> Before(m, old(messages)[0])
      ensures cursor == next && (complete <==> next.None?) && version > old(version)
    {
      hide Num, Canonical, SortById, Fresh, Ordered, DistinctIds, Inverse;
      var unseen := Fresh(page, index);
      FreshIs(page, index);
      SortByIdIs(unseen);
      InFrontIff(SortById(unseen), messages, Unseen(page, index));
      ghost var front := SortById(unseen);
      if unseen != [] {
        FrontDistinct(front, index, messages, page);
        messages := SortById(unseen) + messages;
        Reindex();
      } else {
        SortNothing();
        assert front + messages == messages;
      }
      cursor := next;
      complete := next.None?;
      version := version + 1;
      assert forall m :: m in front <==> m in Held(front);
      assert messages == front + old(messages);
    }

    // Replaces the log by a window around an older message.
    method ShowAround(around: string, page: seq<Message>, next: Option<string>)
      requires Proper(page) && DistinctIds(page)
      modifies this
      ensures Valid() && Held(messages) == Held(page)
      ensures cursor == next && (complete <==> next.None?) && anchor == Some(around) && version > old(version)
    {
      SortByIdIs(page);
      messages := SortById(page);
      Reindex();
      cursor, complete, anchor := next, next.None?, Some(around);
      version := version + 1;
    }

    method ResetToLive()
      modifies this
      ensures Valid() && messages == [] && cursor == None && !complete && anchor == None && version > old(version)
    {
      messages, index, cursor, complete, anchor := [], map[], None, false, None;
      version := version + 1;
    }

    // A live message does not join a window: there is a gap between the two.
    method ApplyMessage(m: Message)
      requires Valid() && Canonical(m.id)
      modifies this`messages, this`index, this`version
      ensures Valid()
      ensures Held(messages) == if anchor.None? then Put(Held(old(messages)), m) else Held(old(messages))
    {
      if anchor.None? {
        AddMessage(m);
      }
    }

    // A patch changes the one message it names, in place; an unknown message is ignored.
    method PatchMessage(id: string, patch: Message -> Message)
      requires Valid() && forall m :: patch(m).id == m.id
      modifies this`messages, this`version
      ensures Valid() && |messages| == |old(messages)|
      ensures forall i :: 0 <= i < |messages| ==>
          messages[i] == if old(messages)[i].id == id then patch(old(messages)[i]) else old(messages)[i]
      ensures version == old(version) + if id in index then 1 else 0
    {
      if id in index {
        var at := index[id];
        assert forall i :: 0 <= i < |messages| && messages[i].id == id ==> i == at;
        messages := messages[at := patch(messages[at])];
        version := version + 1;
      }
    }

    method Reindex()
      requires DistinctIds(messages)
      modifies this`index
      ensures Inverse(index, messages)
    {
      index := map[];
      for i := 0 to |messages|
        invariant Inverse(index, messages[..i])
      {
        index := index[messages[i].id := i];
      }
      assert messages[..|messages|] == messages;
    }
  }

  // While the tail is being renumbered: positions below `i` are right, and whatever else
  // is indexed is somewhere in the log.
  ghost predicate Renumbered(index: map<string, nat>, ms: seq<Message>, i: nat) {
    && (forall k :: 0 <= k < i && k < |ms| ==> ms[k].id in index && index[ms[k].id] == k)
    && forall id :: id in index ==> HasId(ms, id)
  }

  lemma RenumberedAll(index: map<string, nat>, ms: seq<Message>)
    requires Renumbered(index, ms, |ms|)
    ensures Inverse(index, ms)
  {
  }

  lemma RenumberedFrom(index: map<string, nat>, ms: seq<Message>, at: nat, m: Message)
    requires Inverse(index, ms) && at <= |ms|
    ensures Renumbered(index, ms[..at] + [m] + ms[at..], at)
  {
    var after := ms[..at] + [m] + ms[at..];
    forall id | id in index
      ensures HasId(after, id)
    {
      var k := index[id];
      assert after[if k < at then k else k + 1].id == id;
    }
  }

  function Fresh(page: seq<Message>, index: map<string, nat>): seq<Message> {
    if page == [] then [] else
      Fresh(page[..|page| - 1], index) + if page[|page| - 1].id in index then [] else [page[|page| - 1]]
  }

  function Unseen(page: seq<Message>, index: map<string, nat>): set<Message> {
    set m | m in page && m.id !in index
  }

  lemma {:induction false} FreshIs(page: seq<Message>, index: map<string, nat>)
    requires Proper(page) && DistinctIds(page)
    ensures Proper(Fresh(page, index)) && DistinctIds(Fresh(page, index))
    ensures Held(Fresh(page, index)) == Unseen(page, index)
    ensures forall i :: 0 <= i < |Fresh(page, index)| ==>
        Fresh(page, index)[i] in page && Fresh(page, index)[i].id !in index
  {
    if page != [] {
      var init, m := page[..|page| - 1], page[|page| - 1];
      FreshIs(init, index);
      assert page == init + [m];
      assert forall x :: x in init ==> x.id != m.id;
      assert Unseen(page, index) == Unseen(init, index) + if m.id in index then {} else {m};
    }
  }

  lemma FrontDistinct(front: seq<Message>, index: map<string, nat>, ms: seq<Message>, page: seq<Message>)
    requires Ordered(front) && Held(front) == Unseen(page, index) && Ordered(ms) && Inverse(index, ms)
    ensures DistinctIds(front + ms)
  {
    hide Num, Canonical;
    OrderedDistinct(front);
    OrderedDistinct(ms);
    forall i | 0 <= i < |front|
      ensures front[i].id !in index
    {
      assert front[i] in Held(front);
    }
  }

  lemma IsHeld(ms: seq<Message>, i: nat)
    requires i < |ms|
    ensures HasId(ms, ms[i].id)
  {
  }

  lemma OrderedDistinct(ms: seq<Message>)
    requires Ordered(ms)
    ensures DistinctIds(ms)
  {
  }

  lemma NotIndexed(ms: seq<Message>, index: map<string, nat>, id: string)
    requires Inverse(index, ms) && id !in index
    ensures !HasId(ms, id)
  {
  }

  lemma ReplaceHeld(ms: seq<Message>, index: map<string, nat>, m: Message)
    requires Ordered(ms) && Inverse(index, ms) && m.id in index
    ensures var ms' := ms[index[m.id] := m];
      Ordered(ms') && Inverse(index, ms') && Held(ms') == Put(Held(ms), m)
  {
    hide Num, Canonical;
    var at := index[m.id];
    var ms' := ms[at := m];
    forall i, j | 0 <= i < j < |ms'|
      ensures Before(ms'[i], ms'[j])
    {
      assert Before(ms[i], ms[j]);
    }
    assert ms'[at] == m;
    forall x | x in Put(Held(ms), m)
      ensures x in ms'
    {
      if x != m {
        var i :| 0 <= i < |ms| && ms[i] == x;
        assert ms'[i] == x;
      }
    }
  }

  lemma AppendHeld(ms: seq<Message>, index: map<string, nat>, m: Message)
    requires Ordered(ms) && Inverse(index, ms) && Canonical(m.id) && !HasId(ms, m.id) && (ms != [] ==>
        IdCompare(m.id, ms[|ms| - 1].id) > 0)
    ensures Ordered(ms + [m]) && Inverse(index[m.id := |ms|], ms + [m]) && Held(ms + [m]) == Put(Held(ms), m)
  {
    hide Num, Canonical, IdCompare;
    if ms != [] {
      CompareNum(m.id, ms[|ms| - 1].id);
    }
    forall i | 0 <= i < |ms|
      ensures Before(ms[i], m) && ms[i].id != m.id
    {
      assert i == |ms| - 1 || Before(ms[i], ms[|ms| - 1]);
    }
  }

  lemma InsertHeld(ms: seq<Message>, at: nat, m: Message)
    requires Ordered(ms) && Canonical(m.id) && !HasId(ms, m.id) && at <= |ms|
    requires forall i :: 0 <= i < at ==> Num(ms[i].id) < Num(m.id)
    requires forall i :: at <= i < |ms| ==> Num(ms[i].id) >= Num(m.id)
    ensures Ordered(ms[..at] + [m] + ms[at..]) && Held(ms[..at] + [m] + ms[at..]) == Put(Held(ms), m)
  {
    hide Num, Canonical;
    forall i | 0 <= i < |ms|
      ensures ms[i].id != m.id && (i < at ==> Before(ms[i], m)) && (at <= i ==> Before(m, ms[i]))
    {
      CompareNum(m.id, ms[i].id);
    }
    assert ms == ms[..at] + ms[at..];
  }
}
