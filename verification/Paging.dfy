// Keyset pagination over the id column of one channel's top-level messages: the pages
// that follow a cursor, and the window around an anchor.
module Paging {
  import opened Options

  type Id = x: int | 0 <= x < 0x1_0000_0000_0000_0000 witness 0

  const I64_MAX: int := 0x7FFF_FFFF_FFFF_FFFF
  const MAX_PAGE: nat := 200

  // A column holds a signed 64-bit integer: the same bit pattern.
  predicate Signed(v: int) {
    -0x8000_0000_0000_0000 <= v <= I64_MAX
  }

  function ToSql(id: Id): (v: int)
    ensures Signed(v)
    ensures FromSql(v) == id
  {
    if id <= I64_MAX then id else id - 0x1_0000_0000_0000_0000
  }

  function FromSql(v: int): (id: Id)
    requires Signed(v)
    ensures (if id <= I64_MAX then id else id - 0x1_0000_0000_0000_0000) == v
  {
    if v >= 0 then v else v + 0x1_0000_0000_0000_0000
  }

  // ---------------------------------------------------------------------------
  // ORDER BY id DESC
  // ---------------------------------------------------------------------------

  predicate Descending(d: seq<int>) {
    forall i, j :: 0 <= i < j < |d| ==> d[i] > d[j]
  }

  lemma Member<T>(s: set<T>) returns (x: T)
    requires s != {}
    ensures x in s
  {
    x :| x in s;
  }

  lemma {:induction false} HasGreatest(s: set<int>)
    requires s != {}
    ensures exists m :: m in s && forall x :: x in s ==> x <= m
    decreases |s|
  {
    var y := Member(s);
    if s != {y} {
      assert s == s - {y} + {y};
      HasGreatest(s - {y});
      var m :| m in s - {y} && forall x :: x in s - {y} ==> x <= m;
      assert forall x :: x in s ==> x == y || x in s - {y};
      var top := if y > m then y else m;
      assert top in s && forall x :: x in s ==> x <= top;
    }
  }

  function Greatest(s: set<int>): (m: int)
    requires s != {}
    ensures m in s && forall x :: x in s ==> x <= m
  {
    HasGreatest(s);
    var m :| m in s && forall x :: x in s ==> x <= m;
    m
  }

  function Desc(s: set<int>): (d: seq<int>)
    ensures Descending(d) && |d| == |s| && forall x :: x in d <==> x in s
    decreases |s|
  {
    if s == {} then [] else [Greatest(s)] + Desc(s - {Greatest(s)})
  }

  // Only one descending sequence has given elements.
  lemma {:induction false} DescUnique(d: seq<int>, s: set<int>)
    requires Descending(d) && forall x :: x in d <==> x in s
    ensures d == Desc(s)
    decreases |s|
  {
    if d == [] {
      if s != {} {
        var x := Member(s);
        assert false;
      }
    } else {
      hide Descending, Greatest;
      FrontIsGreatest(d, s);
      assert d == [d[0]] + d[1..];
      DescUnique(d[1..], s - {d[0]});
    }
  }

  lemma FrontIsGreatest(d: seq<int>, s: set<int>)
    requires d != [] && Descending(d) && forall x :: x in d <==> x in s
    ensures d[0] in s && d[0] == Greatest(s)
    ensures Descending(d[1..]) && forall x :: x in d[1..] <==> x in s - {d[0]}
  {
  }

  function Older(all: set<int>, bound: int): set<int> {
    set x | x in all && x < bound
  }

  function Take<T>(d: seq<T>, n: nat): (r: seq<T>)
    ensures |r| == if |d| <= n then |d| else n
  {
    if |d| <= n then d else d[..n]
  }

  // Cutting the order after its k-th element leaves exactly what is older than that
  // element.
  lemma OlderThan(all: set<int>, k: nat)
    requires 0 < k <= |all|
    ensures Desc(all)[k..] == Desc(Older(all, Desc(all)[k - 1]))
  {
    hide Desc;
    var d := Desc(all);
    forall x
      ensures x in d[k..] <==> x in Older(all, d[k - 1])
    {
      if x in Older(all, d[k - 1]) {
        var i :| 0 <= i < |d| && d[i] == x;
        assert i >= k;
        assert d[k..][i - k] == x;
      }
    }
    DescUnique(d[k..], Older(all, d[k - 1]));
  }

  // ---------------------------------------------------------------------------
  // Paging
  // ---------------------------------------------------------------------------

  // A page, and the cursor of the next older one.
  datatype Page = Page(ids: seq<int>, next: Option<Id>)

  function Clamp(x: nat, lo: nat, hi: nat): (r: nat)
    ensures lo <= hi ==> lo <= r <= hi
  {
    if x < lo then lo else if x > hi then hi else x
  }

  function Bound(before: Option<Id>): int {
    if before.None? then I64_MAX else ToSql(before.value)
  }

  predicate Column(all: set<int>) {
    forall x :: x in all ==> Signed(x)
  }

  // One row beyond the limit is read: it says whether an older page exists.
  function HistoryPage(all: set<int>, before: Option<Id>, limit: nat): Page
    requires Column(all)
  {
    var limit := Clamp(limit, 1, MAX_PAGE);
    var rows := Take(Desc(Older(all, Bound(before))), limit + 1);
    if |rows| > limit then
      assert rows[limit - 1] in Older(all, Bound(before));
      Page(rows[..limit], Some(FromSql(rows[limit - 1])))
    else
      Page(rows, None)
  }

  // What a page is: the front of what is older than the cursor, full unless it is the last,
  // and with a cursor of its own that continues with exactly the rest.
  ghost predicate Paged(all: set<int>, before: Option<Id>, limit: nat, p: Page) {
    var rest, size := Desc(Older(all, Bound(before))), Clamp(limit, 1, MAX_PAGE);
    && |p.ids| == (if |rest| <= size then |rest| else size) && p.ids == rest[..|p.ids|]
    && (p.next.None? <==> p.ids == rest)
    && (p.next.Some? ==>
        p.ids != [] && Bound(p.next) == p.ids[|p.ids| - 1] && rest[|p.ids|..] == Desc(Older(all, Bound(p.next))))
  }

  lemma PageIsPrefix(all: set<int>, before: Option<Id>, limit: nat)
    requires Column(all)
    ensures Paged(all, before, limit, HistoryPage(all, before, limit))
  {
    hide Descending, Desc;
    var p := HistoryPage(all, before, limit);
    var older := Older(all, Bound(before));
    if p.next.Some? {
      OlderThan(older, |p.ids|);
      var c := Bound(p.next);
      assert p.ids[|p.ids| - 1] in Desc(older);
      assert Older(older, c) == Older(all, c);
    }
  }

  // Limits from 1 to 200 are the size of a page, and others count as the nearest of them.
  lemma PageSize(all: set<int>, before: Option<Id>, limit: nat, p: Page)
    requires Column(all) && Paged(all, before, limit, p)
    ensures var size := if limit == 0 then 1 else if limit > 200 then 200 else limit;
      |p.ids| == if |Older(all, Bound(before))| < size then |Older(all, Bound(before))| else size
  {
  }

  // A page with another one after it is full.
  lemma PageIsFull(all: set<int>, before: Option<Id>, limit: nat, p: Page)
    requires Column(all) && Paged(all, before, limit, p) && 1 <= limit <= 200
    ensures |p.ids| <= limit && (p.next.Some? ==> |p.ids| == limit)
  {
    var rest := Desc(Older(all, Bound(before)));
    if |rest| <= limit {
      assert rest[..|rest|] == rest;
    }
  }

  // Everything a client sees by following the cursors from `before`.
  ghost function Visit(all: set<int>, before: Option<Id>, limit: nat): seq<int>
    requires Column(all)
    decreases |Desc(Older(all, Bound(before)))|
  {
    var p := HistoryPage(all, before, limit);
    PageIsPrefix(all, before, limit);
    if p.next.None? then p.ids else p.ids + Visit(all, p.next, limit)
  }

  // Main result: following the cursors visits every row below the first bound exactly
  // once, in descending order, and then stops.
  lemma {:induction false} VisitsAll(all: set<int>, before: Option<Id>, limit: nat)
    requires Column(all)
    ensures Visit(all, before, limit) == Desc(Older(all, Bound(before)))
    decreases |Desc(Older(all, Bound(before)))|
  {
    hide HistoryPage, Desc, Older, Bound, Clamp, Descending;
    var p := HistoryPage(all, before, limit);
    PageIsPrefix(all, before, limit);
    if p.next.Some? {
      VisitsAll(all, p.next, limit);
    }
  }

  // From the newest page that is every top-level row, unless the largest id a column can
  // hold is taken: the first page's bound is exclusive.
  lemma VisitsTheChannelIff(all: set<int>, limit: nat)
    requires Column(all)
    ensures Visit(all, None, limit) == Desc(all) <==> I64_MAX !in all
  {
    VisitsAll(all, None, limit);
    if I64_MAX !in all {
      assert Older(all, I64_MAX) == all;
    } else {
      assert I64_MAX in Desc(all) && I64_MAX !in Desc(Older(all, I64_MAX));
    }
  }

  // Rows that arrive while a client pages are newer than its cursor and change nothing
  // that is still to come.
  lemma PagingIsStable(all: set<int>, newer: set<int>, cursor: Id, limit: nat)
    requires Column(all) && Column(newer) && forall x :: x in newer ==> x >= ToSql(cursor)
    ensures Visit(all + newer, Some(cursor), limit) == Visit(all, Some(cursor), limit)
  {
    VisitsAll(all, Some(cursor), limit);
    VisitsAll(all + newer, Some(cursor), limit);
    assert Older(all + newer, ToSql(cursor)) == Older(all, ToSql(cursor));
  }

  // A caller's own cursor is compared as a signed number: it selects the ids below it, in
  // the order of ids, exactly when every id of the channel is on its side of 2^63.
  lemma CursorSelects(all: set<int>, before: Id)
    requires Column(all)
    ensures (forall x :: x in all ==> (x in Older(all, Bound(Some(before))) <==> FromSql(x) < before)) <==>
        forall x :: x in all ==> (x >= 0 <==> before <= I64_MAX)
  {
    forall x | x in all
      ensures (x in Older(all, Bound(Some(before))) <==> FromSql(x) < before) <==> (x >= 0 <==> before <= I64_MAX)
    {
    }
  }

  // ---------------------------------------------------------------------------
  // The window around an anchor
  // ---------------------------------------------------------------------------

  function UpTo(all: set<int>, anchor: int): set<int> {
    set x | x in all && x <= anchor
  }

  function Newer(all: set<int>, anchor: int): set<int> {
    set x | x in all && x > anchor
  }

  // ORDER BY id ASC is the reverse of ORDER BY id DESC.
  function Reversed(d: seq<int>): (r: seq<int>)
    ensures |r| == |d| && forall i :: 0 <= i < |d| ==> r[i] == d[|d| - 1 - i]
  {
    if d == [] then [] else Reversed(d[1..]) + [d[0]]
  }

  // Both sides are read with the whole budget and balanced afterwards.
  method HistoryAround(all: set<int>, anchor: Id, limit: nat) returns (p: Page)
    requires Column(all)
    ensures Windowed(all, anchor, limit, p)
  {
    hide Desc, Descending, Windowed, Older, UpTo, Newer, Reversed, Bound, Column, Take, Clamp, Cut;
    var budget := Clamp(limit, 2, MAX_PAGE);
    var upTo := Desc(UpTo(all, ToSql(anchor)));
    var beyond := Desc(Newer(all, ToSql(anchor)));
    var older := Take(upTo, budget + 1);
    var newer := Take(Reversed(beyond), budget);
    var takeNewer := if |newer| < budget / 2 then |newer| else budget / 2;
    var takeOlder := if budget - takeNewer < |older| then budget - takeNewer else |older|;
    var filled := takeNewer + (budget - takeNewer - takeOlder);
    takeNewer := if filled < |newer| then filled else |newer|;
    var next := None;
    if |older| > takeOlder {
      InColumn(all, ToSql(anchor), takeOlder - 1);
      TakePrefix(upTo, budget + 1, takeOlder);
      next := Some(FromSql(older[takeOlder - 1]));
      NextBound(next);
    }
    p := Page(Reversed(newer[..takeNewer]) + older[..takeOlder], next);
    Assembled(beyond, upTo, budget, takeNewer, takeOlder, p);
    WindowIsWindow(all, anchor, limit, takeNewer, takeOlder, p);
  }

  // Of `newer` and `older` rows read, the numbers taken.
  predicate Shares(budget: nat, newer: nat, older: nat, takeNewer: nat, takeOlder: nat) {
    var half := if newer < budget / 2 then newer else budget / 2;
    && takeOlder == (if budget - half < older then budget - half else older)
    && takeNewer == if budget - takeOlder < newer then budget - takeOlder else newer
  }

  // They are the whole budget or all there is, and each side gets at least its half as far
  // as it can fill it.
  lemma SharesBalance(budget: nat, n: nat, o: nat, takeNewer: nat, takeOlder: nat)
    requires budget > 1
    requires Shares(budget,
             if n < budget then n else budget, if o < budget + 1 then o else budget + 1, takeNewer, takeOlder)
    ensures takeNewer <= n && takeOlder <= o && takeNewer + takeOlder == if n + o < budget then n + o else budget
    ensures Balanced(takeNewer, n, budget / 2) && Balanced(takeOlder, o, budget - budget / 2)
    ensures takeOlder < o <==> takeOlder < if o < budget + 1 then o else budget + 1
  {
  }

  lemma TakePrefix<T>(d: seq<T>, n: nat, k: nat)
    requires k <= |Take(d, n)|
    ensures Take(d, n)[..k] == d[..k] && (k > 0 ==> Take(d, n)[k - 1] == d[k - 1])
  {
  }

  lemma Assembled(beyond: seq<int>, upTo: seq<int>, budget: nat, takeNewer: nat, takeOlder: nat, p: Page)
    requires budget > 1
    requires Shares(budget, |Take(Reversed(beyond), budget)|, |Take(upTo, budget + 1)|, takeNewer, takeOlder)
    requires var older, newer := Take(upTo, budget + 1), Take(Reversed(beyond), budget);
      && p.ids == Reversed(newer[..takeNewer]) + older[..takeOlder]
      && (p.next.Some? <==> |older| > takeOlder)
      && (p.next.Some? ==> takeOlder > 0 && Bound(p.next) == older[takeOlder - 1])
    ensures Cut(beyond, upTo, budget, takeNewer, takeOlder, p)
  {
    hide Reversed, Bound, Balanced, Shares, Take;
    SharesBalance(budget, |beyond|, |upTo|, takeNewer, takeOlder);
    NewestFirst(beyond, budget, takeNewer);
    TakePrefix(upTo, budget + 1, takeOlder);
  }

  lemma InColumn(all: set<int>, a: int, k: nat)
    requires Column(all) && k < |Desc(UpTo(all, a))|
    ensures Signed(Desc(UpTo(all, a))[k])
  {
    assert Desc(UpTo(all, a))[k] in Desc(UpTo(all, a));
  }

  // The ascending half, reversed back.
  lemma NewestFirst(beyond: seq<int>, budget: nat, n: nat)
    requires n <= |Take(Reversed(beyond), budget)|
    ensures Reversed(Take(Reversed(beyond), budget)[..n]) == beyond[|beyond| - n..]
  {
  }

  lemma NextBound(next: Option<Id>)
    ensures next.Some? ==> Bound(next) == ToSql(next.value)
  {
  }

  // What a window is. With `n` rows newer than the anchor and `o` others: it is one
  // contiguous stretch of the channel's order, it is full unless the channel is smaller
  // than the limit, each side has half the window as far as it can fill it, and its
  // cursor continues with exactly the older rows that are left.
  ghost predicate Windowed(all: set<int>, anchor: Id, limit: nat, p: Page)
    requires Column(all)
  {
    var budget, n := Clamp(limit, 2, MAX_PAGE), |Newer(all, ToSql(anchor))|;
    && |p.ids| == (if |all| < budget then |all| else budget)
    && (ToSql(anchor) in p.ids <==> ToSql(anchor) in all)
    && (p.next.Some? ==> p.ids != [] && Bound(p.next) == p.ids[|p.ids| - 1])
    && exists lo, hi :: IsStretch(all, n, budget, p, lo, hi)
  }

  // Limits from 2 to 200 are the size of a window, and others count as the nearest of them.
  lemma WindowSize(all: set<int>, anchor: Id, limit: nat, p: Page)
    requires Column(all) && Windowed(all, anchor, limit, p)
    ensures var size := if limit < 2 then 2 else if limit > 200 then 200 else limit;
      |p.ids| == if |all| < size then |all| else size
  {
    hide IsStretch;
  }

  // The page is the stretch from `lo` to `hi`, with `n` rows newer than the anchor.
  ghost predicate IsStretch(all: set<int>, n: nat, budget: nat, p: Page, lo: int, hi: int) {
    var d := Desc(all);
    && 0 <= lo <= n <= |d| && lo <= hi <= |d| && p.ids == d[lo..hi]
    && Balanced(n - lo, n, budget / 2) && Balanced(hi - n, |d| - n, budget - budget / 2)
    && d[hi..] == if p.next.None? then [] else Desc(Older(all, Bound(p.next)))
  }

  // A side has its share, or all there is.
  predicate Balanced(kept: int, available: int, share: int) {
    kept >= share || kept == available
  }

  lemma SplitAtAnchor(all: set<int>, a: int)
    ensures Desc(all) == Desc(Newer(all, a)) + Desc(UpTo(all, a))
    ensures |all| == |Newer(all, a)| + |UpTo(all, a)|
  {
    hide Desc;
    var front, back := Desc(Newer(all, a)), Desc(UpTo(all, a));
    assert forall x :: x in front ==> x > a;
    assert forall x :: x in back ==> x <= a;
    forall i, j | 0 <= i < j < |front + back|
      ensures (front + back)[i] > (front + back)[j]
    {
      if i < |front| <= j {
        assert front[i] in front && back[j - |front|] in back;
      }
    }
    assert forall x :: x in front + back <==> x in all;
    DescUnique(front + back, all);
  }

  lemma MiddleSlice<T>(front: seq<T>, back: seq<T>, n: nat, o: nat)
    requires n <= |front| && o <= |back|
    ensures (front + back)[|front| - n..|front| + o] == front[|front| - n..] + back[..o]
    ensures (front + back)[|front| + o..] == back[o..]
    ensures o > 0 ==> (front + back)[|front| + o - 1] == back[o - 1]
  {
  }

  // The page cut from the rows `beyond` the anchor and those `upTo` it.
  ghost predicate Cut(beyond: seq<int>, upTo: seq<int>, budget: nat, takeNewer: nat, takeOlder: nat, p: Page) {
    && takeNewer <= |beyond| && takeOlder <= |upTo|
    && takeNewer + takeOlder == (if |beyond| + |upTo| < budget then |beyond| + |upTo| else budget)
    && Balanced(takeNewer, |beyond|, budget / 2) && Balanced(takeOlder, |upTo|, budget - budget / 2)
    && p.ids == beyond[|beyond| - takeNewer..] + upTo[..takeOlder]
    && (p.next.None? <==> takeOlder == |upTo|)
    && (p.next.Some? ==> takeOlder > 0 && Bound(p.next) == upTo[takeOlder - 1])
  }

  lemma WindowIsWindow(all: set<int>, anchor: Id, limit: nat, takeNewer: nat, takeOlder: nat, p: Page)
    requires Column(all)
    requires Cut(Desc(Newer(all, ToSql(anchor))), Desc(UpTo(all, ToSql(anchor))), Clamp(limit, 2, MAX_PAGE),
                 takeNewer, takeOlder, p)
    ensures Windowed(all, anchor, limit, p)
  {
    hide Desc, Descending, Newer, UpTo, Older, Bound, Clamp, Cut, IsStretch;
    var budget := Clamp(limit, 2, MAX_PAGE);
    var newer, upTo := Newer(all, ToSql(anchor)), UpTo(all, ToSql(anchor));
    SplitAtAnchor(all, ToSql(anchor));
    CutMiddle(Desc(all), Desc(newer), Desc(upTo), budget, takeNewer, takeOlder, p);
    AnchorKept(all, ToSql(anchor), budget, takeNewer, takeOlder, p);
    CutIsStretch(all, Desc(newer), Desc(upTo), budget, takeNewer, takeOlder, p);
  }

  lemma CutIsStretch(all: set<int>, front: seq<int>, back: seq<int>, budget: nat, n: nat, o: nat, p: Page)
    requires budget > 1 && Cut(front, back, budget, n, o, p) && Desc(all) == front + back
    ensures IsStretch(all, |front|, budget, p, |front| - n, |front| + o)
  {
    hide Desc, Descending, Older, Bound, Balanced, Cut, IsStretch;
    CutMiddle(Desc(all), front, back, budget, n, o, p);
    if p.next.Some? {
      OlderThan(all, |front| + o);
    }
    StretchFrom(all, Desc(all), |front|, budget, p, |front| - n, |front| + o);
  }

  lemma StretchFrom(all: set<int>, d: seq<int>, n: nat, budget: nat, p: Page, lo: nat, hi: nat)
    requires d == Desc(all) && lo <= n <= hi <= |d| && p.ids == d[lo..hi]
    requires Balanced(n - lo, n, budget / 2) && Balanced(hi - n, |d| - n, budget - budget / 2)
    requires p.next.None? ==> d[hi..] == []
    requires p.next.Some? ==> d[hi..] == Desc(Older(all, Bound(p.next)))
    ensures IsStretch(all, n, budget, p, lo, hi)
  {
    hide Desc, Older, Bound, Balanced;
  }

  // What is cut out is the middle of the two sides together.
  lemma CutMiddle(d: seq<int>, front: seq<int>, back: seq<int>, budget: nat, n: nat, o: nat, p: Page)
    requires d == front + back && budget > 1 && Cut(front, back, budget, n, o, p)
    ensures n <= |front| && o <= |back| && p.ids == d[|front| - n..|front| + o]
    ensures |p.ids| == if |d| < budget then |d| else budget
    ensures Balanced(n, |front|, budget / 2) && Balanced(o, |back|, budget - budget / 2)
    ensures p.next.None? ==> d[|front| + o..] == []
    ensures p.next.Some? ==> o > 0 && p.ids != [] && Bound(p.next) == p.ids[|p.ids| - 1] == d[|front| + o - 1]
  {
    hide Balanced, Bound;
    MiddleSlice(front, back, n, o);
  }

  // An element at the front of one side, and not on the other, is in the middle.
  lemma FrontKept(front: seq<int>, back: seq<int>, a: int, n: nat, o: nat)
    requires n <= |front| && 0 < o <= |back| && back[0] == a
    ensures a in front[|front| - n..] + back[..o]
  {
    assert (front[|front| - n..] + back[..o])[n] == a;
  }

  lemma AbsentStays(front: seq<int>, back: seq<int>, a: int, n: nat, o: nat)
    requires n <= |front| && o <= |back| && a !in front + back
    ensures a !in front[|front| - n..] + back[..o]
  {
    var s := front[|front| - n..] + back[..o];
    forall i | 0 <= i < |s|
      ensures s[i] != a
    {
      assert s[i] == (front + back)[|front| - n + i];
    }
  }

  lemma AnchorKept(all: set<int>, a: int, budget: nat, takeNewer: nat, takeOlder: nat, p: Page)
    requires budget > 1 && Cut(Desc(Newer(all, a)), Desc(UpTo(all, a)), budget, takeNewer, takeOlder, p)
    ensures a in p.ids <==> a in all
  {
    AnchorFirst(all, a);
    SplitAtAnchor(all, a);
    hide Desc, Descending, Newer, UpTo, Older, Bound;
    var front, back := Desc(Newer(all, a)), Desc(UpTo(all, a));
    if a in all {
      FrontKept(front, back, a, takeNewer, takeOlder);
    } else {
      AbsentStays(front, back, a, takeNewer, takeOlder);
    }
  }

  lemma AnchorFirst(all: set<int>, a: int)
    ensures a in all ==> Desc(UpTo(all, a)) != [] && Desc(UpTo(all, a))[0] == a
    ensures a !in all ==> a !in Desc(all)
    ensures a !in Desc(Newer(all, a))
  {
    hide Desc;
    if a in all {
      var back := Desc(UpTo(all, a));
      assert a in back;
      var k :| 0 <= k < |back| && back[k] == a;
      assert back[0] in back;
    }
  }

  lemma DropSplit<T>(s: seq<T>, lo: nat, hi: nat)
    requires lo <= hi <= |s|
    ensures s[lo..] == s[lo..hi] + s[hi..]
  {
  }

  // `s` is the channel's order from its `lo`-th row on.
  ghost predicate TailFrom(all: set<int>, lo: int, s: seq<int>) {
    0 <= lo <= |Desc(all)| && Desc(all)[lo..] == s
  }

  // What a client sees by following the cursors from a page.
  ghost function Onward(all: set<int>, p: Page, later: nat): seq<int>
    requires Column(all)
  {
    if p.next.None? then p.ids else p.ids + Visit(all, p.next, later)
  }

  // Main result: a window and the pages after it are together everything from the
  // window's newest row down to the oldest row of the channel, once each and in order.
  lemma WindowThenPages(all: set<int>, anchor: Id, limit: nat, p: Page, later: nat)
    requires Column(all) && Windowed(all, anchor, limit, p)
    ensures exists lo :: TailFrom(all, lo, Onward(all, p, later))
  {
    hide Visit, Desc, Older, Bound, Newer, Column, Descending, Balanced;
    var lo, hi :| IsStretch(all, |Newer(all, ToSql(anchor))|, Clamp(limit, 2, MAX_PAGE), p, lo, hi);
    if p.next.Some? {
      VisitsAll(all, p.next, later);
    }
    DropSplit(Desc(all), lo, hi);
    assert TailFrom(all, lo, Onward(all, p, later));
  }
}
