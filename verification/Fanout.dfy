// What one fanout does to the connections it is aimed at, as functions of plain values,
// and the lists that say whom to aim at.
module Fanout {
  import opened Options

  type UserId = nat
  type ChannelId = nat
  type ConnId = nat
  // An encoded frame.
  type Frame = int

  const SEND_QUEUE: nat := 256

  // A connection's bounded queue, and whether the socket still holds the receiving end.
  datatype Box = Box(queue: seq<Frame>, open: bool)

  // The history of a connection: whose it is, what its socket has taken off the queue
  // and what was addressed to it while it was registered.
  datatype Log = Log(user: UserId, received: seq<Frame>, addressed: seq<Frame>)

  // The registered connections, every queue and history, and who overflowed.
  datatype Net = Net(conns: map<ConnId, UserId>, boxes: map<ConnId, Box>, log: map<ConnId, Log>, dropped: set<ConnId>)

  // ---------------------------------------------------------------------------
  // One fanout
  // ---------------------------------------------------------------------------

  predicate Accepts(n: Net, c: ConnId) {
    c in n.conns && c in n.boxes && n.boxes[c].open && |n.boxes[c].queue| < SEND_QUEUE
  }

  predicate Overflows(n: Net, c: ConnId) {
    c in n.conns && c in n.boxes && n.boxes[c].open && |n.boxes[c].queue| >= SEND_QUEUE
  }

  function Reached(n: Net, targets: set<ConnId>): set<ConnId> {
    set c | c in targets && Accepts(n, c)
  }

  function Overflown(n: Net, targets: set<ConnId>): set<ConnId> {
    set c | c in targets && Overflows(n, c)
  }

  // Every reached connection gains the frame at the back of its queue, and no other
  // queue changes.
  function Queued(n: Net, targets: set<ConnId>, f: Frame): map<ConnId, Box> {
    map c | c in n.boxes ::
      if c in targets && Accepts(n, c) then n.boxes[c].(queue := n.boxes[c].queue + [f]) else n.boxes[c]
  }

  // The frame counts as addressed to every registered target, delivered or not.
  function Addressed(n: Net, targets: set<ConnId>, f: Frame): map<ConnId, Log> {
    map c | c in n.log ::
      if c in targets && c in n.conns then n.log[c].(addressed := n.log[c].addressed + [f]) else n.log[c]
  }

  // Exactly the registered targets with room gain the frame, exactly those without room
  // are deregistered, and nobody else notices.
  function Fan(n: Net, targets: set<ConnId>, f: Frame): Net {
    var over := Overflown(n, targets);
    Net(n.conns - over, Queued(n, targets, f), Addressed(n, targets, f), n.dropped + over)
  }

  // What becomes of a connection that `frames` are sent to, one after the other. While it is
  // registered all of them count as addressed to it, and they are queued as long as there is
  // room; the first that does not fit deregisters it, and the rest do not reach it.
  ghost predicate Got(n: Net, n': Net, c: ConnId, frames: seq<Frame>) {
    && c in n.boxes && c in n.log && c in n'.boxes && c in n'.log && |n.boxes[c].queue| <= SEND_QUEUE
    && var b, l, room := n.boxes[c], n.log[c], SEND_QUEUE - |n.boxes[c].queue|;
       if c !in n.conns then
         n'.boxes[c] == b && n'.log[c] == l && c !in n'.conns && (c in n'.dropped <==> c in n.dropped)
       else if b.open && |frames| > room then
         && n'.boxes[c] == Box(b.queue + frames[..room], true)
         && n'.log[c] == l.(addressed := l.addressed + frames[..room + 1])
         && c !in n'.conns && c in n'.dropped
       else
         && n'.boxes[c] == (if b.open then Box(b.queue + frames, true) else b)
         && n'.log[c] == l.(addressed := l.addressed + frames)
         && c in n'.conns && n'.conns[c] == n.conns[c] && (c in n'.dropped <==> c in n.dropped)
  }

  lemma GotNothing(n: Net, c: ConnId)
    requires NoGaps(n) && c in n.boxes
    ensures Got(n, n, c, [])
  {
    assert Gapless(n.boxes[c], n.log[c], c in n.dropped);
    assert n.boxes[c].queue + [] == n.boxes[c].queue && n.log[c].addressed + [] == n.log[c].addressed;
  }

  // One fanout more is one frame more for those it is aimed at and nothing for the others.
  lemma GotNext(n: Net, m: Net, c: ConnId, frames: seq<Frame>, targets: set<ConnId>, f: Frame, aimed: bool)
    requires Got(n, m, c, frames) && (c in m.conns ==> (aimed <==> c in targets))
    ensures Got(n, Fan(m, targets, f), c, if aimed then frames + [f] else frames)
  {
    if c in n.conns && aimed {
      var b, l, room := n.boxes[c], n.log[c], SEND_QUEUE - |n.boxes[c].queue|;
      assert b.queue + frames + [f] == b.queue + (frames + [f]);
      assert l.addressed + frames + [f] == l.addressed + (frames + [f]);
      if b.open && |frames| > room {
        assert (frames + [f])[..room] == frames[..room] && (frames + [f])[..room + 1] == frames[..room + 1];
      } else if b.open && |frames| == room {
        assert (frames + [f])[..room] == frames && (frames + [f])[..room + 1] == frames + [f];
      }
    }
  }

  // Main result: a registered connection whose socket is there and has room gains exactly
  // what was sent to it, at the back of its queue and of its history; one without room is
  // dropped with a full queue; and nobody else's queue or history changes.
  lemma GotMeans(n: Net, n': Net, c: ConnId, frames: seq<Frame>)
    requires Got(n, n', c, frames)
    ensures n'.log[c].user == n.log[c].user && n'.log[c].received == n.log[c].received
    ensures c in n.conns && n.boxes[c].open && |n.boxes[c].queue| + |frames| <= SEND_QUEUE ==>
      && n'.boxes[c].queue == n.boxes[c].queue + frames && n'.log[c].addressed == n.log[c].addressed + frames
      && c in n'.conns && (c in n'.dropped <==> c in n.dropped)
    ensures c in n.conns && n.boxes[c].open && |n.boxes[c].queue| + |frames| > SEND_QUEUE ==>
      && n'.boxes[c].queue == (n.boxes[c].queue + frames)[..SEND_QUEUE]
      && c !in n'.conns && c in n'.dropped
    ensures c !in n.conns || frames == [] ==>
      && n'.boxes[c] == n.boxes[c] && n'.log[c] == n.log[c]
      && (c in n'.conns <==> c in n.conns) && (c in n'.dropped <==> c in n.dropped)
  {
    var b, l := n.boxes[c], n.log[c];
    if c in n.conns && b.open && |b.queue| + |frames| > SEND_QUEUE {
      var room := SEND_QUEUE - |b.queue|;
      assert (b.queue + frames)[..SEND_QUEUE] == b.queue + frames[..room];
    }
    assert b.queue + [] == b.queue && l.addressed + [] == l.addressed;
  }

  lemma FanGot(n: Net, targets: set<ConnId>, f: Frame)
    requires NoGaps(n)
    ensures Fan(n, targets, f).log.Keys == n.log.Keys
    ensures forall c :: c in n.log ==> Got(n, Fan(n, targets, f), c, if c in targets then [f] else [])
  {
    forall c | c in n.log
      ensures Got(n, Fan(n, targets, f), c, if c in targets then [f] else [])
    {
      GotNothing(n, c);
      GotNext(n, n, c, [], targets, f, c in targets);
      assert [] + [f] == [f];
    }
  }

  // The queue is bounded, what was received is a prefix of what was addressed, and while
  // the receiver exists received plus queued is exactly what was addressed, in order and
  // once each; a connection that overflowed lacks only the one frame that did not fit.
  predicate Gapless(b: Box, l: Log, slow: bool) {
    && |b.queue| <= SEND_QUEUE
    && l.received <= l.addressed
    && (b.open && !slow ==> l.received + b.queue == l.addressed)
    && (b.open && slow ==> l.addressed != [] && l.received + b.queue == l.addressed[..|l.addressed| - 1])
  }

  ghost predicate NoGaps(n: Net) {
    n.boxes.Keys == n.log.Keys && forall c :: c in n.boxes ==> Gapless(n.boxes[c], n.log[c], c in n.dropped)
  }

  // A registered connection has a history under its own user and was never dropped.
  ghost predicate Registered(n: Net) {
    && (forall c :: c in n.conns ==> c in n.log && n.log[c].user == n.conns[c] && c !in n.dropped)
    && n.dropped <= n.log.Keys
  }

  // A fanout leaves no gaps: whoever does not get the frame is deregistered by it, and is
  // deregistered once.
  lemma FanKeepsNoGaps(n: Net, targets: set<ConnId>, f: Frame)
    requires NoGaps(n) && Registered(n)
    ensures NoGaps(Fan(n, targets, f)) && Registered(Fan(n, targets, f))
    ensures |Fan(n, targets, f).dropped| == |n.dropped| + |Overflown(n, targets)|
  {
    var n' := Fan(n, targets, f);
    forall c | c in n'.boxes
      ensures Gapless(n'.boxes[c], n'.log[c], c in n'.dropped)
    {
      var b, l := n.boxes[c], n.log[c];
      assert Gapless(b, l, c in n.dropped);
      if c in targets && c in n.conns {
        assert l.addressed + [f] == n'.log[c].addressed;
        if Accepts(n, c) {
          assert l.received + (b.queue + [f]) == (l.received + b.queue) + [f];
        } else {
          assert n'.log[c].addressed[..|n'.log[c].addressed| - 1] == l.addressed;
        }
      }
    }
    assert n.dropped + Overflown(n, targets) - Overflown(n, targets) == n.dropped;
  }

  // Whether another connection takes the frame or overflows is not affected by a fanout it
  // is no target of.
  lemma UnaimedUnchanged(n: Net, targets: set<ConnId>, c: ConnId, f: Frame)
    requires c !in targets
    ensures var n' := Fan(n, targets, f);
      && (c in n'.conns <==> c in n.conns) && (c in n'.boxes <==> c in n.boxes) && (c in n'.log <==> c in n.log)
      && (c in n.boxes ==> n'.boxes[c] == n.boxes[c]) && (c in n.log ==> n'.log[c] == n.log[c])
      && (Accepts(n', c) <==> Accepts(n, c)) && (Overflows(n', c) <==> Overflows(n, c))
  {
  }

  // Aiming at one more connection afterwards is the same as having aimed at it as well.
  lemma OneMoreTarget(n: Net, targets: set<ConnId>, c: ConnId, f: Frame)
    requires c !in targets
    ensures Fan(Fan(n, targets, f), {c}, f) == Fan(n, targets + {c}, f)
    ensures Accepts(Fan(n, targets, f), c) <==> Accepts(n, c)
    ensures |Reached(n, targets + {c})| == |Reached(n, targets)| + if Accepts(n, c) then 1 else 0
  {
    var once := Fan(n, targets, f);
    UnaimedUnchanged(n, targets, c, f);
    assert Queued(once, {c}, f) == Queued(n, targets + {c}, f) by {
      hide Accepts;
    }
    assert Addressed(once, {c}, f) == Addressed(n, targets + {c}, f);
    assert Overflown(n, targets) + Overflown(once, {c}) == Overflown(n, targets + {c}) by {
      hide Overflows;
    }
    assert n.conns - Overflown(n, targets) - Overflown(once, {c}) == n.conns - Overflown(n, targets + {c});
    ReachedMore(n, targets, c);
  }

  lemma ReachedMore(n: Net, targets: set<ConnId>, c: ConnId)
    requires c !in targets
    ensures |Reached(n, targets + {c})| == |Reached(n, targets)| + if Accepts(n, c) then 1 else 0
  {
    hide Accepts;
    if Accepts(n, c) {
      assert Reached(n, targets + {c}) == Reached(n, targets) + {c};
    } else {
      assert Reached(n, targets + {c}) == Reached(n, targets);
    }
  }

  lemma FanShrinks(n: Net, targets: set<ConnId>, f: Frame)
    ensures Fan(n, targets, f).log.Keys == n.log.Keys
    ensures forall c :: c in Fan(n, targets, f).conns ==> c in n.conns && Fan(n, targets, f).conns[c] == n.conns[c]
  {
  }

  lemma FanKeepsUsers(n: Net, targets: set<ConnId>, f: Frame)
    ensures Fan(n, targets, f).log.Keys == n.log.Keys
    ensures forall c :: c in n.log ==> Fan(n, targets, f).log[c].user == n.log[c].user
  {
  }

  // Aimed at one connection.
  lemma OneTarget(n: Net, c: ConnId, f: Frame)
    requires NoGaps(n) && Registered(n)
    ensures c in n.conns ==> c in n.boxes
    ensures Accepts(n, c) ==>
      Fan(n, {c}, f) == n.(boxes := n.boxes[c := Box(n.boxes[c].queue + [f], true)], log := Addressed(n, {c}, f))
    ensures Overflows(n, c) ==>
      Fan(n, {c}, f) == n.(conns := n.conns - {c}, log := Addressed(n, {c}, f), dropped := n.dropped + {c})
    ensures !Accepts(n, c) && !Overflows(n, c) ==> Fan(n, {c}, f) == n.(log := Addressed(n, {c}, f))
    ensures |Overflown(n, {c})| == if Overflows(n, c) then 1 else 0
  {
    if c in n.conns {
      assert Gapless(n.boxes[c], n.log[c], false);
    }
    hide NoGaps, Registered, Gapless, Addressed;
    OneQueued(n, c, f);
    hide Queued;
    OneOverflown(n, c);
    hide Overflown;
  }

  lemma OneQueued(n: Net, c: ConnId, f: Frame)
    ensures Queued(n, {c}, f) == if Accepts(n, c) then n.boxes[c := Box(n.boxes[c].queue + [f], true)] else n.boxes
  {
  }

  lemma OneOverflown(n: Net, c: ConnId)
    ensures Overflown(n, {c}) == if Overflows(n, c) then {c} else {}
  {
  }

  lemma NobodyAimed(n: Net, f: Frame)
    ensures Fan(n, {}, f) == n && Reached(n, {}) == {}
  {
  }

  // A new connection has been addressed nothing.
  function Joined(n: Net, id: ConnId, user: UserId): Net {
    n.(conns := n.conns[id := user], boxes := n.boxes[id := Box([], true)], log := n.log[id := Log(user, [], [])])
  }

  lemma JoinKeepsNoGaps(n: Net, id: ConnId, user: UserId)
    requires NoGaps(n) && Registered(n) && id !in n.log
    ensures NoGaps(Joined(n, id, user)) && Registered(Joined(n, id, user))
  {
  }

  // The socket takes the head of its queue.
  function Taken(n: Net, c: ConnId): Net
    requires c in n.boxes && c in n.log && n.boxes[c].queue != []
  {
    var queue := n.boxes[c].queue;
    n.(boxes := n.boxes[c := Box(queue[1..], true)],
       log := n.log[c := n.log[c].(received := n.log[c].received + [queue[0]])])
  }

  // What it takes is the first addressed frame it has not received yet.
  lemma TakeKeepsNoGaps(n: Net, c: ConnId)
    requires NoGaps(n) && Registered(n) && c in n.boxes && n.boxes[c].open && n.boxes[c].queue != []
    ensures NoGaps(Taken(n, c)) && Registered(Taken(n, c))
    ensures |n.log[c].received| < |n.log[c].addressed|
    ensures n.boxes[c].queue[0] == n.log[c].addressed[|n.log[c].received|]
  {
    var b, l := n.boxes[c], n.log[c];
    assert Gapless(b, l, c in n.dropped);
    var all := l.received + b.queue;
    assert all == (l.received + [b.queue[0]]) + b.queue[1..];
    assert all[|l.received|] == b.queue[0];
  }

  // ---------------------------------------------------------------------------
  // Subscriber lists
  // ---------------------------------------------------------------------------

  predicate Listens(subs: map<ChannelId, seq<ConnId>>, ch: ChannelId, c: ConnId) {
    ch in subs && c in subs[ch]
  }

  ghost predicate Distinct(s: seq<nat>) {
    forall i, j :: 0 <= i < j < |s| ==> s[i] != s[j]
  }

  ghost predicate AllDistinct(lists: map<nat, seq<ConnId>>) {
    forall k :: k in lists ==> Distinct(lists[k])
  }

  ghost predicate SubLists(subs: map<ChannelId, seq<ConnId>>, known: set<ConnId>) {
    AllDistinct(subs) && forall ch, c :: Listens(subs, ch, c) ==> c in known
  }

  function Without(s: seq<ConnId>, x: ConnId): seq<ConnId> {
    if s == [] then [] else (if s[0] == x then [] else [s[0]]) + Without(s[1..], x)
  }

  lemma {:induction false} WithoutIs(s: seq<ConnId>, x: ConnId)
    ensures forall y :: y in Without(s, x) <==> y in s && y != x
    ensures Distinct(s) ==> Distinct(Without(s, x))
  {
    if s != [] {
      WithoutIs(s[1..], x);
      if Distinct(s) {
        forall i, j | 0 <= i < j < |s[1..]|
          ensures s[1..][i] != s[1..][j]
        {
          assert s[i + 1] != s[j + 1];
        }
        assert forall j :: 0 < j < |s| ==> s[0] != s[j];
        assert s[0] !in s[1..];
      }
    }
  }

  function Appended(subs: map<ChannelId, seq<ConnId>>, ch: ChannelId, conn: ConnId): map<ChannelId, seq<ConnId>> {
    var w := if ch in subs then subs[ch] else [];
    subs[ch := if conn in w then w else w + [conn]]
  }

  // Subscribing adds exactly the named pair, whatever was listed before.
  lemma AppendedIs(subs: map<ChannelId, seq<ConnId>>, known: set<ConnId>, ch: ChannelId, conn: ConnId)
    requires SubLists(subs, known) && conn in known
    ensures SubLists(Appended(subs, ch, conn), known)
    ensures forall k, c :: Listens(Appended(subs, ch, conn), k, c) <==> Listens(subs, k, c) || (k == ch && c == conn)
  {
    var w := if ch in subs then subs[ch] else [];
    var w' := if conn in w then w else w + [conn];
    assert Distinct(w');
    assert forall c :: c in w' <==> c in w || c == conn;
    forall k, c
      ensures Listens(Appended(subs, ch, conn), k, c) <==> Listens(subs, k, c) || (k == ch && c == conn)
    {
    }
  }

  function Withdrawn(subs: map<ChannelId, seq<ConnId>>, ch: ChannelId, conn: ConnId): map<ChannelId, seq<ConnId>> {
    if ch in subs then subs[ch := Without(subs[ch], conn)] else subs
  }

  lemma WithdrawnIs(subs: map<ChannelId, seq<ConnId>>, known: set<ConnId>, ch: ChannelId, conn: ConnId)
    requires SubLists(subs, known)
    ensures SubLists(Withdrawn(subs, ch, conn), known)
    ensures forall k, c :: Listens(Withdrawn(subs, ch, conn), k, c) <==> Listens(subs, k, c) && !(k == ch && c == conn)
  {
    if ch in subs {
      WithoutIs(subs[ch], conn);
    }
    forall k, c
      ensures Listens(Withdrawn(subs, ch, conn), k, c) <==> Listens(subs, k, c) && !(k == ch && c == conn)
    {
    }
  }

  // Dropping a connection from every list, and then every list that became empty.
  function Purged(subs: map<ChannelId, seq<ConnId>>, conn: ConnId): map<ChannelId, seq<ConnId>> {
    map ch | ch in subs && Without(subs[ch], conn) != [] :: Without(subs[ch], conn)
  }

  lemma PurgedIs(subs: map<ChannelId, seq<ConnId>>, known: set<ConnId>, conn: ConnId)
    requires SubLists(subs, known)
    ensures SubLists(Purged(subs, conn), known)
    ensures forall k, c :: Listens(Purged(subs, conn), k, c) <==> Listens(subs, k, c) && c != conn
    ensures forall k :: k in Purged(subs, conn) ==> Purged(subs, conn)[k] != []
  {
    forall k | k in subs
      ensures Distinct(Without(subs[k], conn)) && forall c :: c in Without(subs[k], conn) <==> c in subs[k] && c != conn
    {
      WithoutIs(subs[k], conn);
    }
    forall k, c
      ensures Listens(Purged(subs, conn), k, c) <==> Listens(subs, k, c) && c != conn
    {
    }
  }

  // The connections of a list a fanout is aimed at.
  function Aimed(list: seq<ConnId>, skip: Option<ConnId>): set<ConnId> {
    set c | c in list && skip != Some(c)
  }

  lemma AimedNext(list: seq<ConnId>, i: nat, skip: Option<ConnId>)
    requires i < |list| && Distinct(list)
    ensures list[i] !in Aimed(list[..i], skip)
    ensures Aimed(list[..i + 1], skip) == Aimed(list[..i], skip) + if skip == Some(list[i]) then {} else {list[i]}
  {
  }

  // ---------------------------------------------------------------------------
  // A user's own list
  // ---------------------------------------------------------------------------

  predicate Listed(userConns: map<UserId, seq<ConnId>>, u: UserId, c: ConnId) {
    u in userConns && c in userConns[u]
  }

  // A connection that keeps its user online: registered, or dropped for being slow.
  predicate Counts(n: Net, u: UserId, c: ConnId) {
    c in n.log && n.log[c].user == u && (c in n.conns || c in n.dropped)
  }

  ghost predicate Present(n: Net, u: UserId) {
    exists c :: Counts(n, u, c)
  }

  // A user's list holds their registered connections and the ones that were dropped for
  // being slow, which nothing ever takes out again.
  ghost predicate UserLists(n: Net, userConns: map<UserId, seq<ConnId>>) {
    && (forall u, c :: Listed(userConns, u, c) <==> Counts(n, u, c))
    && AllDistinct(userConns)
    && forall u :: u in userConns ==> userConns[u] != []
  }

  lemma JoinKeepsLists(n: Net, userConns: map<UserId, seq<ConnId>>, user: UserId, id: ConnId)
    requires UserLists(n, userConns) && Registered(n) && id !in n.log
    ensures var list := if user in userConns then userConns[user] else [];
      UserLists(Joined(n, id, user), userConns[user := list + [id]])
  {
    var list := if user in userConns then userConns[user] else [];
    var lists' := userConns[user := list + [id]];
    forall i | 0 <= i < |list|
      ensures list[i] != id
    {
      assert Listed(userConns, user, list[i]);
    }
    assert Distinct(list);
    assert Distinct(list + [id]);
    assert forall c :: c in list + [id] <==> c in list || c == id;
    forall u, c
      ensures Listed(lists', u, c) <==> Counts(Joined(n, id, user), u, c)
    {
      assert Listed(userConns, u, c) <==> Counts(n, u, c);
      assert u == user ==> (Listed(lists', u, c) <==> c in list + [id]);
    }
    assert AllDistinct(lists');
  }

  // Taking a registered connection off its user's list leaves the list empty exactly when
  // no other connection keeps the user online.
  lemma LeaveKeepsLists(n: Net, userConns: map<UserId, seq<ConnId>>, conn: ConnId)
    requires UserLists(n, userConns) && Registered(n) && conn in n.conns
    ensures n.conns[conn] in userConns
    ensures var user := n.conns[conn];
      var rest := Without(userConns[user], conn);
      var n' := n.(conns := n.conns - {conn});
      && UserLists(n', if rest == [] then userConns - {user} else userConns[user := rest])
      && (rest == [] <==> !Present(n', user))
  {
    var user := n.conns[conn];
    var n' := n.(conns := n.conns - {conn});
    assert Counts(n, user, conn) && Listed(userConns, user, conn);
    var rest := Without(userConns[user], conn);
    var lists' := if rest == [] then userConns - {user} else userConns[user := rest];
    OneLess(n, conn);
    UnlistedIs(userConns, user, conn);
    hide Counts;
    assert UserLists(n', lists') by {
      hide Listed;
    }
    if rest == [] {
      assert forall c :: !Listed(lists', user, c);
    } else {
      assert Listed(lists', user, rest[0]);
    }
  }

  lemma OneLess(n: Net, conn: ConnId)
    requires Registered(n) && conn in n.conns
    ensures forall u, c :: Counts(n.(conns := n.conns - {conn}), u, c) <==>
        Counts(n, u, c) && !(u == n.conns[conn] && c == conn)
  {
  }

  lemma UnlistedIs(userConns: map<UserId, seq<ConnId>>, user: UserId, conn: ConnId)
    requires AllDistinct(userConns) && user in userConns
    ensures var rest := Without(userConns[user], conn);
      var lists' := if rest == [] then userConns - {user} else userConns[user := rest];
      && AllDistinct(lists')
      && (forall u :: u in lists' ==> lists'[u] != [] || (u in userConns && userConns[u] == []))
      && forall u, c :: Listed(lists', u, c) <==> Listed(userConns, u, c) && !(u == user && c == conn)
  {
    var rest := Without(userConns[user], conn);
    var lists' := if rest == [] then userConns - {user} else userConns[user := rest];
    WithoutIs(userConns[user], conn);
    forall u, c
      ensures Listed(lists', u, c) <==> Listed(userConns, u, c) && !(u == user && c == conn)
    {
      if u == user {
        assert Listed(lists', u, c) <==> c in rest;
      }
    }
  }

  // A fanout moves connections from registered to dropped, so it changes no user's list.
  lemma FanKeepsLists(n: Net, userConns: map<UserId, seq<ConnId>>, targets: set<ConnId>, f: Frame)
    requires UserLists(n, userConns) && NoGaps(n)
    ensures UserLists(Fan(n, targets, f), userConns)
    ensures Fan(n, targets, f).log.Keys == n.log.Keys
  {
  }

  lemma TakeKeepsLists(n: Net, userConns: map<UserId, seq<ConnId>>, c: ConnId)
    requires UserLists(n, userConns) && c in n.boxes && c in n.log && n.boxes[c].queue != []
    ensures UserLists(Taken(n, c), userConns)
  {
  }

  // A user's list may also name connections that are no longer registered; aiming at them
  // changes nothing.
  lemma OnlyRegistered(n: Net, userConns: map<UserId, seq<ConnId>>, user: UserId, f: Frame)
    requires UserLists(n, userConns) && Registered(n)
    ensures var named := Aimed(if user in userConns then userConns[user] else [], None);
      var targets := set c | c in n.conns && n.conns[c] == user;
      Fan(n, named, f) == Fan(n, targets, f) && Reached(n, named) == Reached(n, targets)
  {
    var named := Aimed(if user in userConns then userConns[user] else [], None);
    var targets := set c | c in n.conns && n.conns[c] == user;
    forall c | c in n.conns
      ensures c in named <==> c in targets
    {
      assert Listed(userConns, user, c) <==> Counts(n, user, c);
      assert c in named <==> Listed(userConns, user, c);
    }
    assert Queued(n, named, f) == Queued(n, targets, f);
    assert Addressed(n, named, f) == Addressed(n, targets, f);
    assert Overflown(n, named) == Overflown(n, targets);
  }

  lemma ListedKnown(n: Net, userConns: map<UserId, seq<ConnId>>, user: UserId)
    requires UserLists(n, userConns) && user in userConns
    ensures Distinct(userConns[user]) && forall i :: 0 <= i < |userConns[user]| ==> userConns[user][i] in n.log
  {
    forall i | 0 <= i < |userConns[user]|
      ensures userConns[user][i] in n.log
    {
      assert Listed(userConns, user, userConns[user][i]);
    }
  }

  // A user has a list exactly when some connection keeps them online.
  lemma PresentIf(n: Net, userConns: map<UserId, seq<ConnId>>, user: UserId)
    requires UserLists(n, userConns)
    ensures user in userConns <==> Present(n, user)
  {
    if user in userConns {
      assert Listed(userConns, user, userConns[user][0]);
    } else {
      forall c
        ensures !Counts(n, user, c)
      {
        assert !Listed(userConns, user, c);
      }
    }
  }
}
