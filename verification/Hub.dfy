// The realtime routing table, one atomic step per call: who is connected, who listens
// to what, and the bounded queue of every connection.
module Hub {
  import opened Options
  import opened Fanout

  datatype Presence = Offline | Away | Online

  class Hub {
    var conns: map<ConnId, UserId>
    var channelSubs: map<ChannelId, seq<ConnId>>
    var userConns: map<UserId, seq<ConnId>>
    var away: set<UserId>
    var nextConn: nat
    var framesDelivered: nat
    var droppedSlow: nat
    // The queue of every connection ever made.
    var boxes: map<ConnId, Box>
    // Every connection's history, and the connections that overflowed.
    ghost var log: map<ConnId, Log>
    ghost var dropped: set<ConnId>

    ghost function State(): Net
      reads this
    {
      Net(conns, boxes, log, dropped)
    }

    // No connection has a gap, every overflow was counted once, and the users' lists hold
    // exactly the registered and the overflowed connections.
    ghost predicate Valid()
      reads this
    {
      && NoGaps(State())
      && Registered(State())
      && UserLists(State(), userConns)
      && SubLists(channelSubs, log.Keys)
      && 0 < nextConn && (forall c :: c in log ==> c < nextConn)
      && droppedSlow == |dropped|
    }

    constructor ()
      ensures Valid() && State() == Net(map[], map[], map[], {}) && channelSubs == map[] && away == {}
    {
      conns, channelSubs, userConns, away, nextConn := map[], map[], map[], {}, 1;
      framesDelivered, droppedSlow, boxes := 0, 0, map[];
      log, dropped := map[], {};
    }

    method Connect(user: UserId) returns (id: ConnId)
      requires Valid()
      modifies this`conns, this`userConns, this`nextConn, this`boxes, this`log
      ensures Valid() && id !in old(log)
      ensures State() == Joined(old(State()), id, user)
      ensures conns == old(conns)[id := user] && dropped == old(dropped)
      ensures boxes == old(boxes)[id := Box([], true)] && log == old(log)[id := Log(user, [], [])]
      ensures forall ch :: !Listens(channelSubs, ch, id)
    {
      hide NoGaps, UserLists, Listens, Registered;
      id := nextConn;
      JoinKeepsNoGaps(State(), id, user);
      JoinKeepsLists(State(), userConns, user, id);
      nextConn := nextConn + 1;
      conns := conns[id := user];
      boxes := boxes[id := Box([], true)];
      log := log[id := Log(user, [], [])];
      userConns := userConns[user := (if user in userConns then userConns[user] else []) + [id]];
    }

    // True exactly when no other connection keeps the user online. A connection that was
    // dropped for being slow is no longer registered, so this returns early for it and
    // leaves it in both kinds of list.
    method Disconnect(conn: ConnId) returns (last: bool)
      requires Valid()
      modifies this`conns, this`channelSubs, this`userConns, this`away
      ensures Valid() && conns == old(conns) - {conn}
      ensures last <==> conn in old(conns) && !Present(State(), old(conns)[conn])
      ensures away == if last then old(away) - {old(conns)[conn]} else old(away)
      ensures forall ch, c :: Listens(channelSubs, ch, c) <==>
          Listens(old(channelSubs), ch, c) && !(conn in old(conns) && c == conn)
    {
      hide NoGaps, UserLists, Listens, Purged, Present;
      last := false;
      if conn in conns {
        var user := conns[conn];
        LeaveKeepsLists(State(), userConns, conn);
        PurgedIs(channelSubs, log.Keys, conn);
        KeepsNoGaps(conn);
        conns := conns - {conn};
        channelSubs := Purged(channelSubs, conn);
        var rest := Without(userConns[user], conn);
        last := rest == [];
        if last {
          userConns := userConns - {user};
          away := away - {user};
        } else {
          userConns := userConns[user := rest];
        }
      } else {
        assert conns == conns - {conn};
      }
    }

    lemma KeepsNoGaps(conn: ConnId)
      requires NoGaps(State())
      ensures NoGaps(State().(conns := conns - {conn}))
    {
    }

    // A registered connection is on the list of its own user and on no other.
    lemma RegisteredListed(user: UserId)
      requires Valid()
      ensures forall c :: c in conns ==> (Listed(userConns, user, c) <==> conns[c] == user)
    {
    }

    lemma OwnUser(conn: ConnId)
      requires Valid()
      ensures conn in conns ==> conn in log && conns[conn] == log[conn].user
    {
    }

    method Subscribe(conn: ConnId, channels: seq<ChannelId>)
      requires Valid() && conn in log
      modifies this`channelSubs
      ensures Valid()
      ensures forall ch, c :: Listens(channelSubs, ch, c) <==>
          Listens(old(channelSubs), ch, c) || (c == conn && ch in channels)
    {
      hide NoGaps, UserLists, Registered, Listens, Appended;
      for i := 0 to |channels|
        invariant Valid()
        invariant forall ch, c :: Listens(channelSubs, ch, c) <==>
            Listens(old(channelSubs), ch, c) || (c == conn && ch in channels[..i])
      {
        AppendedIs(channelSubs, log.Keys, channels[i], conn);
        channelSubs := Appended(channelSubs, channels[i], conn);
        assert channels[..i + 1] == channels[..i] + [channels[i]];
      }
      assert channels[..|channels|] == channels;
    }

    method SubscribeUser(user: UserId, channel: ChannelId)
      requires Valid()
      modifies this`channelSubs
      ensures Valid()
      ensures forall ch, c :: Listens(channelSubs, ch, c) <==>
          Listens(old(channelSubs), ch, c) || (ch == channel && Listed(userConns, user, c))
    {
      hide NoGaps, UserLists, Registered, Listens;
      if user !in userConns {
        return;
      }
      var list := userConns[user];
      ListedKnown(State(), userConns, user);
      for i := 0 to |list|
        invariant Valid()
        invariant forall ch, c :: Listens(channelSubs, ch, c) <==>
            Listens(old(channelSubs), ch, c) || (ch == channel && c in list[..i])
      {
        Subscribe(list[i], [channel]);
        assert list[..i + 1] == list[..i] + [list[i]];
      }
      assert list[..|list|] == list;
    }

    method Unsubscribe(conn: ConnId, channels: seq<ChannelId>)
      requires Valid()
      modifies this`channelSubs
      ensures Valid()
      ensures forall ch, c :: Listens(channelSubs, ch, c) <==>
          Listens(old(channelSubs), ch, c) && !(c == conn && ch in channels)
    {
      hide NoGaps, UserLists, Registered, Listens, Withdrawn;
      for i := 0 to |channels|
        invariant Valid()
        invariant forall ch, c :: Listens(channelSubs, ch, c) <==>
            Listens(old(channelSubs), ch, c) && !(c == conn && ch in channels[..i])
      {
        WithdrawnIs(channelSubs, log.Keys, channels[i], conn);
        channelSubs := Withdrawn(channelSubs, channels[i], conn);
        assert channels[..i + 1] == channels[..i] + [channels[i]];
      }
      assert channels[..|channels|] == channels;
    }

    method UnsubscribeUser(user: UserId, channel: ChannelId)
      requires Valid()
      modifies this`channelSubs
      ensures Valid()
      ensures forall ch, c :: Listens(channelSubs, ch, c) <==>
          Listens(old(channelSubs), ch, c) && !(ch == channel && Listed(userConns, user, c))
    {
      hide NoGaps, UserLists, Registered, Listens;
      if user !in userConns {
        return;
      }
      var list := userConns[user];
      for i := 0 to |list|
        invariant Valid()
        invariant forall ch, c :: Listens(channelSubs, ch, c) <==>
            Listens(old(channelSubs), ch, c) && !(ch == channel && c in list[..i])
      {
        Unsubscribe(list[i], [channel]);
        assert list[..i + 1] == list[..i] + [list[i]];
      }
      assert list[..|list|] == list;
    }

    // Non-blocking: a full queue deregisters its connection, and a closed one is ignored.
    method Deliver(conn: ConnId, payload: Frame) returns (ok: bool)
      requires Valid()
      modifies this`conns, this`boxes, this`droppedSlow, this`log, this`dropped
      ensures Valid() && State() == Fan(old(State()), {conn}, payload)
      ensures ok <==> Accepts(old(State()), conn)
      ensures ok <==> conn in old(conns) && old(boxes)[conn].open && |old(boxes)[conn].queue| < SEND_QUEUE
      ensures forall c :: c in old(log) ==> Got(old(State()), State(), c, if c == conn then [payload] else [])
    {
      hide NoGaps, UserLists, SubLists, Registered, Fan, Addressed, Overflown, Got;
      FanGot(State(), {conn}, payload);
      FanKeepsNoGaps(State(), {conn}, payload);
      FanKeepsLists(State(), userConns, {conn}, payload);
      OneTarget(State(), conn, payload);
      ghost var log' := Addressed(State(), {conn}, payload);
      ok := false;
      if conn in conns && boxes[conn].open {
        var queue := boxes[conn].queue;
        if |queue| < SEND_QUEUE {
          boxes := boxes[conn := Box(queue + [payload], true)];
          ok := true;
        } else {
          droppedSlow := droppedSlow + 1;
          dropped := dropped + {conn};
          conns := conns - {conn};
        }
      }
      log := log';
    }

    // Delivers to each of a list of connections in turn.
    method DeliverAll(list: seq<ConnId>, skip: Option<ConnId>, payload: Frame) returns (sent: nat)
      requires Valid() && Distinct(list)
      modifies this`conns, this`boxes, this`droppedSlow, this`log, this`dropped, this`framesDelivered
      ensures Valid() && State() == Fan(old(State()), Aimed(list, skip), payload)
      ensures sent == |Reached(old(State()), Aimed(list, skip))| && framesDelivered == old(framesDelivered) + sent
    {
      hide NoGaps, UserLists, Registered, SubLists, Fan, Reached, Accepts, Valid, Overflown, Got;
      sent := 0;
      ghost var n := State();
      NobodyAimed(n, payload);
      assert Aimed(list[..0], skip) == {};
      for i := 0 to |list|
        invariant Valid() && framesDelivered == old(framesDelivered)
        invariant State() == Fan(n, Aimed(list[..i], skip), payload)
        invariant sent == |Reached(n, Aimed(list[..i], skip))|
      {
        AimedNext(list, i, skip);
        if skip != Some(list[i]) {
          OneMoreTarget(n, Aimed(list[..i], skip), list[i], payload);
          var ok := Deliver(list[i], payload);
          if ok {
            sent := sent + 1;
          }
        }
      }
      assert list[..|list|] == list;
      CountDelivered(sent);
    }

    method CountDelivered(sent: nat)
      requires Valid()
      modifies this`framesDelivered
      ensures Valid() && framesDelivered == old(framesDelivered) + sent
    {
      framesDelivered := framesDelivered + sent;
    }

    // Addressed to every connection that listens to the channel except the one to be
    // skipped, and to nobody else.
    method Broadcast(channel: ChannelId, payload: Frame, except: Option<ConnId>) returns (sent: nat)
      requires Valid()
      modifies this`conns, this`boxes, this`droppedSlow, this`log, this`dropped, this`framesDelivered
      ensures Valid()
      ensures var targets := set c | c in old(log) && Listens(channelSubs, channel, c) && except != Some(c);
        State() == Fan(old(State()), targets, payload) && sent == |Reached(old(State()), targets)|
      ensures forall c :: c in old(log) ==> Got(old(State()), State(), c,
          if Listens(channelSubs, channel, c) && except != Some(c) then [payload] else [])
    {
      hide NoGaps, UserLists, Registered, Fan, Reached, Got;
      FanGot(State(), (set c | c in log && Listens(channelSubs, channel, c) && except != Some(c)), payload);
      ghost var targets := set c | c in log && Listens(channelSubs, channel, c) && except != Some(c);
      if channel !in channelSubs {
        NobodyAimed(State(), payload);
        assert targets == {};
        return 0;
      }
      assert Aimed(channelSubs[channel], except) == targets by {
        forall c | c in channelSubs[channel]
          ensures Listens(channelSubs, channel, c)
        {
        }
      }
      sent := DeliverAll(channelSubs[channel], except, payload);
    }

    // Addressed to every registered connection of the user, and to nobody else.
    method SendToUser(user: UserId, payload: Frame) returns (sent: nat)
      requires Valid()
      modifies this`conns, this`boxes, this`droppedSlow, this`log, this`dropped, this`framesDelivered
      ensures Valid()
      ensures var targets := set c | c in old(conns) && old(conns)[c] == user;
        State() == Fan(old(State()), targets, payload) && sent == |Reached(old(State()), targets)|
      ensures forall c :: c in old(log) ==>
          Got(old(State()), State(), c, if c in old(conns) && old(conns)[c] == user then [payload] else [])
    {
      hide NoGaps, UserLists, Registered, SubLists, Fan, Reached, Got;
      FanGot(State(), (set c | c in conns && conns[c] == user), payload);
      OnlyRegistered(State(), userConns, user, payload);
      if user !in userConns {
        assert Aimed([], None) == {};
        NobodyAimed(State(), payload);
        return 0;
      }
      ListedKnown(State(), userConns, user);
      sent := DeliverAll(userConns[user], None, payload);
    }

    // The socket takes the next frame off its queue: the first one addressed to it that
    // it has not received yet. A deregistered connection keeps what was queued.
    method Recv(conn: ConnId) returns (frame: Option<Frame>)
      requires Valid() && conn in boxes && boxes[conn].open
      modifies this`boxes, this`log
      ensures Valid() && conn in old(log)
      ensures frame.None? <==> old(boxes)[conn].queue == []
      ensures frame.None? ==> State() == old(State())
      ensures frame.Some? ==> State() == Taken(old(State()), conn)
      ensures frame.Some? ==>
        && boxes[conn].queue == old(boxes)[conn].queue[1..] && boxes[conn].open
        && log[conn] == old(log)[conn].(received := old(log)[conn].received + [frame.value])
      ensures frame.Some? ==> old(log)[conn].received + [frame.value] <= old(log)[conn].addressed
    {
      hide UserLists, SubLists, Registered;
      var queue := boxes[conn].queue;
      if queue == [] {
        return None;
      }
      TakeKeepsNoGaps(State(), conn);
      TakeKeepsLists(State(), userConns, conn);
      assert log.Keys == Taken(State(), conn).log.Keys;
      boxes := boxes[conn := Box(queue[1..], true)];
      log := log[conn := log[conn].(received := log[conn].received + [queue[0]])];
      frame := Some(queue[0]);
    }

    // The socket's side goes away; what was still queued is lost with it.
    method CloseReceiver(conn: ConnId)
      requires Valid() && conn in boxes
      modifies this`boxes
      ensures Valid() && boxes == old(boxes)[conn := Box([], false)]
    {
      hide SubLists;
      assert Gapless(boxes[conn], log[conn], conn in dropped);
      ghost var n := State();
      boxes := boxes[conn := Box([], false)];
      assert forall u, c :: Counts(State(), u, c) <==> Counts(n, u, c);
    }

    // Offline exactly when no connection keeps the user online.
    method PresenceOf(user: UserId) returns (p: Presence)
      requires Valid()
      ensures p.Offline? <==> !Present(State(), user)
      ensures !p.Offline? ==> (p.Away? <==> user in away)
    {
      hide NoGaps, UserLists, Registered, SubLists, Present;
      PresentIf(State(), userConns, user);
      p := if user !in userConns then Offline else if user in away then Away else Online;
    }

    // Reports a presence exactly when it changed.
    method SetPresence(user: UserId, presence: Presence) returns (r: Option<Presence>)
      requires Valid()
      modifies this`away
      ensures Valid()
      ensures away == if presence.Away? then old(away) + {user} else old(away) - {user}
      ensures r.Some? <==> Present(State(), user) && (presence.Away? <==> user !in old(away))
      ensures r.Some? ==> r.value == if presence.Away? then Away else Online
    {
      hide NoGaps, UserLists, Registered, SubLists, Present;
      var before := PresenceOf(user);
      if presence.Away? {
        away := away + {user};
      } else {
        away := away - {user};
      }
      var after := PresenceOf(user);
      r := if after != before then Some(after) else None;
    }
  }

  // A run in which a user's only connection overflows and is then torn down: nobody is
  // registered any more, yet the teardown does not report the user as gone and they show
  // as online. `Hub.Disconnect` says exactly when this happens.
  method SlowTabOutlivesItself(user: UserId, frame: Frame) returns (last: bool, p: Presence, live: nat)
    ensures !last && p.Online? && live == 0
  {
    hide NoGaps, UserLists, Registered, SubLists, Fan, Joined, Hub.Valid, Present;
    var hub := new Hub();
    var c := hub.Connect(user);
    JoinedFirst(c, user);
    Overflow(hub, c, user, frame);
    last := hub.Disconnect(c);
    p := hub.PresenceOf(user);
    live := |hub.conns|;
  }

  // More frames than the queue of a user's only connection holds.
  method Overflow(hub: Hub, c: ConnId, user: UserId, frame: Frame)
    requires hub.Valid() && hub.State() == Net(map[c := user], map[c := Box([], true)], map[c := Log(user, [], [])], {})
    modifies hub`conns, hub`boxes, hub`droppedSlow, hub`log, hub`dropped
    ensures hub.Valid() && hub.conns == map[] && Present(hub.State(), user)
  {
    hide NoGaps, UserLists, Registered, SubLists, Fan, Hub.Valid;
    for i := 0 to SEND_QUEUE
      invariant hub.Valid() && hub.conns == map[c := user]
      invariant OneTab(hub.State(), c, user, i)
    {
      DeliveredOne(hub.State(), c, user, frame, i);
      var _ := hub.Deliver(c, frame);
    }
    DeliveredOne(hub.State(), c, user, frame, SEND_QUEUE);
    var _ := hub.Deliver(c, frame);
    assert Counts(hub.State(), user, c);
  }

  // One connection with `queued` frames waiting.
  ghost predicate OneTab(n: Net, c: ConnId, user: UserId, queued: nat) {
    && n.conns == map[c := user] && c in n.log && n.log[c].user == user
    && c in n.boxes && n.boxes[c].open && |n.boxes[c].queue| == queued
  }

  lemma JoinedFirst(c: ConnId, user: UserId)
    ensures Joined(Net(map[], map[], map[], {}), c, user) ==
        Net(map[c := user], map[c := Box([], true)], map[c := Log(user, [], [])], {})
  {
  }

  lemma DeliveredOne(n: Net, c: ConnId, user: UserId, f: Frame, queued: nat)
    requires OneTab(n, c, user, queued)
    ensures var n' := Fan(n, {c}, f);
      && (queued < SEND_QUEUE ==> OneTab(n', c, user, queued + 1))
      && (queued >= SEND_QUEUE ==> n'.conns == map[] && c in n'.dropped)
      && c in n'.boxes && n'.boxes[c].open && c in n'.log && n'.log[c].user == user
  {
  }
}
