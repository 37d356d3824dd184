// The service operations as write-then-route steps: each changes the members table and
// then the routing table, and every step leaves the two in agreement.
module Workspace {
  import opened Options
  import opened Fanout
  import opened Routing
  import opened Hub

  datatype Error = BadRequest | Forbidden | NotFound | Conflict | Internal

  datatype Result<+T> = Ok(value: T) | Err(error: Error)

  const MAX_ADD_MEMBERS: nat := 50

  class Workspace {
    const hub: Hub
    // Whether a known user's account is active.
    var users: map<UserId, bool>
    var channels: map<ChannelId, Channel>
    var members: Members
    // The connections that have had their snapshot, and what clients unsubscribed.
    ghost var ready: set<ConnId>
    ghost var out: OptOuts

    ghost predicate RoutedBut(at: ChannelId, missing: set<UserId>, extra: set<UserId>)
      reads this, hub
    {
      && hub.Valid()
      && ready <= hub.log.Keys
      && Routed(hub.conns, hub.channelSubs, members, ready, out, at, missing, extra)
    }

    ghost predicate Valid()
      reads this, hub
    {
      RoutedBut(0, {}, {}) && Tables(channels, members, users)
    }

    constructor (hub: Hub, users: map<UserId, bool>)
      requires hub.Valid() && hub.channelSubs == map[] && hub.State() == Net(map[], map[], map[], {})
      ensures Valid() && this.hub == hub && members == {} && channels == map[] && this.users == users
    {
      this.hub, this.users, channels, members := hub, users, map[], {};
      ready, out := {}, {};
    }

    // Nothing was written and nobody was told anything.
    twostate predicate Untouched()
      reads this, hub
    {
      && channels == old(channels) && members == old(members)
      && hub.State() == old(hub.State()) && hub.channelSubs == old(hub.channelSubs)
    }

    // -------------------------------------------------------------------------
    // The routing steps
    // -------------------------------------------------------------------------

    method Announce(channel: ChannelId, frame: Frame, except: Option<ConnId>,
                    ghost at: ChannelId, ghost missing: set<UserId>, ghost extra: set<UserId>)
      requires RoutedBut(at, missing, extra)
      modifies hub`conns, hub`boxes, hub`droppedSlow, hub`log, hub`dropped, hub`framesDelivered
      ensures RoutedBut(at, missing, extra)
      ensures hub.State() == Fan(old(hub.State()), Hearing(old(hub.log).Keys, hub.channelSubs, channel, except), frame)
    {
      hide Routed, Fan;
      ghost var before, n := hub.conns, hub.State();
      var _ := hub.Broadcast(channel, frame, except);
      FanShrinks(n, Hearing(n.log.Keys, hub.channelSubs, channel, except), frame);
      FewerKeepRouted(before, hub.conns, hub.channelSubs, members, ready, out, at, missing, extra);
    }

    method Tell(user: UserId, frame: Frame, ghost at: ChannelId, ghost missing: set<UserId>)
      requires RoutedBut(at, missing, {})
      modifies hub`conns, hub`boxes, hub`droppedSlow, hub`log, hub`dropped, hub`framesDelivered
      ensures RoutedBut(at, missing, {})
      ensures hub.State() == Fan(old(hub.State()), Own(old(hub.conns), user), frame)
    {
      hide Routed, Fan;
      ghost var before, n := hub.conns, hub.State();
      var _ := hub.SendToUser(user, frame);
      FanShrinks(n, Own(before, user), frame);
      FewerKeepRouted(before, hub.conns, hub.channelSubs, members, ready, out, at, missing, {});
    }

    method Enlist(user: UserId, channel: ChannelId, ghost missing: set<UserId>)
      requires RoutedBut(channel, missing, {}) && Member(members, channel, user)
      modifies this`out, hub`channelSubs
      ensures RoutedBut(channel, missing - {user}, {})
      ensures forall ch, c :: Listens(hub.channelSubs, ch, c) <==>
          Listens(old(hub.channelSubs), ch, c) || (ch == channel && Listed(hub.userConns, user, c))
    {
      hide Routed, Listens, Listed;
      ghost var before := hub.channelSubs;
      hub.SubscribeUser(user, channel);
      hub.RegisteredListed(user);
      SubUserKeepsRouted(hub.conns, before, hub.channelSubs, members, ready, out, channel, missing, user,
                         hub.userConns);
      out := Pruned(out, hub.channelSubs);
    }

    // -------------------------------------------------------------------------
    // Connections
    // -------------------------------------------------------------------------

    method Connect(user: UserId) returns (id: ConnId)
      requires Valid()
      modifies hub
      ensures Valid() && id !in old(hub.log)
      ensures hub.State() == Joined(old(hub.State()), id, user)
    {
      hide Routed, Tables, Listens;
      ghost var before, subs := hub.conns, hub.channelSubs;
      id := hub.Connect(user);
      JoinKeepsRouted(before, hub.channelSubs, members, ready, out, id, user);
    }

    method Disconnect(conn: ConnId) returns (last: bool)
      requires Valid()
      modifies hub`conns, hub`channelSubs, hub`userConns, hub`away
      ensures Valid() && hub.conns == old(hub.conns) - {conn}
      ensures last <==> conn in old(hub.conns) && !Present(hub.State(), old(hub.conns)[conn])
      ensures hub.away == if last then old(hub.away) - {old(hub.conns)[conn]} else old(hub.away)
      ensures forall ch, c :: Listens(hub.channelSubs, ch, c) <==>
          Listens(old(hub.channelSubs), ch, c) && !(conn in old(hub.conns) && c == conn)
    {
      hide Routed, Tables, Listens, Present;
      ghost var before, subs := hub.conns, hub.channelSubs;
      last := hub.Disconnect(conn);
      LeaveKeepsRouted(before, subs, hub.channelSubs, members, ready, out, conn);
    }

    // The snapshot subscribes the connection to every channel its user is a member of.
    // `ids` is the result of the membership query.
    method SendReady(conn: ConnId, user: UserId, ids: seq<ChannelId>, frame: Frame)
      requires Valid() && conn in hub.log && hub.log[conn].user == user
      requires forall ch :: ch in ids <==> Member(members, ch, user)
      modifies this`ready, this`out, hub`conns, hub`boxes, hub`droppedSlow, hub`log, hub`dropped, hub`channelSubs
      ensures Valid() && ready == old(ready) + {conn}
      ensures hub.State() == Fan(old(hub.State()), {conn}, frame)
      ensures forall ch, c :: Listens(hub.channelSubs, ch, c) <==>
          Listens(old(hub.channelSubs), ch, c) || (c == conn && ch in ids)
    {
      hide Routed, Tables, Listens, Fan, Pruned, Member;
      Admit(conn, user, ids);
      ready := ready + {conn};
      SendToConn(conn, frame);
    }

    // Subscribes a connection to channels its user is a member of.
    method Admit(conn: ConnId, user: UserId, ids: seq<ChannelId>)
      requires RoutedBut(0, {}, {}) && conn in hub.log && hub.log[conn].user == user
      requires forall ch :: ch in ids ==> Member(members, ch, user)
      modifies this`out, hub`channelSubs
      ensures RoutedBut(0, {}, {})
      ensures (forall ch :: Member(members, ch, user) ==> ch in ids) ==>
          Routed(hub.conns, hub.channelSubs, members, ready + {conn}, out, 0, {}, {})
      ensures forall ch, c :: Listens(hub.channelSubs, ch, c) <==>
          Listens(old(hub.channelSubs), ch, c) || (c == conn && ch in ids)
    {
      hide Routed, Tables, Listens, Member, Pruned;
      ghost var subs := hub.channelSubs;
      hub.Subscribe(conn, ids);
      hub.OwnUser(conn);
      SubKeepsRouted(hub.conns, subs, hub.channelSubs, members, ready, out, conn, user, ids);
      out := Pruned(out, hub.channelSubs);
    }

    method SendToConn(conn: ConnId, frame: Frame)
      requires RoutedBut(0, {}, {})
      modifies hub`conns, hub`boxes, hub`droppedSlow, hub`log, hub`dropped
      ensures RoutedBut(0, {}, {})
      ensures hub.State() == Fan(old(hub.State()), {conn}, frame)
    {
      hide Routed, Fan;
      ghost var before, n := hub.conns, hub.State();
      var _ := hub.Deliver(conn, frame);
      FanShrinks(n, {conn}, frame);
      FewerKeepRouted(before, hub.conns, hub.channelSubs, members, ready, out, 0, {}, {});
    }

    // A client asks for channels; those its user is not a member of are refused.
    method Sub(conn: ConnId, user: UserId, channels: seq<ChannelId>, refusal: Frame)
      requires Valid() && conn in hub.log && hub.log[conn].user == user
      modifies this`out, hub`conns, hub`boxes, hub`droppedSlow, hub`log, hub`dropped, hub`channelSubs
      ensures Valid()
      ensures forall ch, c :: Listens(hub.channelSubs, ch, c) <==>
          Listens(old(hub.channelSubs), ch, c) || (c == conn && ch in channels && Member(members, ch, user))
      ensures hub.State() == if forall ch :: ch in channels ==> Member(members, ch, user) then old(hub.State())
                             else Fan(old(hub.State()), {conn}, refusal)
    {
      hide Routed, Tables, Listens, Fan, Pruned, Member;
      var allowed := Allowed(user, channels);
      if |allowed| != |channels| {
        SendToConn(conn, refusal);
        FanKeepsUsers(old(hub.State()), {conn}, refusal);
      }
      Admit(conn, user, allowed);
    }

    method Allowed(user: UserId, channels: seq<ChannelId>) returns (allowed: seq<ChannelId>)
      ensures forall ch :: ch in allowed <==> ch in channels && Member(members, ch, user)
      ensures |allowed| == |channels| <==> forall ch :: ch in channels ==> Member(members, ch, user)
    {
      allowed := [];
      for i := 0 to |channels|
        invariant forall ch :: ch in allowed <==> ch in channels[..i] && Member(members, ch, user)
        invariant |allowed| <= i && (|allowed| == i <==> forall ch :: ch in channels[..i] ==> Member(members, ch, user))
      {
        assert channels[..i + 1] == channels[..i] + [channels[i]];
        assert channels[i] in channels[..i + 1];
        if Member(members, channels[i], user) {
          allowed := allowed + [channels[i]];
        }
      }
      assert channels[..|channels|] == channels;
    }

    method Unsub(conn: ConnId, channels: seq<ChannelId>)
      requires Valid()
      modifies this`out, hub`channelSubs
      ensures Valid()
      ensures forall ch, c :: Listens(hub.channelSubs, ch, c) <==>
          Listens(old(hub.channelSubs), ch, c) && !(c == conn && ch in channels)
    {
      hide Routed, Tables, Listens;
      ghost var subs := hub.channelSubs;
      hub.Unsubscribe(conn, channels);
      UnsubKeepsRouted(hub.conns, subs, hub.channelSubs, members, ready, out, conn, channels);
      out := out + set ch | ch in channels :: (ch, conn);
    }

    // -------------------------------------------------------------------------
    // Channels
    // -------------------------------------------------------------------------

    // Adds the rows for a new channel and its first members, all or nothing.
    method Insert(id: ChannelId, c: Channel, who: set<UserId>)
      requires Valid() && id !in channels && who <= users.Keys
      requires c.name != "" ==> !NameTaken(channels, c.name)
      requires Direct(c.kind) ==> c.key == who && |who| >= 2 && (c.kind.Dm? <==> |who| == 2) && c.name == ""
      requires Direct(c.kind) ==> NoDmYet(channels, who)
      modifies this`channels, this`members
      ensures RoutedBut(id, who, {}) && Tables(channels, members, users)
      ensures channels == old(channels)[id := c]
      ensures forall ch, u :: Member(members, ch, u) <==> if ch == id then u in who else Member(old(members), ch, u)
    {
      hide Routed;
      assert forall u :: !Member(members, id, u);
      hide Tables;
      NewChannelKeepsTables(channels, members, users, id, c, who);
      GainMembers(hub.conns, hub.channelSubs, members, ready, out, id, who);
      channels := channels[id := c];
      members := WithMembers(members, id, who);
    }

    // Subscribes and tells each of a list of members about their channel.
    method Invite(list: seq<UserId>, channel: ChannelId, chan: Frame, ghost who: set<UserId>)
      requires RoutedBut(channel, who, {})
      requires forall u :: u in list ==> Member(members, channel, u)
      requires forall u :: u in who ==> u in list
      modifies this`out, hub`channelSubs, hub`conns, hub`boxes
      modifies hub`droppedSlow, hub`log, hub`dropped, hub`framesDelivered
      ensures RoutedBut(0, {}, {})
      ensures hub.State() == Told(old(hub.State()), list, chan)
    {
      hide Routed, Listens, Listed, Fan;
      ghost var n := hub.State();
      assert who - Elements(list[..0]) == who;
      for i := 0 to |list|
        invariant RoutedBut(channel, who - Elements(list[..i]), {})
        invariant hub.State() == Told(n, list[..i], chan)
      {
        assert list[..i + 1][..i] == list[..i];
        ghost var missing := who - Elements(list[..i]);
        Enlist(list[i], channel, missing);
        Tell(list[i], chan, channel, missing - {list[i]});
        MissingNext(who, list, i);
      }
      assert list[..|list|] == list;
      assert who - Elements(list) == {};
      SettledAnywhere(hub.conns, hub.channelSubs, members, ready, out, channel);
    }

    method CreateChannel(creator: UserId, id: ChannelId, name: string, valid: bool, kind: Kind,
                         list: seq<UserId>, chan: Frame)
      returns (r: Result<ChannelId>)
      requires Valid() && creator in users && (valid ==> name != "")
      modifies this`channels, this`members, this`out, hub`channelSubs, hub`conns
      modifies hub`boxes, hub`droppedSlow, hub`log, hub`dropped, hub`framesDelivered
      ensures Valid()
      ensures r == if Direct(kind) || !valid then Err(BadRequest)
                   else if id in old(channels) || NameTaken(old(channels), name) then Err(Conflict)
                   else if exists u :: u in list && u !in users then Err(Internal)
                   else Ok(id)
      ensures r.Err? ==> Untouched()
      ensures r.Ok? ==> channels == old(channels)[id := Channel(kind, name, false, {})]
      ensures r.Ok? ==> forall ch, u :: Member(members, ch, u) <==>
          Member(old(members), ch, u) || (ch == id && (u in list || u == creator))
      ensures r.Ok? ==> hub.log.Keys == old(hub.log).Keys
      ensures r.Ok? ==> forall c :: c in old(hub.log) ==>
          Got(old(hub.State()), hub.State(), c,
              if c in old(hub.conns) then Times(list + [creator], old(hub.conns)[c], chan) else [])
    {
      hide Routed, Listens, Listed, Told, Fan, Got, Times, NoGaps;
      ToldGot(hub.State(), list + [creator], chan);
      if Direct(kind) || !valid {
        return Err(BadRequest);
      }
      if id in channels || NameTaken(channels, name) {
        return Err(Conflict);
      }
      if exists u :: u in list && u !in users {
        return Err(Internal);
      }
      Insert(id, Channel(kind, name, false, {}), Elements(list) + {creator});
      Invite(list + [creator], id, chan, Elements(list) + {creator});
      r := Ok(id);
    }

    predicate NotForDm(creator: UserId, with: seq<UserId>) {
      with == [] || |with| > 8 || forall u :: u in with ==> u == creator
    }

    // Finds the conversation of exactly these people, or creates it.
    method OpenDm(creator: UserId, id: ChannelId, with: seq<UserId>, chan: Frame) returns (r: Result<ChannelId>)
      requires Valid() && creator in users
      modifies this`channels, this`members, this`out, hub`channelSubs, hub`conns
      modifies hub`boxes, hub`droppedSlow, hub`log, hub`dropped, hub`framesDelivered
      ensures Valid()
      ensures r == Err(BadRequest) <==> NotForDm(creator, with)
      ensures !NotForDm(creator, with) ==>
        exists list ::
          IsGroup(list, with, creator) && Opened(r, id, list, chan, old(channels), old(members), old(hub.State()))
      ensures r.Err? ==> Untouched()
    {
      hide Routed, Listens, Listed, Told, Fan, Tables, Member, Opened, RoutedBut;
      if with == [] || |with| > 8 {
        return Err(BadRequest);
      }
      var all := Elements(with) + {creator};
      if all == {creator} {
        assert forall u :: u in with ==> u in all;
        return Err(BadRequest);
      }
      assert !NotForDm(creator, with) by {
        assert exists u :: u in with && u != creator;
      }
      AtLeastTwo(all, creator);
      var list := Sorted(with + [creator]);
      assert IsGroup(list, with, creator) && Elements(list) == all;
      hide IsGroup, NotForDm;
      r := OpenFor(id, list, chan);
    }

    // These people, each once.
    ghost predicate IsGroup(list: seq<UserId>, with: seq<UserId>, creator: UserId) {
      Ascending(list) && forall u :: u in list <==> u in with || u == creator
    }

    // What came of opening a conversation of the people in `list` under a new `id`: an
    // existing conversation of theirs is found, and otherwise one is made unless the id is
    // taken or somebody is unknown; either way each of them is told.
    ghost predicate Opened(r: Result<ChannelId>, id: ChannelId, list: seq<UserId>, chan: Frame,
                           channels0: map<ChannelId, Channel>, members0: Members, n: Net)
      reads this, hub
    {
      && (r == Err(NotFound) <==> NoDmYet(channels0, Elements(list)) && id in channels0)
      && (r == Err(Internal) <==>
          NoDmYet(channels0, Elements(list)) && id !in channels0 && !(Elements(list) <= users.Keys))
      && (r.Err? ==> r.error.NotFound? || r.error.Internal?)
      && (r.Ok? ==>
          && r.value in channels && Direct(channels[r.value].kind)
          && (forall u :: Member(members, r.value, u) <==> u in list)
          && hub.log.Keys == n.log.Keys
          && (forall c :: c in n.log ==>
                Got(n, hub.State(), c, if c in n.conns then Times(list, n.conns[c], chan) else []))
          && if NoDmYet(channels0, Elements(list))
             then r.value == id && forall ch, u :: ch != id ==> (Member(members, ch, u) <==> Member(members0, ch, u))
             else r.value in channels0 && channels == channels0 && members == members0)
    }

    method OpenFor(id: ChannelId, list: seq<UserId>, chan: Frame) returns (r: Result<ChannelId>)
      requires Valid() && |Elements(list)| >= 2
      modifies this`channels, this`members, this`out, hub`channelSubs, hub`conns
      modifies hub`boxes, hub`droppedSlow, hub`log, hub`dropped, hub`framesDelivered
      ensures Valid() && Opened(r, id, list, chan, old(channels), old(members), old(hub.State()))
      ensures r.Err? ==> !r.error.BadRequest? && Untouched()
    {
      hide Routed, Listens, Listed, Told, Fan, Tables, Member, NoDmYet, Got, Times, NoGaps;
      ToldGot(hub.State(), list, chan);
      var all := Elements(list);
      var found := FindDm(all);
      if found.Some? {
        GainNobody(found.value);
        Invite(list, found.value, chan, {});
        return Ok(found.value);
      }
      if id in channels {
        // The insert loses to the primary key, and there is still no such conversation.
        return Err(NotFound);
      }
      if !(all <= users.Keys) {
        return Err(Internal);
      }
      Insert(id, Channel(if |all| == 2 then Dm else Group, "", false, all), all);
      Invite(list, id, chan, all);
      r := Ok(id);
    }

    method FindDm(all: set<UserId>) returns (r: Option<ChannelId>)
      requires Valid()
      ensures r.None? <==> NoDmYet(channels, all)
      ensures r.Some? ==>
          r.value in channels && Direct(channels[r.value].kind) && forall u :: Member(members, r.value, u) <==> u in all
    {
      if ch :| ch in channels && Direct(channels[ch].kind) && channels[ch].key == all {
        assert FixedMembers(channels[ch], ch, members);
        return Some(ch);
      }
      r := None;
    }

    lemma GainNobody(ch: ChannelId)
      requires Valid()
      ensures RoutedBut(ch, {}, {})
    {
    }

    // Subscribes an arrival, announces it to the channel and tells it about the channel.
    method Welcome(user: UserId, channel: ChannelId, member: Frame, chan: Frame, ghost missing: set<UserId>)
      requires RoutedBut(channel, missing, {}) && Member(members, channel, user)
      modifies this`out, hub`channelSubs, hub`conns, hub`boxes
      modifies hub`droppedSlow, hub`log, hub`dropped, hub`framesDelivered
      ensures RoutedBut(channel, missing - {user}, {}) && hub.log.Keys == old(hub.log.Keys)
      ensures hub.State() ==
          Welcomed(old(hub.State()), Hearing(old(hub.log).Keys, hub.channelSubs, channel, None), user, member, chan)
      ensures forall ch, c :: Listens(hub.channelSubs, ch, c) <==>
          Listens(old(hub.channelSubs), ch, c) || (ch == channel && Listed(hub.userConns, user, c))
    {
      hide Routed, Listens, Listed, Fan;
      ghost var n := hub.State();
      Enlist(user, channel, missing);
      ghost var hearing := Hearing(n.log.Keys, hub.channelSubs, channel, None);
      Announce(channel, member, None, channel, missing - {user}, {});
      FanShrinks(n, hearing, member);
      FanShrinks(hub.State(), Own(hub.conns, user), chan);
      Tell(user, chan, channel, missing - {user});
    }

    // New arrivals of a named channel, one after the other.
    method Arrive(list: seq<UserId>, channel: ChannelId, member: UserId -> Frame, chan: Frame)
      requires Valid() && channel in channels && !Direct(channels[channel].kind)
      requires forall u :: u in list ==> u in users
      modifies this`members, this`out, hub`channelSubs, hub`conns
      modifies hub`boxes, hub`droppedSlow, hub`log, hub`dropped, hub`framesDelivered
      ensures Valid()
      ensures forall ch, u :: Member(members, ch, u) <==> Member(old(members), ch, u) || (ch == channel && u in list)
      ensures hub.State() == Arrived(old(hub.State()), old(hub.channelSubs), hub.userConns, channel, list, member, chan)
      ensures forall ch, c :: Listens(hub.channelSubs, ch, c) <==>
          Listens(old(hub.channelSubs), ch, c) || (ch == channel && AnyListed(hub.userConns, list, c))
    {
      hide Routed, Tables, Listens, Listed, AnyListed, Arrived;
      ghost var who := Elements(list);
      MoreMembersKeepTables(channels, members, users, channel, who);
      GainMembers(hub.conns, hub.channelSubs, members, ready, out, channel, who);
      members := WithMembers(members, channel, Elements(list));
      WelcomeEach(list, channel, member, chan);
    }

    // The routing of new members, whose rows are there already.
    method WelcomeEach(list: seq<UserId>, channel: ChannelId, member: UserId -> Frame, chan: Frame)
      requires RoutedBut(channel, Elements(list), {}) && forall u :: u in list ==> Member(members, channel, u)
      modifies this`out, hub`channelSubs, hub`conns
      modifies hub`boxes, hub`droppedSlow, hub`log, hub`dropped, hub`framesDelivered
      ensures RoutedBut(0, {}, {})
      ensures hub.State() == Arrived(old(hub.State()), old(hub.channelSubs), hub.userConns, channel, list, member, chan)
      ensures forall ch, c :: Listens(hub.channelSubs, ch, c) <==>
          Listens(old(hub.channelSubs), ch, c) || (ch == channel && AnyListed(hub.userConns, list, c))
    {
      hide Routed, Listens, Listed, AnyListed, Fan, Welcomed, Hearing, HearingBoth, Member;
      ghost var n, subs, who := hub.State(), hub.channelSubs, Elements(list);
      AnyListedNone(hub.userConns, list);
      for i := 0 to |list|
        invariant RoutedBut(channel, who - Elements(list[..i]), {}) && hub.log.Keys == n.log.Keys
        invariant hub.State() == Arrived(n, subs, hub.userConns, channel, list[..i], member, chan)
        invariant forall ch, c :: Listens(hub.channelSubs, ch, c) <==>
            Listens(subs, ch, c) || (ch == channel && AnyListed(hub.userConns, list[..i], c))
      {
        ghost var missing := who - Elements(list[..i]);
        AnyListedNext(hub.userConns, list, i);
        Welcome(list[i], channel, member(list[i]), chan, missing);
        assert list[..i + 1][..i] == list[..i];
        MissingNext(who, list, i);
        HearingIs(n.log.Keys, subs, hub.channelSubs, hub.userConns, channel, list[..i + 1]);
      }
      assert list[..|list|] == list;
      assert who - Elements(list) == {};
      SettledAnywhere(hub.conns, hub.channelSubs, members, ready, out, channel);
    }

    // What the arrival of new members will be heard as.
    lemma Heard(list: seq<UserId>, channel: ChannelId, member: UserId -> Frame, chan: Frame)
      requires Valid() && Ascending(list) && forall u :: u in list ==> !Member(members, channel, u)
      ensures HeardArrivals(hub.State(),
                            Arrived(hub.State(), hub.channelSubs, hub.userConns, channel, list, member, chan),
                            hub.channelSubs, channel, list, member, chan)
    {
      hide Routed, Tables, Listens, Listed, Arrived, HeardArrivals, NoGaps;
      forall u, c | c in hub.conns
        ensures Listed(hub.userConns, u, c) <==> hub.conns[c] == u
      {
        hub.RegisteredListed(u);
      }
      StrangersDoNotListen(hub.conns, hub.channelSubs, members, ready, out);
      ArrivalsAreHeard(hub.State(), hub.channelSubs, hub.userConns, channel, list, member, chan);
    }

    // Only a public channel can be joined. A first join is announced to the channel after
    // the joiner's connections were subscribed, so they hear it too.
    method JoinChannel(user: UserId, channel: ChannelId, member: UserId -> Frame, chan: Frame) returns (r: Result<bool>)
      requires Valid() && user in users
      modifies this`members, this`out, hub`channelSubs, hub`conns
      modifies hub`boxes, hub`droppedSlow, hub`log, hub`dropped, hub`framesDelivered
      ensures Valid()
      ensures r == if channel !in channels then Err(NotFound)
                   else if !channels[channel].kind.Public? then Err(Forbidden)
                   else if channels[channel].archived then Err(BadRequest)
                   else Ok(!Member(old(members), channel, user))
      ensures r != Ok(true) ==>
          Untouched()
      ensures r == Ok(true) ==>
          forall ch, u :: Member(members, ch, u) <==> Member(old(members), ch, u) || (ch == channel && u == user)
      ensures r == Ok(true) ==> hub.log.Keys == old(hub.log).Keys
      ensures r == Ok(true) ==> forall c :: c in old(hub.log) ==>
          Got(old(hub.State()), hub.State(), c,
              if c !in old(hub.conns) then []
              else if old(hub.conns)[c] == user then [member(user), chan]
              else if Listens(old(hub.channelSubs), channel, c) then [member(user)] else [])
    {
      hide Routed, Tables, Listens, Listed, Fan, Arrived, Got, NoGaps, HeardArrivals;
      if channel !in channels {
        return Err(NotFound);
      }
      if !channels[channel].kind.Public? {
        return Err(Forbidden);
      }
      if channels[channel].archived {
        return Err(BadRequest);
      }
      if Member(members, channel, user) {
        return Ok(false);
      }
      ghost var n, subs := hub.State(), hub.channelSubs;
      Heard([user], channel, member, chan);
      Arrive([user], channel, member, chan);
      OneArrivalHeard(n, hub.State(), subs, channel, user, member, chan);
      r := Ok(true);
    }

    predicate Uninvitable(channel: ChannelId, list: seq<UserId>)
      reads this
    {
      channel !in channels || Direct(channels[channel].kind) || channels[channel].archived ||
      list == [] || |Elements(list)| > MAX_ADD_MEMBERS
    }

    // All or nothing: one unknown or deactivated account refuses the whole call.
    method AddMembers(actor: UserId, channel: ChannelId, list: seq<UserId>, member: UserId -> Frame, chan: Frame)
      returns (r: Result<seq<UserId>>)
      requires Valid()
      modifies this`members, this`out, hub`channelSubs, hub`conns
      modifies hub`boxes, hub`droppedSlow, hub`log, hub`dropped, hub`framesDelivered
      ensures Valid()
      ensures r.Err? ==>
          r.error == if !Member(members, channel, actor) then Forbidden
                     else if Uninvitable(channel, list) then BadRequest else NotFound
      ensures r.Ok? <==>
          && Member(old(members), channel, actor) && !Uninvitable(channel, list)
          && forall u :: u in list ==> u in users && users[u]
      ensures r.Err? ==> Untouched()
      ensures r.Ok? ==> Ascending(r.value) && forall u :: u in r.value <==>
          u in list && !Member(old(members), channel, u)
      ensures r.Ok? ==> forall ch, u :: Member(members, ch, u) <==>
          Member(old(members), ch, u) || (ch == channel && u in list)
      ensures r.Ok? ==> hub.log.Keys == old(hub.log).Keys
      ensures r.Ok? ==> forall c, j ::
          c in old(hub.conns) && c in old(hub.log) && 0 <= j < |r.value| && old(hub.conns)[c] == r.value[j] ==>
          Got(old(hub.State()), hub.State(), c, [member(r.value[j]), chan] + Each(r.value[j + 1..], member))
      ensures r.Ok? ==> forall c ::
          c in old(hub.log) && (c in old(hub.conns) ==> old(hub.conns)[c] !in r.value) ==>
          Got(old(hub.State()), hub.State(), c,
              if c in old(hub.conns) && Listens(old(hub.channelSubs), channel, c) then Each(r.value, member) else [])
    {
      hide Routed, Listens, Listed, Fan, Arrived, NoGaps, Got, Each;
      if !Member(members, channel, actor) {
        return Err(Forbidden);
      }
      if Direct(channels[channel].kind) || channels[channel].archived {
        return Err(BadRequest);
      }
      var wanted := Sorted(list);
      AscendingSize(wanted);
      assert Elements(wanted) == Elements(list);
      assert wanted == [] <==> list == [] by {
        assert wanted != [] ==> wanted[0] in list;
        assert list != [] ==> list[0] in wanted;
      }
      if wanted == [] || |wanted| > MAX_ADD_MEMBERS {
        return Err(BadRequest);
      }
      var added := [];
      for i := 0 to |wanted|
        invariant forall u :: u in wanted[..i] ==> u in users && users[u]
        invariant forall u :: u in added <==> u in wanted[..i] && !Member(members, channel, u)
        invariant Ascending(added)
      {
        assert wanted[..i + 1] == wanted[..i] + [wanted[i]];
        if !(wanted[i] in users && users[wanted[i]]) {
          return Err(NotFound);
        }
        if !Member(members, channel, wanted[i]) {
          forall j | 0 <= j < |added|
            ensures added[j] < wanted[i]
          {
            assert added[j] in wanted[..i];
          }
          added := added + [wanted[i]];
        }
      }
      assert wanted[..|wanted|] == wanted;
      assert forall u :: u in wanted <==> u in list;
      Heard(added, channel, member, chan);
      Arrive(added, channel, member, chan);
      r := Ok(added);
    }

    // A departure is announced while the leaver can still hear it; afterwards no
    // registered connection of theirs is routed there.
    method Depart(user: UserId, channel: ChannelId, member: Frame) returns (left: bool)
      requires Valid() && channel in channels && !Direct(channels[channel].kind)
      modifies this`members, hub`channelSubs, hub`conns, hub`boxes
      modifies hub`droppedSlow, hub`log, hub`dropped, hub`framesDelivered
      ensures Valid() && left == Member(old(members), channel, user)
      ensures !left ==> Untouched()
      ensures forall ch, u :: Member(members, ch, u) <==> Member(old(members), ch, u) && !(ch == channel && u == user)
      ensures left ==> hub.log.Keys == old(hub.log).Keys
      ensures left ==> forall c :: c in old(hub.log) ==>
          Got(old(hub.State()), hub.State(), c, if Listens(old(hub.channelSubs), channel, c) then [member] else [])
      ensures left ==> forall c :: c in hub.conns && hub.conns[c] == user ==> !Listens(hub.channelSubs, channel, c)
    {
      hide Routed, Tables, Listens, Listed, Fan, Member, Got, NoGaps;
      left := Member(members, channel, user);
      if left {
        FewerMembersKeepTables(channels, members, users, channel, user);
        LoseMember(hub.conns, hub.channelSubs, members, ready, out, channel, user);
        members := members - {(channel, user)};
        FanGot(hub.State(), Hearing(hub.log.Keys, hub.channelSubs, channel, None), member);
        Announce(channel, member, None, channel, {}, {user});
        ghost var subs := hub.channelSubs;
        hub.UnsubscribeUser(user, channel);
        hub.RegisteredListed(user);
        UnsubUserKeepsRouted(hub.conns, subs, hub.channelSubs, members, ready, out, channel, user, hub.userConns);
      }
    }

    method LeaveChannel(user: UserId, channel: ChannelId, member: Frame) returns (r: Result<bool>)
      requires Valid()
      modifies this`members, hub`channelSubs, hub`conns, hub`boxes
      modifies hub`droppedSlow, hub`log, hub`dropped, hub`framesDelivered
      ensures Valid()
      ensures r == if channel !in channels then Err(NotFound)
               else if Direct(channels[channel].kind) then Err(BadRequest)
                   else Ok(Member(old(members), channel, user))
      ensures r != Ok(true) ==>
          Untouched()
      ensures r.Ok? ==> forall ch, u :: Member(members, ch, u) <==>
          Member(old(members), ch, u) && !(ch == channel && u == user)
      ensures r == Ok(true) ==> hub.log.Keys == old(hub.log).Keys
      ensures r == Ok(true) ==> forall c :: c in old(hub.log) ==>
          Got(old(hub.State()), hub.State(), c, if Listens(old(hub.channelSubs), channel, c) then [member] else [])
      ensures r.Ok? ==> forall c :: c in hub.conns && hub.conns[c] == user ==> !Listens(hub.channelSubs, channel, c)
    {
      if channel !in channels {
        return Err(NotFound);
      }
      if Direct(channels[channel].kind) {
        return Err(BadRequest);
      }
      var left := Depart(user, channel, member);
      r := Ok(left);
    }

    // Any member may remove any other; removing oneself is leaving.
    method RemoveMember(actor: UserId, channel: ChannelId, user: UserId, member: Frame) returns (r: Result<bool>)
      requires Valid()
      modifies this`members, hub`channelSubs, hub`conns, hub`boxes
      modifies hub`droppedSlow, hub`log, hub`dropped, hub`framesDelivered
      ensures Valid()
      ensures r.Err? <==>
          || channel !in channels || Direct(channels[channel].kind)
          || (user != actor && !Member(old(members), channel, actor))
      ensures r == Err(Forbidden) <==> user != actor && !Member(old(members), channel, actor)
      ensures r != Ok(true) ==>
          Untouched()
      ensures r.Ok? ==> r.value == Member(old(members), channel, user)
      ensures r.Ok? ==> forall ch, u :: Member(members, ch, u) <==>
          Member(old(members), ch, u) && !(ch == channel && u == user)
      ensures r == Ok(true) ==> hub.log.Keys == old(hub.log).Keys
      ensures r == Ok(true) ==> forall c :: c in old(hub.log) ==>
          Got(old(hub.State()), hub.State(), c, if Listens(old(hub.channelSubs), channel, c) then [member] else [])
      ensures r.Ok? ==> forall c :: c in hub.conns && hub.conns[c] == user ==> !Listens(hub.channelSubs, channel, c)
    {
      if user == actor {
        r := LeaveChannel(user, channel, member);
        return;
      }
      if !Member(members, channel, actor) {
        return Err(Forbidden);
      }
      if Direct(channels[channel].kind) {
        return Err(BadRequest);
      }
      var left := Depart(user, channel, member);
      r := Ok(left);
    }

    // A stored message is addressed to registered connections of current members only,
    // and to every one of those that has had its snapshot and did not unsubscribe.
    method Post(channel: ChannelId, frame: Frame)
      requires Valid()
      modifies hub`conns, hub`boxes, hub`droppedSlow, hub`log, hub`dropped, hub`framesDelivered
      ensures Valid()
      ensures hub.log.Keys == old(hub.log).Keys
      ensures forall c :: c in old(hub.log) ==>
          Got(old(hub.State()), hub.State(), c, if Listens(hub.channelSubs, channel, c) then [frame] else [])
      ensures forall c :: c in old(hub.conns) && Listens(hub.channelSubs, channel, c) ==>
          Member(members, channel, old(hub.conns)[c])
      ensures forall c :: c in old(hub.conns) && c in ready && !OptedOut(out, channel, c) ==>
          Member(members, channel, old(hub.conns)[c]) ==> Listens(hub.channelSubs, channel, c)
    {
      hide Tables, Fan, Got;
      FanGot(hub.State(), Hearing(hub.log.Keys, hub.channelSubs, channel, None), frame);
      assert forall c :: c in hub.conns ==> c in hub.log;
      Announce(channel, frame, None, 0, {}, {});
    }
  }
}
