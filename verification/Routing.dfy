// How the routing table and the members table have to agree, as predicates over plain
// values.
module Routing {
  import opened Options
  import opened Fanout

  datatype Kind = Public | Private | Dm | Group

  // `key` is the member set a direct conversation was opened for.
  datatype Channel = Channel(kind: Kind, name: string, archived: bool, key: set<UserId>)

  type Members = set<(ChannelId, UserId)>

  predicate Direct(kind: Kind) {
    kind.Dm? || kind.Group?
  }

  predicate Member(members: Members, ch: ChannelId, u: UserId) {
    (ch, u) in members
  }

  function WithMembers(members: Members, ch: ChannelId, who: set<UserId>): Members {
    members + set u | u in who :: (ch, u)
  }

  lemma WithMembersIs(members: Members, at: ChannelId, who: set<UserId>)
    ensures forall ch, u :: Member(WithMembers(members, at, who), ch, u) <==>
        Member(members, ch, u) || (ch == at && u in who)
  {
  }

  // The pairs of channel and connection that are outside the automatic subscription: the
  // client unsubscribed itself.
  type OptOuts = set<(ChannelId, ConnId)>

  predicate OptedOut(out: OptOuts, ch: ChannelId, c: ConnId) {
    (ch, c) in out
  }

  // Main invariant. A registered connection in a channel's list belongs to a current
  // member; and once it has had its snapshot, it is in the list of every channel its user
  // is a member of, unless its own client unsubscribed it. While a step is under way the
  // users in `extra` may still be routed `at` although they are no longer members, and
  // those in `missing` may not be routed there yet.
  ghost predicate Routed(conns: map<ConnId, UserId>, subs: map<ChannelId, seq<ConnId>>, members: Members,
                         ready: set<ConnId>, out: OptOuts, at: ChannelId, missing: set<UserId>, extra: set<UserId>)
  {
    && (forall ch, c :: c in conns && Listens(subs, ch, c) ==>
          Member(members, ch, conns[c]) || (ch == at && conns[c] in extra))
    && forall ch, c :: c in conns && c in ready && Member(members, ch, conns[c]) && !OptedOut(out, ch, c) ==>
         Listens(subs, ch, c) || (ch == at && conns[c] in missing)
  }

  // Pairs that are subscribed again stop being opted out.
  function Pruned(out: OptOuts, subs: map<ChannelId, seq<ConnId>>): OptOuts {
    set p | p in out && !Listens(subs, p.0, p.1)
  }

  lemma FewerKeepRouted(conns: map<ConnId, UserId>, conns': map<ConnId, UserId>, subs: map<ChannelId, seq<ConnId>>,
                        members: Members, ready: set<ConnId>, out: OptOuts, at: ChannelId,
                        missing: set<UserId>, extra: set<UserId>)
    requires Routed(conns, subs, members, ready, out, at, missing, extra)
    requires forall c :: c in conns' ==> c in conns && conns'[c] == conns[c]
    ensures Routed(conns', subs, members, ready, out, at, missing, extra)
  {
  }

  // A new connection listens to nothing and has had no snapshot yet.
  lemma JoinKeepsRouted(conns: map<ConnId, UserId>, subs: map<ChannelId, seq<ConnId>>, members: Members,
                        ready: set<ConnId>, out: OptOuts, id: ConnId, user: UserId)
    requires Routed(conns, subs, members, ready, out, 0, {}, {})
    requires id !in ready && forall ch :: !Listens(subs, ch, id)
    ensures Routed(conns[id := user], subs, members, ready, out, 0, {}, {})
  {
  }

  lemma LeaveKeepsRouted(conns: map<ConnId, UserId>, subs: map<ChannelId, seq<ConnId>>, subs': map<ChannelId,
                         seq<ConnId>>,
                         members: Members, ready: set<ConnId>, out: OptOuts, conn: ConnId)
    requires Routed(conns, subs, members, ready, out, 0, {}, {})
    requires forall ch, c :: Listens(subs', ch, c) <==> Listens(subs, ch, c) && !(conn in conns && c == conn)
    ensures Routed(conns - {conn}, subs', members, ready, out, 0, {}, {})
  {
  }

  // One connection is subscribed to channels its user is a member of.
  lemma SubKeepsRouted(conns: map<ConnId, UserId>, subs: map<ChannelId, seq<ConnId>>, subs': map<ChannelId,
                       seq<ConnId>>,
                       members: Members, ready: set<ConnId>, out: OptOuts, conn: ConnId,
                       user: UserId, channels: seq<ChannelId>)
    requires Routed(conns, subs, members, ready, out, 0, {}, {})
    requires conn in conns ==> conns[conn] == user
    requires forall ch :: ch in channels ==> Member(members, ch, user)
    requires forall ch, c :: Listens(subs', ch, c) <==> Listens(subs, ch, c) || (c == conn && ch in channels)
    ensures Routed(conns, subs', members, ready, Pruned(out, subs'), 0, {}, {})
    ensures (forall ch :: Member(members, ch, user) ==> ch in channels) ==>
      Routed(conns, subs', members, ready + {conn}, Pruned(out, subs'), 0, {}, {})
  {
  }

  lemma UnsubKeepsRouted(conns: map<ConnId, UserId>, subs: map<ChannelId, seq<ConnId>>, subs': map<ChannelId,
                         seq<ConnId>>,
                         members: Members, ready: set<ConnId>, out: OptOuts, conn: ConnId, channels: seq<ChannelId>)
    requires Routed(conns, subs, members, ready, out, 0, {}, {})
    requires forall ch, c :: Listens(subs', ch, c) <==> Listens(subs, ch, c) && !(c == conn && ch in channels)
    ensures Routed(conns, subs', members, ready, out + (set ch | ch in channels :: (ch, conn)), 0, {}, {})
  {
  }

  // New members: they are missing from the list until they are subscribed.
  lemma GainMembers(conns: map<ConnId, UserId>, subs: map<ChannelId, seq<ConnId>>, members: Members, ready: set<ConnId>,
                    out: OptOuts, at: ChannelId, users: set<UserId>)
    requires Routed(conns, subs, members, ready, out, 0, {}, {})
    ensures Routed(conns, subs, WithMembers(members, at, users), ready, out, at, users, {})
  {
  }

  // Subscribing every connection of a member is what they were missing.
  lemma SubUserKeepsRouted(conns: map<ConnId, UserId>, subs: map<ChannelId, seq<ConnId>>, subs': map<ChannelId,
                           seq<ConnId>>,
                           members: Members, ready: set<ConnId>, out: OptOuts, at: ChannelId,
                           missing: set<UserId>, user: UserId,
                           userConns: map<UserId, seq<ConnId>>)
    requires Routed(conns, subs, members, ready, out, at, missing, {}) && Member(members, at, user)
    requires forall c :: c in conns ==> (Listed(userConns, user, c) <==> conns[c] == user)
    requires forall ch, c :: Listens(subs', ch, c) <==> Listens(subs, ch, c) || (ch == at && Listed(userConns, user, c))
    ensures Routed(conns, subs', members, ready, Pruned(out, subs'), at, missing - {user}, {})
  {
  }

  lemma LoseMember(conns: map<ConnId, UserId>, subs: map<ChannelId, seq<ConnId>>, members: Members, ready: set<ConnId>,
                   out: OptOuts, at: ChannelId, user: UserId)
    requires Routed(conns, subs, members, ready, out, 0, {}, {})
    ensures Routed(conns, subs, members - {(at, user)}, ready, out, at, {}, {user})
  {
  }

  lemma UnsubUserKeepsRouted(conns: map<ConnId, UserId>, subs: map<ChannelId, seq<ConnId>>,
                             subs': map<ChannelId, seq<ConnId>>,
                             members: Members, ready: set<ConnId>, out: OptOuts, at: ChannelId, user: UserId,
                             userConns: map<UserId, seq<ConnId>>)
    requires Routed(conns, subs, members, ready, out, at, {}, {user}) && !Member(members, at, user)
    requires forall c :: c in conns ==> (Listed(userConns, user, c) <==> conns[c] == user)
    requires forall ch, c :: Listens(subs', ch, c) <==>
        Listens(subs, ch, c) && !(ch == at && Listed(userConns, user, c))
    ensures Routed(conns, subs', members, ready, out, 0, {}, {})
  {
  }

  lemma StrangersDoNotListen(conns: map<ConnId, UserId>, subs: map<ChannelId, seq<ConnId>>, members: Members,
                             ready: set<ConnId>, out: OptOuts)
    requires Routed(conns, subs, members, ready, out, 0, {}, {})
    ensures forall ch, c :: c in conns && Listens(subs, ch, c) ==> Member(members, ch, conns[c])
  {
  }

  lemma SettledAnywhere(conns: map<ConnId, UserId>, subs: map<ChannelId, seq<ConnId>>, members: Members,
                        ready: set<ConnId>,
                        out: OptOuts, at: ChannelId)
    requires Routed(conns, subs, members, ready, out, at, {}, {})
    ensures Routed(conns, subs, members, ready, out, 0, {}, {})
  {
  }

  // ---------------------------------------------------------------------------
  // Whom a step addresses
  // ---------------------------------------------------------------------------

  // The known connections that listen to a channel, except one that is skipped.
  ghost function Hearing(known: set<ConnId>, subs: map<ChannelId, seq<ConnId>>, channel: ChannelId,
                         except: Option<ConnId>): set<ConnId> {
    set c | c in known && Listens(subs, channel, c) && except != Some(c)
  }

  ghost function Own(conns: map<ConnId, UserId>, user: UserId): set<ConnId> {
    set c | c in conns && conns[c] == user
  }

  // Every user of a list is told in turn, on every connection they have registered then.
  ghost function Told(n: Net, list: seq<UserId>, chan: Frame): Net {
    if list == [] then n else
    var before := Told(n, list[..|list| - 1], chan);
    Fan(before, Own(before.conns, list[|list| - 1]), chan)
  }

  predicate AnyListed(userConns: map<UserId, seq<ConnId>>, list: seq<UserId>, c: ConnId) {
    exists u :: u in list && Listed(userConns, u, c)
  }

  ghost function HearingBoth(known: set<ConnId>, subs: map<ChannelId, seq<ConnId>>, userConns: map<UserId, seq<ConnId>>,
                             channel: ChannelId, list: seq<UserId>): set<ConnId>
  {
    set c | c in known && (Listens(subs, channel, c) || AnyListed(userConns, list, c))
  }

  // One arrival is announced to those who hear the channel, and then told about it.
  ghost function Welcomed(n: Net, hearing: set<ConnId>, u: UserId, member: Frame, chan: Frame): Net {
    var announced := Fan(n, hearing, member);
    Fan(announced, Own(announced.conns, u), chan)
  }

  // Each arrival is announced to those who listened before and to the arrivals so far,
  // themselves included, and then told about the channel.
  ghost function Arrived(n: Net, subs: map<ChannelId, seq<ConnId>>, userConns: map<UserId, seq<ConnId>>,
                         channel: ChannelId,
                         list: seq<UserId>, member: UserId -> Frame, chan: Frame): Net
  {
    if list == [] then n else
    var u := list[|list| - 1];
    var before := Arrived(n, subs, userConns, channel, list[..|list| - 1], member, chan);
    Welcomed(before, HearingBoth(n.log.Keys, subs, userConns, channel, list), u, member(u), chan)
  }

  // The frame once for each time `u` is on the list.
  function Times(list: seq<UserId>, u: UserId, chan: Frame): (r: seq<Frame>)
    ensures |r| == multiset(list)[u] && forall i :: 0 <= i < |r| ==> r[i] == chan
  {
    if list == [] then []
    else
      assert list == list[..|list| - 1] + [list[|list| - 1]];
      if list[|list| - 1] == u then Times(list[..|list| - 1], u, chan) + [chan] else Times(list[..|list| - 1], u, chan)
  }

  // Whoever is registered is told once for each time its user is on the list, and nobody
  // else is told anything.
  lemma ToldGot(n: Net, list: seq<UserId>, chan: Frame)
    requires NoGaps(n)
    ensures Told(n, list, chan).log.Keys == n.log.Keys
    ensures forall c :: c in n.log ==>
        Got(n, Told(n, list, chan), c, if c in n.conns then Times(list, n.conns[c], chan) else [])
  {
    hide Got, Fan, NoGaps, Told;
    forall c | c in n.log
      ensures Got(n, Told(n, list, chan), c, if c in n.conns then Times(list, n.conns[c], chan) else [])
    {
      OneToldGot(n, list, chan, c);
    }
    ToldKeys(n, list, chan);
  }

  lemma {:induction false} ToldKeys(n: Net, list: seq<UserId>, chan: Frame)
    ensures Told(n, list, chan).log.Keys == n.log.Keys
  {
    if list != [] {
      ToldKeys(n, list[..|list| - 1], chan);
    }
  }

  lemma {:induction false} OneToldGot(n: Net, list: seq<UserId>, chan: Frame, c: ConnId)
    requires NoGaps(n) && c in n.log
    ensures Got(n, Told(n, list, chan), c, if c in n.conns then Times(list, n.conns[c], chan) else [])
  {
    hide Got, Fan;
    if list == [] {
      NoneUnlogged(n, c);
      GotNothing(n, c);
    } else {
      var init, v := list[..|list| - 1], list[|list| - 1];
      var m := Told(n, init, chan);
      OneToldGot(n, init, chan, c);
      hide NoGaps;
      var u := if c in n.conns then n.conns[c] else 0;
      var before := if c in n.conns then Times(init, u, chan) else [];
      GotRegistered(n, m, c, before);
      GotNext(n, m, c, before, Own(m.conns, v), chan, c in n.conns && u == v);
    }
  }

  lemma NoneUnlogged(n: Net, c: ConnId)
    requires NoGaps(n) && c in n.log
    ensures c in n.boxes
  {
  }

  lemma GotRegistered(n: Net, m: Net, c: ConnId, frames: seq<Frame>)
    requires Got(n, m, c, frames)
    ensures c in m.conns ==> c in n.conns && m.conns[c] == n.conns[c]
  {
  }

  // What a registered connection of `u` hears of the arrivals in `list`, if it listened to
  // the channel before or not.
  ghost function Hears(u: UserId, listened: bool, list: seq<UserId>, member: UserId -> Frame, chan: Frame): seq<Frame> {
    if list == [] then [] else
    var v := list[|list| - 1];
    var before := Hears(u, listened, list[..|list| - 1], member, chan);
    var heard := if listened || u in list then before + [member(v)] else before;
    if u == v then heard + [chan] else heard
  }

  lemma ArrivedGot(n: Net, subs: map<ChannelId, seq<ConnId>>, userConns: map<UserId, seq<ConnId>>, channel: ChannelId,
                   list: seq<UserId>, member: UserId -> Frame, chan: Frame)
    requires NoGaps(n)
    requires forall u, c :: c in n.conns ==> (Listed(userConns, u, c) <==> n.conns[c] == u)
    ensures Arrived(n, subs, userConns, channel, list, member, chan).log.Keys == n.log.Keys
    ensures forall c :: c in n.log ==>
        Got(n, Arrived(n, subs, userConns, channel, list, member, chan), c,
            if c in n.conns then Hears(n.conns[c], Listens(subs, channel, c), list, member, chan) else [])
  {
    hide Got, Fan, NoGaps, Arrived, Hears;
    ArrivedKeys(n, subs, userConns, channel, list, member, chan);
    forall c | c in n.log
      ensures Got(n, Arrived(n, subs, userConns, channel, list, member, chan), c,
          if c in n.conns then Hears(n.conns[c], Listens(subs, channel, c), list, member, chan) else [])
    {
      OneArrivedGot(n, subs, userConns, channel, list, member, chan, c);
    }
  }

  lemma {:induction false} ArrivedKeys(n: Net, subs: map<ChannelId, seq<ConnId>>, userConns: map<UserId, seq<ConnId>>,
                                       channel: ChannelId, list: seq<UserId>, member: UserId -> Frame, chan: Frame)
    ensures Arrived(n, subs, userConns, channel, list, member, chan).log.Keys == n.log.Keys
  {
    if list != [] {
      ArrivedKeys(n, subs, userConns, channel, list[..|list| - 1], member, chan);
    }
  }

  lemma {:induction false} OneArrivedGot(n: Net, subs: map<ChannelId, seq<ConnId>>,
                                         userConns: map<UserId, seq<ConnId>>, channel: ChannelId, list: seq<UserId>,
                                         member: UserId -> Frame, chan: Frame, c: ConnId)
    requires NoGaps(n) && c in n.log
    requires forall u :: c in n.conns ==> (Listed(userConns, u, c) <==> n.conns[c] == u)
    ensures Got(n, Arrived(n, subs, userConns, channel, list, member, chan), c,
        if c in n.conns then Hears(n.conns[c], Listens(subs, channel, c), list, member, chan) else [])
  {
    if list == [] {
      GotNothing(n, c);
    } else {
      var init, v := list[..|list| - 1], list[|list| - 1];
      var m := Arrived(n, subs, userConns, channel, init, member, chan);
      OneArrivedGot(n, subs, userConns, channel, init, member, chan, c);
      var known := n.log.Keys;
      hide NoGaps, Arrived, Fan, Listed, Listens;
      var u, listened := if c in n.conns then n.conns[c] else 0, Listens(subs, channel, c);
      var before := if c in n.conns then Hears(u, listened, init, member, chan) else [];
      var hearing := HearingBoth(known, subs, userConns, channel, list);
      var hears := c in n.conns && (listened || u in list);
      GotNext(n, m, c, before, hearing, member(v), hears);
      var m2 := Fan(m, hearing, member(v));
      var heard := if hears then before + [member(v)] else before;
      GotRegistered(n, m2, c, heard);
      GotNext(n, m2, c, heard, Own(m2.conns, v), chan, c in n.conns && u == v);
    }
  }

  function Each(list: seq<UserId>, member: UserId -> Frame): (r: seq<Frame>)
    ensures |r| == |list| && forall i :: 0 <= i < |list| ==> r[i] == member(list[i])
  {
    if list == [] then [] else [member(list[0])] + Each(list[1..], member)
  }

  lemma EachNext(list: seq<UserId>, v: UserId, member: UserId -> Frame)
    ensures Each(list + [v], member) == Each(list, member) + [member(v)]
  {
  }

  // An arrival that did not listen before hears of itself, is told about the channel, and
  // hears of everybody after it.
  lemma {:induction false} ArrivalHears(list: seq<UserId>, j: nat, member: UserId -> Frame, chan: Frame)
    requires Ascending(list) && j < |list|
    ensures Hears(list[j], false, list, member, chan) == [member(list[j]), chan] + Each(list[j + 1..], member)
  {
    hide Each, Ascending, Hears;
    var init, u, v := list[..|list| - 1], list[j], list[|list| - 1];
    LastApart(list);
    HearsNext(u, list, member, chan);
    if j + 1 == |list| {
      StrangerHears(u, init, false, member, chan);
      assert list[j + 1..] == [];
      assert [member(u)] + [chan] == [member(u), chan] + Each([], member);
    } else {
      ArrivalHears(init, j, member, chan);
      EachNext(init[j + 1..], v, member);
      assert init[j] == u && list[j + 1..] == init[j + 1..] + [v];
    }
  }

  lemma LastApart(list: seq<UserId>)
    requires Ascending(list) && list != []
    ensures Ascending(list[..|list| - 1]) && list[|list| - 1] !in list[..|list| - 1]
  {
  }

  lemma HearsNext(u: UserId, list: seq<UserId>, member: UserId -> Frame, chan: Frame)
    requires u in list
    ensures var v := list[|list| - 1];
      Hears(u, false, list, member, chan) ==
      Hears(u, false, list[..|list| - 1], member, chan) + [member(v)] + if u == v then [chan] else []
  {
  }

  // Everybody else hears of all arrivals if it listened before, and of none if not.
  lemma {:induction false} StrangerHears(u: UserId, list: seq<UserId>, listened: bool, member: UserId -> Frame,
                                         chan: Frame)
    requires u !in list
    ensures Hears(u, listened, list, member, chan) == if listened then Each(list, member) else []
  {
    if list != [] {
      var init := list[..|list| - 1];
      StrangerHears(u, init, listened, member, chan);
      EachNext(init, list[|list| - 1], member);
      assert list == init + [list[|list| - 1]];
    }
  }

  // An arrival hears of itself, is told about the channel and hears of everybody after it;
  // those who listened before hear of all arrivals; and nobody else hears anything.
  ghost predicate HeardArrivals(n: Net, n': Net, subs: map<ChannelId, seq<ConnId>>, channel: ChannelId,
                                list: seq<UserId>, member: UserId -> Frame, chan: Frame) {
    && n'.log.Keys == n.log.Keys
    && (forall c, j :: c in n.conns && c in n.log && 0 <= j < |list| && n.conns[c] == list[j] ==>
          Got(n, n', c, [member(list[j]), chan] + Each(list[j + 1..], member)))
    && (forall c :: c in n.conns && c in n.log && n.conns[c] !in list && Listens(subs, channel, c) ==>
          Got(n, n', c, Each(list, member)))
    && (forall c :: c in n.conns && c in n.log && n.conns[c] !in list && !Listens(subs, channel, c) ==>
          Got(n, n', c, []))
    && forall c :: c !in n.conns && c in n.log ==> Got(n, n', c, [])
  }

  lemma ArrivalsAreHeard(n: Net, subs: map<ChannelId, seq<ConnId>>, userConns: map<UserId, seq<ConnId>>,
                         channel: ChannelId, list: seq<UserId>, member: UserId -> Frame, chan: Frame)
    requires NoGaps(n) && Ascending(list)
    requires forall u, c :: c in n.conns ==> (Listed(userConns, u, c) <==> n.conns[c] == u)
    requires forall c :: c in n.conns && n.conns[c] in list ==> !Listens(subs, channel, c)
    ensures var n' := Arrived(n, subs, userConns, channel, list, member, chan);
      HeardArrivals(n, n', subs, channel, list, member, chan)
  {
    hide Got, NoGaps, Arrived, Hears, Listed, Listens, Ascending;
    ArrivedGot(n, subs, userConns, channel, list, member, chan);
    forall j: nat | j < |list|
      ensures Hears(list[j], false, list, member, chan) == [member(list[j]), chan] + Each(list[j + 1..], member)
    {
      ArrivalHears(list, j, member, chan);
    }
    forall u | u !in list
      ensures Hears(u, true, list, member, chan) == Each(list, member)
      ensures Hears(u, false, list, member, chan) == []
    {
      StrangerHears(u, list, true, member, chan);
      StrangerHears(u, list, false, member, chan);
    }
  }

  lemma OneArrivalHeard(n: Net, n': Net, subs: map<ChannelId, seq<ConnId>>, channel: ChannelId, user: UserId,
                        member: UserId -> Frame, chan: Frame)
    requires HeardArrivals(n, n', subs, channel, [user], member, chan)
    ensures n'.log.Keys == n.log.Keys
    ensures forall c :: c in n.log ==>
        Got(n, n', c, if c !in n.conns then [] else if n.conns[c] == user then [member(user), chan]
                      else if Listens(subs, channel, c) then [member(user)] else [])
  {
    hide Got, Listens;
    assert [user][0] == user && [user][1..] == [];
    assert [member(user), chan] + Each([], member) == [member(user), chan];
    assert Each([user], member) == [member(user)];
    forall c | c in n.log
      ensures Got(n, n', c, if c !in n.conns then [] else if n.conns[c] == user then [member(user), chan]
                            else if Listens(subs, channel, c) then [member(user)] else [])
    {
      var rest := Each([user][1..], member);
      assert c in n.conns && n.conns[c] == [user][0] ==> Got(n, n', c, [member(user), chan] + rest);
    }
  }

  lemma AnyListedNone(userConns: map<UserId, seq<ConnId>>, list: seq<UserId>)
    ensures forall c :: !AnyListed(userConns, list[..0], c)
    ensures forall who: set<UserId> :: who - Elements(list[..0]) == who
  {
  }

  lemma AnyListedNext(userConns: map<UserId, seq<ConnId>>, list: seq<UserId>, i: nat)
    requires i < |list|
    ensures forall c :: AnyListed(userConns, list[..i + 1], c) <==>
        AnyListed(userConns, list[..i], c) || Listed(userConns, list[i], c)
  {
  }

  lemma HearingIs(known: set<ConnId>, subs: map<ChannelId, seq<ConnId>>, subs': map<ChannelId, seq<ConnId>>,
                  userConns: map<UserId, seq<ConnId>>, at: ChannelId, list: seq<UserId>)
    requires forall ch, c :: Listens(subs', ch, c) <==>
        Listens(subs, ch, c) || (ch == at && AnyListed(userConns, list, c))
    ensures Hearing(known, subs', at, None) == HearingBoth(known, subs, userConns, at, list)
  {
  }

  lemma MissingNext(who: set<UserId>, list: seq<UserId>, i: nat)
    requires i < |list|
    ensures who - Elements(list[..i + 1]) == who - Elements(list[..i]) - {list[i]}
  {
  }

  function Elements(s: seq<nat>): set<nat> {
    set x | x in s
  }

  ghost predicate Ascending(s: seq<nat>) {
    forall i, j :: 0 <= i < j < |s| ==> s[i] < s[j]
  }

  lemma {:induction false} AscendingSize(s: seq<nat>)
    requires Ascending(s)
    ensures |Elements(s)| == |s|
  {
    if s != [] {
      AscendingSize(s[..|s| - 1]);
      assert s == s[..|s| - 1] + [s[|s| - 1]];
      assert Elements(s) == Elements(s[..|s| - 1]) + {s[|s| - 1]};
    } else {
      assert Elements(s) == {};
    }
  }

  lemma AtLeastTwo(s: set<nat>, x: nat)
    requires x in s && s != {x}
    ensures |s| >= 2
  {
    var y :| y in s && y != x;
    assert |s - {x}| >= 1 by {
      assert y in s - {x};
    }
  }

  // Sorted without duplicates.
  method Sorted(list: seq<nat>) returns (s: seq<nat>)
    ensures Ascending(s) && forall x :: x in s <==> x in list
  {
    s := [];
    for i := 0 to |list|
      invariant Ascending(s) && forall x :: x in s <==> x in list[..i]
    {
      assert list[..i + 1] == list[..i] + [list[i]];
      var k := 0;
      while k < |s| && s[k] < list[i]
        invariant 0 <= k <= |s| && forall j :: 0 <= j < k ==> s[j] < list[i]
      {
        k := k + 1;
      }
      if k == |s| || s[k] != list[i] {
        s := s[..k] + [list[i]] + s[k..];
      }
    }
    assert list[..|list|] == list;
  }

  // ---------------------------------------------------------------------------
  // The channel tables
  // ---------------------------------------------------------------------------

  // Only existing channels have members; named channels have distinct names; a direct
  // conversation has exactly the members it was opened for, at least two, and there is one
  // for each member set.
  ghost predicate Tables(channels: map<ChannelId, Channel>, members: Members, users: map<UserId, bool>) {
    && (forall ch, u :: Member(members, ch, u) ==> ch in channels && u in users)
    && (forall a, b :: a in channels && b in channels && a != b && channels[a].name != "" ==>
          channels[a].name != channels[b].name)
    && (forall a :: a in channels && Direct(channels[a].kind) ==> FixedMembers(channels[a], a, members))
    && forall a, b ::
         a in channels && b in channels && a != b && Direct(channels[a].kind) && Direct(channels[b].kind) ==>
         channels[a].key != channels[b].key
  }

  predicate NameTaken(channels: map<ChannelId, Channel>, name: string) {
    exists ch :: ch in channels && channels[ch].name == name
  }

  predicate NoDmYet(channels: map<ChannelId, Channel>, who: set<UserId>) {
    forall ch :: ch in channels && Direct(channels[ch].kind) ==> channels[ch].key != who
  }

  ghost predicate FixedMembers(c: Channel, ch: ChannelId, members: Members) {
    && |c.key| >= 2 && (c.kind.Dm? <==> |c.key| == 2) && c.name == ""
    && forall u :: Member(members, ch, u) <==> u in c.key
  }

  lemma NewChannelKeepsTables(channels: map<ChannelId, Channel>, members: Members, users: map<UserId, bool>,
                              id: ChannelId, c: Channel, who: set<UserId>)
    requires Tables(channels, members, users) && id !in channels && who <= users.Keys
    requires c.name != "" ==> !NameTaken(channels, c.name)
    requires Direct(c.kind) ==> c.key == who && |who| >= 2 && (c.kind.Dm? <==> |who| == 2) && c.name == ""
    requires Direct(c.kind) ==> NoDmYet(channels, who)
    ensures Tables(channels[id := c], WithMembers(members, id, who), users)
    ensures forall ch, u :: Member(WithMembers(members, id, who), ch, u) <==>
        Member(members, ch, u) || (ch == id && u in who)
  {
    WithMembersIs(members, id, who);
    assert forall u :: !Member(members, id, u);
  }

  lemma MoreMembersKeepTables(channels: map<ChannelId, Channel>, members: Members, users: map<UserId, bool>,
                              at: ChannelId, who: set<UserId>)
    requires Tables(channels, members, users) && at in channels && !Direct(channels[at].kind) && who <= users.Keys
    ensures Tables(channels, WithMembers(members, at, who), users)
    ensures forall ch, u :: Member(WithMembers(members, at, who), ch, u) <==>
        Member(members, ch, u) || (ch == at && u in who)
  {
    WithMembersIs(members, at, who);
  }

  lemma FewerMembersKeepTables(channels: map<ChannelId, Channel>, members: Members, users: map<UserId, bool>,
                               at: ChannelId, who: UserId)
    requires Tables(channels, members, users) && at in channels && !Direct(channels[at].kind)
    ensures Tables(channels, members - {(at, who)}, users)
    ensures forall ch, u :: Member(members - {(at, who)}, ch, u) <==> Member(members, ch, u) && !(ch == at && u == who)
  {
    var members' := members - {(at, who)};
    assert forall ch, u :: Member(members', ch, u) <==> Member(members, ch, u) && !(ch == at && u == who);
  }
}
