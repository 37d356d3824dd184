// The message transactions, each one atomic step over the tables.
module MessageStore {
  import opened Options
  import opened Paging
  import opened Messages

  class Store {
    var members: set<(Id, Id)>
    var rows: map<Id, Row>
    // The newest message of every channel, as its signed column.
    var last: map<Id, int>
    var badges: set<Badge>
    var reactions: set<Reaction>
    var attachments: map<Id, Attachment>

    ghost predicate Valid()
      reads this
    {
      && OneLevel(rows) && Counted(rows) && Newest(rows, last)
      && Attached(rows, badges, reactions) && Owned(rows, attachments)
      && forall ch, u :: (ch, u) in members ==> ch in last
    }

    // No channel has messages yet, and no upload is attached.
    constructor (members: set<(Id, Id)>, channels: set<Id>, attachments: map<Id, Attachment>)
      requires forall ch, u :: (ch, u) in members ==> ch in channels
      requires forall a :: a in attachments ==> attachments[a].message.None?
      ensures Valid() && rows == map[] && this.members == members && last.Keys == channels
    {
      this.members, this.attachments := members, attachments;
      rows, badges, reactions := map[], {}, {};
      last := map ch | ch in channels :: 0;
    }

    // In a table of one-level threads the row a reply is attached to is top-level.
    lemma RootIsTopLevel(parent: Id)
      requires OneLevel(rows) && parent in rows
      ensures rows[parent].root.Some? ==>
        var root := rows[parent].root.value;
        root in rows && rows[root].channel == rows[parent].channel && rows[root].root.None?
    {
    }

    method InsertMessage(id: Id, channel: Id, author: Id, body: string, parent: Option<Id>, uploads: seq<Id>,
                         mentions: seq<Id>)
      returns (r: Result<Row>, bound: seq<Id>)
      requires Valid()
      modifies this`rows, this`last, this`badges, this`attachments
      ensures Valid()
      ensures r == Err(Forbidden) <==> (channel, author) !in members
      ensures r == Err(NotFound) <==> (channel, author) in members && parent.Some? && parent.value !in old(rows)
      ensures r == Err(Invalid) <==>
          && (channel, author) in members && parent.Some? && parent.value in old(rows)
          && old(rows)[parent.value].channel != channel
      ensures r == Err(Internal) <==>
          && (channel, author) in members && id in old(rows)
          && (parent.Some? ==> parent.value in old(rows) && old(rows)[parent.value].channel == channel)
      ensures r.Ok? ==> r.value == Row(channel, author, body, r.value.root, 0, None, false, mentions)
      ensures r.Ok? && parent.None? ==> r.value.root == None
      ensures r.Ok? && parent.Some? ==>
          r.value.root == if old(rows)[parent.value].root.Some? then old(rows)[parent.value].root else parent
      ensures r.Err? ==>
          rows == old(rows) && last == old(last) && badges == old(badges) && attachments == old(attachments)
      ensures r.Err? ==> bound == []
      ensures r.Ok? ==> id !in old(rows) && rows.Keys == old(rows).Keys + {id} && rows[id] == r.value
      ensures r.Ok? ==> forall k :: k in old(rows) ==>
          rows[k] ==
          if r.value.root == Some(k) then old(rows)[k].(replies := old(rows)[k].replies + 1) else old(rows)[k]
      ensures r.Ok? && parent.Some? ==>
          var root := r.value.root.value;
          RootOf(old(rows), r.value, root) && Replies(rows, root) == Replies(old(rows), root) + {id}
      ensures r.Ok? ==>
          var top := if channel in old(last) && old(last)[channel] >= ToSql(id) then old(last)[channel] else ToSql(id);
          channel in old(last) && last == old(last)[channel := top]
      ensures r.Ok? ==> forall b :: b in badges <==>
          || b in old(badges)
          || (b.message == id && b.channel == channel && b.user in mentions && b.user != author
              && (channel, b.user) in members)
      ensures r.Ok? ==> attachments.Keys == old(attachments).Keys && forall a :: a in attachments ==>
          attachments[a] ==
          if a in uploads && old(attachments)[a] == Attachment(author, None) then Attachment(author, Some(id))
          else old(attachments)[a]
      ensures r.Ok? ==> forall a :: a in bound <==>
          a in uploads && a in old(attachments) && old(attachments)[a] == Attachment(author, None)
    {
      hide OneLevel, Counted, Newest, Attached, Owned, Replies, TopLevel;
      bound := [];
      var place := Place(id, channel, author, parent);
      if place.Err? {
        return Err(place.error), bound;
      }
      var row := Row(channel, author, body, place.value, 0, None, false, mentions);
      bound := Add(id, row, uploads);
      r := Ok(row);
    }

    // Where a new message goes, or why it is refused.
    method Place(id: Id, channel: Id, author: Id, parent: Option<Id>) returns (r: Result<Option<Id>>)
      requires Valid()
      ensures r == Err(Forbidden) <==> (channel, author) !in members
      ensures r == Err(NotFound) <==> (channel, author) in members && parent.Some? && parent.value !in rows
      ensures r == Err(Invalid) <==>
          && (channel, author) in members && parent.Some? && parent.value in rows
          && rows[parent.value].channel != channel
      ensures r == Err(Internal) <==>
          && (channel, author) in members && id in rows
          && (parent.Some? ==> parent.value in rows && rows[parent.value].channel == channel)
      ensures r.Ok? && parent.None? ==> r.value == None
      ensures r.Ok? && parent.Some? ==>
          && r.value == (if rows[parent.value].root.Some? then rows[parent.value].root else parent)
          && r.value.value in rows && rows[r.value.value].channel == channel && rows[r.value.value].root.None?
    {
      hide OneLevel, Counted, Newest, Attached, Owned;
      if (channel, author) !in members {
        return Err(Forbidden);
      }
      var root: Option<Id> := None;
      if parent.Some? {
        if parent.value !in rows {
          return Err(NotFound);
        }
        if rows[parent.value].channel != channel {
          return Err(Invalid);
        }
        // Replying to a reply collapses to that reply's root.
        RootIsTopLevel(parent.value);
        root := if rows[parent.value].root.Some? then rows[parent.value].root else parent;
      }
      if id in rows {
        return Err(Internal);
      }
      r := Ok(root);
    }

    // The writes of the transaction.
    method Add(id: Id, row: Row, uploads: seq<Id>) returns (bound: seq<Id>)
      requires Valid() && id !in rows && (row.channel, row.author) in members
      requires row.replies == 0 && !row.deleted && (row.root.Some? ==> RootOf(rows, row, row.root.value))
      modifies this`rows, this`last, this`badges, this`attachments
      ensures Valid()
      ensures rows.Keys == old(rows).Keys + {id} && rows[id] == row
      ensures forall k :: k in old(rows) ==>
          rows[k] == if row.root == Some(k) then old(rows)[k].(replies := old(rows)[k].replies + 1) else old(rows)[k]
      ensures row.root.Some? ==> Replies(rows, row.root.value) == Replies(old(rows), row.root.value) + {id}
      ensures row.channel in old(last)
      ensures var was := old(last)[row.channel];
        last == old(last)[row.channel := if was < ToSql(id) then ToSql(id) else was]
      ensures forall b :: b in badges <==>
          b in old(badges) || Mentioned(id, row.channel, row.author, row.mentions, b)
      ensures attachments.Keys == old(attachments).Keys && forall a :: a in attachments ==>
          attachments[a] ==
          if a in uploads && old(attachments)[a] == Attachment(row.author, None) then Attachment(row.author, Some(id))
          else old(attachments)[a]
      ensures forall a :: a in bound <==>
          a in uploads && a in old(attachments) && old(attachments)[a] == Attachment(row.author, None)
    {
      hide OneLevel, Counted, Newest, Attached, Owned, Inserted, Replies, BadgeOk;
      InsertedRows(rows, id, row);
      if row.root.Some? {
        InsertedReplies(rows, id, row, row.root.value);
      }
      InsertKeepsThreads(rows, id, row);
      InsertKeepsNewest(rows, last, id, row);
      var badges' := Badges(id, row.channel, row.author, row.mentions);
      MentionedIsBadge(id, row);
      var attachments', bound' := Bind(id, row.author, uploads);
      InsertKeepsAttached(rows, badges, reactions, attachments, id, row, badges', attachments');
      rows := Inserted(rows, id, row);
      last := last[row.channel := if last[row.channel] < ToSql(id) then ToSql(id) else last[row.channel]];
      badges, attachments, bound := badges', attachments', bound';
    }

    lemma MentionedIsBadge(id: Id, row: Row)
      requires !row.deleted
      ensures forall b :: Mentioned(id, row.channel, row.author, row.mentions, b) ==>
          b.channel == row.channel && b.message == id && BadgeOk(row, b.user)
    {
    }

    // A badge for every mentioned member but the author.
    predicate Mentioned(id: Id, channel: Id, author: Id, mentions: seq<Id>, b: Badge)
      reads this
    {
      b.message == id && b.channel == channel && b.user in mentions && b.user != author && (channel, b.user) in members
    }

    method Badges(id: Id, channel: Id, author: Id, mentions: seq<Id>) returns (r: set<Badge>)
      ensures forall b :: b in r <==> b in badges || Mentioned(id, channel, author, mentions, b)
    {
      r := badges;
      for i := 0 to |mentions|
        invariant forall b :: b in r <==> b in badges || Mentioned(id, channel, author, mentions[..i], b)
      {
        assert mentions[..i + 1] == mentions[..i] + [mentions[i]];
        if mentions[i] != author && (channel, mentions[i]) in members {
          r := r + {Badge(mentions[i], channel, id)};
        }
      }
      assert mentions[..|mentions|] == mentions;
    }

    // Binds the author's own uploads that no message has yet.
    method Bind(id: Id, author: Id, uploads: seq<Id>) returns (r: map<Id, Attachment>, bound: seq<Id>)
      ensures r.Keys == attachments.Keys
      ensures forall a :: a in attachments ==>
          r[a] == if a in uploads && attachments[a] == Attachment(author, None) then Attachment(author, Some(id))
            else attachments[a]
      ensures forall a :: a in bound <==> a in uploads && a in attachments && attachments[a] == Attachment(author, None)
    {
      r, bound := attachments, [];
      for i := 0 to |uploads|
        invariant r.Keys == attachments.Keys
        invariant forall a :: a in attachments ==>
            r[a] == if a in uploads[..i] && attachments[a] == Attachment(author, None) then Attachment(author, Some(id))
              else attachments[a]
        invariant forall a :: a in bound <==>
            a in uploads[..i] && a in attachments && attachments[a] == Attachment(author, None)
      {
        var a := uploads[i];
        assert uploads[..i + 1] == uploads[..i] + [a];
        if a in r && r[a] == Attachment(author, None) {
          r := r[a := Attachment(author, Some(id))];
          bound := bound + [a];
        }
      }
      assert uploads[..|uploads|] == uploads;
    }

    // Only the author may edit, and a deleted message cannot come back.
    method EditMessage(id: Id, author: Id, body: string, now: nat) returns (r: Result<nat>)
      requires Valid()
      modifies this`rows
      ensures Valid()
      ensures r ==
          if id in old(rows) && old(rows)[id].author == author && !old(rows)[id].deleted then Ok(now)
          else Err(Forbidden)
      ensures rows == if r.Ok? then old(rows)[id := old(rows)[id].(body := body, edited := Some(now))] else old(rows)
      ensures forall ch :: TopLevel(rows, ch) == TopLevel(old(rows), ch)
    {
      hide OneLevel, Counted, Newest, Owned, TopLevel;
      if id !in rows || rows[id].author != author || rows[id].deleted {
        return Err(Forbidden);
      }
      var row := rows[id].(body := body, edited := Some(now));
      UpdateKeepsThreads(rows, id, row);
      UpdateKeepsNewest(rows, last, attachments, id, row);
      rows := rows[id := row];
      r := Ok(now);
    }

    // The row stays, so threads, counts and cursors do; its body, mentions, badges and
    // reactions go.
    method DeleteMessage(id: Id, author: Id, allowAny: bool) returns (r: Result<Id>)
      requires Valid()
      modifies this`rows, this`badges, this`reactions
      ensures Valid()
      ensures r == if id !in old(rows) || old(rows)[id].deleted then Err(NotFound)
                   else if !allowAny && old(rows)[id].author != author then Err(Forbidden)
                   else Ok(old(rows)[id].channel)
      ensures r.Err? ==> rows == old(rows) && badges == old(badges) && reactions == old(reactions)
      ensures r.Ok? ==> rows == old(rows)[id := old(rows)[id].(body := "", deleted := true, mentions := [])]
      ensures r.Ok? ==> badges == set b | b in old(badges) && b.message != id
      ensures r.Ok? ==> reactions == set x | x in old(reactions) && x.message != id
      ensures forall ch :: TopLevel(rows, ch) == TopLevel(old(rows), ch)
    {
      hide OneLevel, Counted, Newest, Owned, TopLevel;
      if id !in rows || rows[id].deleted {
        return Err(NotFound);
      }
      if !allowAny && rows[id].author != author {
        return Err(Forbidden);
      }
      var row := rows[id].(body := "", deleted := true, mentions := []);
      UpdateKeepsThreads(rows, id, row);
      UpdateKeepsNewest(rows, last, attachments, id, row);
      rows := rows[id := row];
      badges := set b | b in badges && b.message != id;
      reactions := set x | x in reactions && x.message != id;
      r := Ok(row.channel);
    }

    // Whether the toggle changed anything decides whether it is broadcast.
    method SetReaction(message: Id, user: Id, emoji: string, on: bool) returns (r: Result<(Id, bool)>)
      requires Valid()
      modifies this`reactions
      ensures Valid()
      ensures r == if message !in rows || rows[message].deleted then Err(NotFound)
                   else if (rows[message].channel, user) !in members then Err(Forbidden)
                   else Ok((rows[message].channel, on != (Reaction(message, user, emoji) in old(reactions))))
      ensures reactions == if r.Err? then old(reactions)
                           else if on then old(reactions) + {Reaction(message, user, emoji)}
                           else old(reactions) - {Reaction(message, user, emoji)}
    {
      hide OneLevel, Counted, Newest, Owned;
      if message !in rows || rows[message].deleted {
        return Err(NotFound);
      }
      var channel := rows[message].channel;
      if (channel, user) !in members {
        return Err(Forbidden);
      }
      var it := Reaction(message, user, emoji);
      var changed: bool;
      if on {
        changed := it !in reactions;
        reactions := reactions + {it};
      } else {
        changed := it in reactions;
        reactions := reactions - {it};
      }
      r := Ok((channel, changed));
    }

    method History(channel: Id, viewer: Id, before: Option<Id>, limit: nat) returns (r: Result<Page>)
      ensures Column(TopLevel(rows, channel))
      ensures r.Err? <==> (channel, viewer) !in members
      ensures r.Err? ==> r.error == Forbidden
      ensures r.Ok? ==> Paged(TopLevel(rows, channel), before, limit, r.value)
      ensures r.Ok? ==> 1 <= limit <= 200 ==>
        |r.value.ids| <= limit && (r.value.next.Some? ==> |r.value.ids| == limit)
    {
      hide Paged, HistoryPage;
      if (channel, viewer) !in members {
        return Err(Forbidden);
      }
      PageIsPrefix(TopLevel(rows, channel), before, limit);
      if 1 <= limit <= 200 {
        PageIsFull(TopLevel(rows, channel), before, limit, HistoryPage(TopLevel(rows, channel), before, limit));
      }
      r := Ok(HistoryPage(TopLevel(rows, channel), before, limit));
    }

    // The anchor has to be in the channel the caller named; it may be a reply, and is then
    // not part of the window itself.
    method Around(channel: Id, viewer: Id, anchor: Id, limit: nat) returns (r: Result<Page>)
      ensures Column(TopLevel(rows, channel))
      ensures r.Err? <==> (channel, viewer) !in members || !In(rows, channel, anchor)
      ensures r == Err(Forbidden) <==> (channel, viewer) !in members
      ensures r.Ok? ==> Windowed(TopLevel(rows, channel), anchor, limit, r.value)
      ensures r.Ok? ==> (ToSql(anchor) in r.value.ids <==> rows[anchor].root.None?)
    {
      if (channel, viewer) !in members {
        return Err(Forbidden);
      }
      if anchor !in rows || rows[anchor].channel != channel {
        return Err(NotFound);
      }
      var p := HistoryAround(TopLevel(rows, channel), anchor, limit);
      InTopLevel(rows, channel, anchor);
      r := Ok(p);
    }

    // The root and its replies, oldest reply first; there are as many as the root counts.
    method Thread(root: Id, viewer: Id) returns (r: Result<seq<Id>>)
      requires Valid()
      ensures r.Err? <==> root !in rows || (rows[root].channel, viewer) !in members
      ensures r.Ok? ==> |r.value| == 1 + rows[root].replies && r.value[0] == root
      ensures r.Ok? ==> forall id :: id in r.value[1..] <==> id in rows && rows[id].root == Some(root)
      ensures r.Ok? ==> Rising(r.value[1..])
    {
      hide OneLevel, Newest, Attached, Owned, Rising;
      if root !in rows {
        return Err(NotFound);
      }
      if (rows[root].channel, viewer) !in members {
        return Err(Forbidden);
      }
      var replies := InOrder(set id | id in rows && rows[id].root == Some(root));
      assert Replies(rows, root) == set id | id in rows && rows[id].root == Some(root);
      assert ([root] + replies)[1..] == replies;
      r := Ok([root] + replies);
    }
  }

  ghost predicate Rising(r: seq<Id>) {
    forall i, j :: 0 <= i < j < |r| ==> ToSql(r[i]) < ToSql(r[j])
  }

  // Ids in ascending order of their column.
  function InOrder(s: set<Id>): (r: seq<Id>)
    ensures |r| == |s| && (forall x :: x in r <==> x in s) && Rising(r)
    decreases |s|
  {
    if s == {} then [] else
    var top := Top(s);
    TopOnTop(s, top, InOrder(s - {top}));
    InOrder(s - {top}) + [top]
  }

  lemma TopOnTop(s: set<Id>, top: Id, r: seq<Id>)
    requires IsTop(s, top) && Rising(r) && forall x :: x in r <==> x in s - {top}
    ensures Rising(r + [top]) && forall x :: x in r + [top] <==> x in s
  {
    hide ToSql;
    forall i | 0 <= i < |r|
      ensures ToSql(r[i]) < ToSql(top)
    {
      assert r[i] in r;
      assert FromSql(ToSql(r[i])) == r[i] && FromSql(ToSql(top)) == top;
    }
    assert s == s - {top} + {top};
  }

  ghost predicate IsTop(s: set<Id>, top: Id) {
    top in s && forall x :: x in s ==> ToSql(x) <= ToSql(top)
  }

  function Top(s: set<Id>): (top: Id)
    requires s != {}
    ensures IsTop(s, top)
  {
    HasTop(s);
    var top :| top in s && forall x :: x in s ==> ToSql(x) <= ToSql(top);
    assert forall y :: y in s && ToSql(y) == ToSql(top) ==> FromSql(ToSql(y)) == FromSql(ToSql(top));
    top
  }

  lemma {:induction false} HasTop(s: set<Id>)
    requires s != {}
    ensures exists top :: IsTop(s, top)
    decreases |s|
  {
    var y := Member(s);
    if s == {y} {
      assert IsTop(s, y);
    } else {
      assert s == s - {y} + {y};
      HasTop(s - {y});
      var m :| IsTop(s - {y}, m);
      assert IsTop(s, if ToSql(y) > ToSql(m) then y else m);
    }
  }

  lemma InTopLevel(rows: map<Id, Row>, ch: Id, id: Id)
    requires In(rows, ch, id)
    ensures ToSql(id) in TopLevel(rows, ch) <==> rows[id].root.None?
  {
  }
}
