// The message tables and the transactions over them: threads, reply counts, mention
// badges, reactions, and the newest message of every channel.
module Messages {
  import opened Options
  import opened Paging

  datatype Error = Forbidden | NotFound | Invalid | Internal

  datatype Result<+T> = Ok(value: T) | Err(error: Error)

  // A deleted message keeps its row.
  datatype Row = Row(
    channel: Id,
    author: Id,
    body: string,
    root: Option<Id>,
    replies: nat,
    edited: Option<nat>,
    deleted: bool,
    mentions: seq<Id>)

  datatype Attachment = Attachment(owner: Id, message: Option<Id>)

  datatype Badge = Badge(user: Id, channel: Id, message: Id)

  datatype Reaction = Reaction(message: Id, user: Id, emoji: string)

  // ---------------------------------------------------------------------------
  // What every transaction keeps
  // ---------------------------------------------------------------------------

  ghost function Replies(rows: map<Id, Row>, root: Id): set<Id> {
    set r | r in rows && rows[r].root == Some(root)
  }

  // Threads are one level deep: a reply's root is in its own channel and is no reply.
  ghost predicate OneLevel(rows: map<Id, Row>) {
    forall r :: r in rows && rows[r].root.Some? ==> RootOf(rows, rows[r], rows[r].root.value)
  }

  predicate RootOf(rows: map<Id, Row>, reply: Row, root: Id) {
    root in rows && rows[root].channel == reply.channel && rows[root].root.None?
  }

  ghost predicate Counted(rows: map<Id, Row>) {
    forall r :: r in rows ==> rows[r].replies == |Replies(rows, r)|
  }

  predicate In(rows: map<Id, Row>, ch: Id, id: Id) {
    id in rows && rows[id].channel == ch
  }

  // The pointer is at least every id of the channel and is one of them, or zero.
  ghost predicate Newest(rows: map<Id, Row>, last: map<Id, int>) {
    && (forall id :: id in rows ==> rows[id].channel in last)
    && forall ch :: ch in last ==> IsNewest(rows, ch, last[ch])
  }

  ghost predicate IsNewest(rows: map<Id, Row>, ch: Id, v: int) {
    && v >= 0
    && (forall id :: In(rows, ch, id) ==> ToSql(id) <= v)
    && (v == 0 || exists id :: In(rows, ch, id) && ToSql(id) == v)
  }

  // Badges and reactions hang on messages that are not deleted; nobody has a badge for
  // their own message.
  ghost predicate Attached(rows: map<Id, Row>, badges: set<Badge>, reactions: set<Reaction>) {
    && (forall b :: b in badges ==> In(rows, b.channel, b.message) && BadgeOk(rows[b.message], b.user))
    && forall r :: r in reactions ==> r.message in rows && !rows[r.message].deleted
  }

  predicate BadgeOk(row: Row, user: Id) {
    !row.deleted && user in row.mentions && user != row.author
  }

  // An attachment belongs to a message of its own uploader.
  ghost predicate Owned(rows: map<Id, Row>, attachments: map<Id, Attachment>) {
    forall a :: a in attachments && attachments[a].message.Some? ==>
      BoundTo(rows, attachments[a], attachments[a].message.value)
  }

  predicate BoundTo(rows: map<Id, Row>, a: Attachment, m: Id) {
    m in rows && rows[m].author == a.owner
  }

  // The top-level messages of a channel, as its id column.
  function TopLevel(rows: map<Id, Row>, ch: Id): set<int> {
    set id | id in rows && rows[id].channel == ch && rows[id].root.None? :: ToSql(id)
  }

  // ---------------------------------------------------------------------------
  // Inserting
  // ---------------------------------------------------------------------------

  function Inserted(rows: map<Id, Row>, id: Id, row: Row): map<Id, Row>
    requires row.root.Some? ==> row.root.value in rows
  {
    var more := rows[id := row];
    if row.root.None? then more
    else var root := row.root.value;
      more[root := more[root].(replies := more[root].replies + 1)]
  }

  // One row is new; the root of a reply counts one more, and no other row changes.
  lemma InsertedRows(rows: map<Id, Row>, id: Id, row: Row)
    requires id !in rows && (row.root.Some? ==> row.root.value in rows)
    ensures Inserted(rows, id, row).Keys == rows.Keys + {id} && Inserted(rows, id, row)[id] == row
    ensures forall k :: k in rows ==>
        Inserted(rows, id, row)[k] == if row.root == Some(k) then rows[k].(replies := rows[k].replies + 1) else rows[k]
  {
  }

  lemma InsertKeepsThreads(rows: map<Id, Row>, id: Id, row: Row)
    requires OneLevel(rows) && Counted(rows) && id !in rows
    requires row.replies == 0 && (row.root.Some? ==> RootOf(rows, row, row.root.value))
    ensures OneLevel(Inserted(rows, id, row)) && Counted(Inserted(rows, id, row))
  {
    InsertKeepsLevel(rows, id, row);
    InsertKeepsCounts(rows, id, row);
  }

  lemma InsertKeepsLevel(rows: map<Id, Row>, id: Id, row: Row)
    requires OneLevel(rows) && id !in rows && (row.root.Some? ==> RootOf(rows, row, row.root.value))
    ensures OneLevel(Inserted(rows, id, row))
  {
  }

  lemma InsertKeepsCounts(rows: map<Id, Row>, id: Id, row: Row)
    requires OneLevel(rows) && Counted(rows) && id !in rows && row.replies == 0 && (row.root.Some? ==>
        row.root.value in rows)
    ensures Counted(Inserted(rows, id, row))
  {
    var rows' := Inserted(rows, id, row);
    NobodyRepliesTo(rows, id);
    forall r | r in rows'
      ensures rows'[r].replies == |Replies(rows', r)|
    {
      InsertedReplies(rows, id, row, r);
      hide Replies, Inserted, OneLevel;
    }
  }

  lemma NobodyRepliesTo(rows: map<Id, Row>, id: Id)
    requires OneLevel(rows) && id !in rows
    ensures Replies(rows, id) == {}
  {
  }

  lemma InsertedReplies(rows: map<Id, Row>, id: Id, row: Row, r: Id)
    requires id !in rows && (row.root.Some? ==> row.root.value in rows)
    ensures Replies(Inserted(rows, id, row), r) == Replies(rows, r) + if row.root == Some(r) then {id} else {}
    ensures r in rows ==> Inserted(rows, id, row)[r].replies == rows[r].replies + if row.root == Some(r) then 1 else 0
    ensures row.root != Some(id) && Inserted(rows, id, row)[id] == row
  {
  }

  lemma InsertedIn(rows: map<Id, Row>, id: Id, row: Row)
    requires id !in rows && (row.root.Some? ==> RootOf(rows, row, row.root.value))
    ensures forall ch, k :: In(Inserted(rows, id, row), ch, k) <==> In(rows, ch, k) || (ch == row.channel && k == id)
    ensures var rows' := Inserted(rows, id, row);
      forall k :: k in rows' ==>
        if k == id then rows'[k].channel == row.channel else k in rows && rows'[k].channel == rows[k].channel
  {
  }

  lemma InsertKeepsNewest(rows: map<Id, Row>, last: map<Id, int>, id: Id, row: Row)
    requires Newest(rows, last) && id !in rows && row.channel in last
    requires row.root.Some? ==> RootOf(rows, row, row.root.value)
    ensures var v := last[row.channel];
      Newest(Inserted(rows, id, row), last[row.channel := if v < ToSql(id) then ToSql(id) else v])
  {
    var rows', v := Inserted(rows, id, row), last[row.channel];
    var last' := last[row.channel := if v < ToSql(id) then ToSql(id) else v];
    InsertedIn(rows, id, row);
    hide Inserted, In, ToSql, IsNewest;
    forall ch | ch in last'
      ensures IsNewest(rows', ch, last'[ch])
    {
      if ch == row.channel {
        NewestGrows(rows, rows', ch, last[ch], id);
      } else {
        NewestSame(rows, rows', ch, last[ch]);
      }
    }
  }

  lemma NewestGrows(rows: map<Id, Row>, rows': map<Id, Row>, ch: Id, v: int, id: Id)
    requires IsNewest(rows, ch, v) && forall k :: In(rows', ch, k) <==> In(rows, ch, k) || k == id
    ensures IsNewest(rows', ch, if v < ToSql(id) then ToSql(id) else v)
  {
  }

  lemma NewestSame(rows: map<Id, Row>, rows': map<Id, Row>, ch: Id, v: int)
    requires IsNewest(rows, ch, v) && forall k :: In(rows', ch, k) <==> In(rows, ch, k)
    ensures IsNewest(rows', ch, v)
  {
  }

  lemma InsertKeepsAttached(rows: map<Id, Row>, badges: set<Badge>, reactions: set<Reaction>,
                            attachments: map<Id, Attachment>,
                            id: Id, row: Row, badges': set<Badge>, attachments': map<Id, Attachment>)
    requires Attached(rows, badges, reactions) && Owned(rows, attachments) && id !in rows
    requires !row.deleted && (row.root.Some? ==> RootOf(rows, row, row.root.value))
    requires forall b :: b in badges' ==>
        b in badges || (b.channel == row.channel && b.message == id && BadgeOk(row, b.user))
    requires forall a :: a in attachments' ==>
        a in attachments && (attachments'[a] == attachments[a] || attachments'[a] == Attachment(row.author, Some(id)))
    ensures Attached(Inserted(rows, id, row), badges', reactions) && Owned(Inserted(rows, id, row), attachments')
  {
  }

  // A new message changes the top-level rows of its own channel only, by its own id.
  lemma InsertedTopLevel(rows: map<Id, Row>, id: Id, row: Row, ch: Id)
    requires id !in rows && (row.root.Some? ==> RootOf(rows, row, row.root.value))
    ensures TopLevel(Inserted(rows, id, row), ch) ==
        TopLevel(rows, ch) + if ch == row.channel && row.root.None? then {ToSql(id)} else {}
  {
  }

  // A message that arrives while a client pages through older history leaves the pages
  // still to come as they are, exactly if it is not a top-level message of that channel with
  // an id older than the cursor.
  lemma InsertWhilePaging(rows: map<Id, Row>, id: Id, row: Row, ch: Id, cursor: Id, limit: nat)
    requires id !in rows && (row.root.Some? ==> RootOf(rows, row, row.root.value))
    ensures var before, after := TopLevel(rows, ch), TopLevel(Inserted(rows, id, row), ch);
      && Column(before) && Column(after)
      && (Visit(after, Some(cursor), limit) == Visit(before, Some(cursor), limit) <==>
          ch != row.channel || row.root.Some? || ToSql(id) >= ToSql(cursor))
  {
    var before, after := TopLevel(rows, ch), TopLevel(Inserted(rows, id, row), ch);
    InsertedTopLevel(rows, id, row, ch);
    NotYetThere(rows, ch, id);
    hide Inserted, TopLevel, ToSql, Visit;
    VisitsAll(before, Some(cursor), limit);
    VisitsAll(after, Some(cursor), limit);
    if ch != row.channel || row.root.Some? || ToSql(id) >= ToSql(cursor) {
      assert Older(after, ToSql(cursor)) == Older(before, ToSql(cursor));
    } else {
      assert ToSql(id) in Desc(Older(after, ToSql(cursor))) && ToSql(id) !in Desc(Older(before, ToSql(cursor)));
    }
  }

  lemma NotYetThere(rows: map<Id, Row>, ch: Id, id: Id)
    requires id !in rows
    ensures ToSql(id) !in TopLevel(rows, ch)
  {
  }

  // Editing and deleting touch one row and neither its channel, its author, its root nor
  // its count.
  predicate SamePlace(a: Row, b: Row) {
    a.channel == b.channel && a.author == b.author && a.root == b.root && a.replies == b.replies
  }

  lemma UpdateKeepsThreads(rows: map<Id, Row>, id: Id, row: Row)
    requires OneLevel(rows) && Counted(rows) && id in rows && SamePlace(rows[id], row)
    ensures OneLevel(rows[id := row]) && Counted(rows[id := row])
    ensures forall ch :: TopLevel(rows[id := row], ch) == TopLevel(rows, ch)
  {
    var rows' := rows[id := row];
    assert forall r :: Replies(rows', r) == Replies(rows, r);
    forall r | r in rows' && rows'[r].root.Some?
      ensures RootOf(rows', rows'[r], rows'[r].root.value)
    {
      assert RootOf(rows, rows[r], rows[r].root.value);
    }
    forall ch
      ensures TopLevel(rows', ch) == TopLevel(rows, ch)
    {
      SameTopLevel(rows, rows', ch);
    }
  }

  lemma UpdateKeepsNewest(rows: map<Id, Row>, last: map<Id, int>, attachments: map<Id, Attachment>, id: Id, row: Row)
    requires Newest(rows, last) && Owned(rows, attachments) && id in rows && SamePlace(rows[id], row)
    ensures Newest(rows[id := row], last) && Owned(rows[id := row], attachments)
  {
    var rows' := rows[id := row];
    assert forall ch, k :: In(rows', ch, k) <==> In(rows, ch, k);
    forall ch | ch in last
      ensures IsNewest(rows', ch, last[ch])
    {
      NewestSame(rows, rows', ch, last[ch]);
    }
    forall a | a in attachments && attachments[a].message.Some?
      ensures BoundTo(rows', attachments[a], attachments[a].message.value)
    {
      assert BoundTo(rows, attachments[a], attachments[a].message.value);
    }
  }

  lemma SameTopLevel(rows: map<Id, Row>, rows': map<Id, Row>, ch: Id)
    requires rows.Keys == rows'.Keys && forall k :: k in rows ==>
        rows[k].channel == rows'[k].channel && rows[k].root == rows'[k].root
    ensures TopLevel(rows', ch) == TopLevel(rows, ch)
  {
  }

  // The pointer as ids are ordered: it is the channel's greatest id exactly when none of
  // them reaches 2^63; beyond that the column's order is not the order of ids.
  lemma NewestIsGreatestIff(rows: map<Id, Row>, ch: Id, v: int)
    requires IsNewest(rows, ch, v)
    ensures v <= I64_MAX && ((forall id: Id :: In(rows, ch, id) ==>
        id <= FromSql(v)) <==> forall id: Id :: In(rows, ch, id) ==> id <= I64_MAX)
  {
  }
}
