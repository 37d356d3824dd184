// Finding the mentions in a message body. Text is a sequence of bytes, one character each.
module Mentions {
  import opened Options
  import opened Text

  datatype Mention = User(handle: string) | Channel | Here

  const MAX_MENTIONS: nat := 64
  const MAX_HANDLE_LEN: nat := 32

  predicate Lowercase(b: char) {
    'a' <= b <= 'z'
  }

  predicate Punct(b: char) {
    b == '.' || b == '-' || b == '_'
  }

  predicate HandleByte(b: char) {
    Lowercase(b) || 'A' <= b <= 'Z' || Digit(b) || Punct(b)
  }

  // ---------------------------------------------------------------------------
  // What a mention is
  // ---------------------------------------------------------------------------

  // An at sign at the start of a word.
  predicate Starts(body: string, p: nat) {
    p < |body| && body[p] == '@' && (p == 0 || !HandleByte(body[p - 1]))
  }

  // Where the run of handle bytes from `p` on ends.
  function RunEnd(body: string, p: nat): (end: nat)
    requires p <= |body|
    ensures p <= end <= |body| && (forall i :: p <= i < end ==>
        HandleByte(body[i])) && (end < |body| ==> !HandleByte(body[end]))
    decreases |body| - p
  {
    if p < |body| && HandleByte(body[p]) then RunEnd(body, p + 1) else p
  }

  // Without the punctuation that ends a sentence.
  function Trimmed(s: string): (r: string)
    ensures |r| <= |s| && r == s[..|r|] && (r != "" ==> !Punct(r[|r| - 1])) && forall i :: |r| <= i < |s| ==>
        Punct(s[i])
  {
    if s != "" && Punct(s[|s| - 1]) then Trimmed(s[..|s| - 1]) else s
  }

  function Named(raw: string): Mention {
    var h := Lower(raw);
    if h == "channel" || h == "everyone" then Channel else if h == "here" then Here else User(h)
  }

  function MentionAt(body: string, p: nat): Option<Mention> {
    if !Starts(body, p) then None
    else
      var raw := Trimmed(body[p + 1..RunEnd(body, p + 1)]);
      if raw == "" then None else Some(Named(raw))
  }

  function Found(body: string, p: nat): seq<Mention> {
    match MentionAt(body, p)
    case Some(m) => [m]
    case None => []
  }

  // Every mention at a position below `n`, left to right.
  function MentionsBelow(body: string, n: nat): seq<Mention> {
    if n == 0 then [] else MentionsBelow(body, n - 1) + Found(body, n - 1)
  }

  lemma BelowNext(body: string, n: nat)
    ensures MentionsBelow(body, n + 1) == MentionsBelow(body, n) + Found(body, n)
    ensures Found(body, n) == [] ==> MentionsBelow(body, n + 1) == MentionsBelow(body, n)
  {
  }

  function AllMentions(body: string): seq<Mention> {
    MentionsBelow(body, |body|)
  }

  // Each distinct one, where it first occurs.
  function Distinct(ms: seq<Mention>): seq<Mention> {
    if ms == [] then []
    else
      var d, m := Distinct(ms[..|ms| - 1]), ms[|ms| - 1];
      if m in d then d else d + [m]
  }

  function First(ms: seq<Mention>, n: nat): seq<Mention> {
    if |ms| <= n then ms else ms[..n]
  }

  lemma {:induction false} DistinctIs(ms: seq<Mention>)
    ensures forall m :: m in Distinct(ms) <==> m in ms
    ensures forall i, j :: 0 <= i < j < |Distinct(ms)| ==> Distinct(ms)[i] != Distinct(ms)[j]
  {
    if ms != [] {
      DistinctIs(ms[..|ms| - 1]);
      assert ms == ms[..|ms| - 1] + [ms[|ms| - 1]];
    }
  }

  // Adding one mention to the bounded list without repeating it.
  lemma DistinctNext(ms: seq<Mention>, m: Mention)
    ensures var out := First(Distinct(ms), MAX_MENTIONS);
      First(Distinct(ms + [m]), MAX_MENTIONS) == if m !in out && |out| < MAX_MENTIONS then out + [m] else out
  {
  }

  // ---------------------------------------------------------------------------
  // The scan
  // ---------------------------------------------------------------------------

  // Main result: the scan, which jumps over what it has read, finds the first 64 distinct
  // mentions over all positions, left to right.
  method ScanMentions(body: string) returns (out: seq<Mention>)
    ensures out == First(Distinct(AllMentions(body)), MAX_MENTIONS)
  {
    hide Named, Distinct, First, HandleByte, MentionsBelow, MentionAt, Trimmed, RunEnd;
    out := [];
    Nothing(body);
    var i := 0;
    while i < |body|
      invariant i <= |body|
      invariant out == First(Distinct(MentionsBelow(body, i)), MAX_MENTIONS)
    {
      if body[i] != '@' {
        NoMention(body, i);
        i := i + 1;
        continue;
      }
      if i > 0 && HandleByte(body[i - 1]) {
        NoMention(body, i);
        i := i + 1;
        continue;
      }
      var start := i + 1;
      var end := start;
      while end < |body| && HandleByte(body[end])
        invariant start <= end <= |body|
        invariant forall j :: start <= j < end ==> HandleByte(body[j])
      {
        end := end + 1;
      }
      if end == start {
        OneMention(body, i, end, end);
        i := i + 1;
        continue;
      }
      var trimmed := end;
      while trimmed > start && Punct(body[trimmed - 1])
        invariant start <= trimmed <= end
        invariant forall j :: trimmed <= j < end ==> Punct(body[j])
      {
        trimmed := trimmed - 1;
      }
      OneMention(body, i, end, trimmed);
      if trimmed > start {
        var m := Named(body[start..trimmed]);
        DistinctNext(MentionsBelow(body, i), m);
        if m !in out && |out| < MAX_MENTIONS {
          out := out + [m];
        }
      }
      i := end;
    }
  }

  lemma NoMention(body: string, i: nat)
    requires i < |body| && !Starts(body, i)
    ensures MentionsBelow(body, i + 1) == MentionsBelow(body, i)
  {
  }

  // What one jump reads: the run ends at `end` and its last bytes from `trimmed` on are
  // punctuation.
  lemma OneMention(body: string, i: nat, end: nat, trimmed: nat)
    requires Starts(body, i) && i < trimmed <= end <= |body|
    requires (forall j :: i < j < end ==> HandleByte(body[j])) && (end < |body| ==> !HandleByte(body[end]))
    requires (forall j :: trimmed <= j < end ==> Punct(body[j])) && (trimmed > i + 1 ==> !Punct(body[trimmed - 1]))
    ensures MentionsBelow(body, end) ==
        if trimmed > i + 1 then MentionsBelow(body, i) + [Named(body[i + 1..trimmed])] else MentionsBelow(body, i)
  {
    hide Named, HandleByte, Starts, Punct, MentionAt, MentionsBelow;
    ReadAt(body, i, end, trimmed);
    Jump(body, i, end);
  }

  lemma Jump(body: string, i: nat, end: nat)
    requires i < end <= |body| && forall j :: i < j < end ==> HandleByte(body[j])
    ensures MentionAt(body, i).None? ==> MentionsBelow(body, end) == MentionsBelow(body, i)
    ensures MentionAt(body, i).Some? ==> MentionsBelow(body, end) == MentionsBelow(body, i) + [MentionAt(body, i).value]
  {
    hide HandleByte, MentionAt, MentionsBelow;
    assert Found(body, i) == match MentionAt(body, i) { case Some(m) => [m] case None => [] };
    hide Found;
    BelowNext(body, i);
    NoneInside(body, i + 1, end);
  }

  lemma ReadAt(body: string, i: nat, end: nat, trimmed: nat)
    requires Starts(body, i) && i < trimmed <= end <= |body|
    requires (forall j :: i < j < end ==> HandleByte(body[j])) && (end < |body| ==> !HandleByte(body[end]))
    requires (forall j :: trimmed <= j < end ==> Punct(body[j])) && (trimmed > i + 1 ==> !Punct(body[trimmed - 1]))
    ensures MentionAt(body, i) == if trimmed == i + 1 then None else Some(Named(body[i + 1..trimmed]))
  {
    hide Named, HandleByte, Trimmed, RunEnd, Starts, Punct;
    RunEndIs(body, i + 1, end);
    TrimmedRun(body, i + 1, end, trimmed);
  }

  lemma TrimmedRun(body: string, start: nat, end: nat, trimmed: nat)
    requires start <= trimmed <= end <= |body|
    requires (forall j :: trimmed <= j < end ==> Punct(body[j])) && (trimmed > start ==> !Punct(body[trimmed - 1]))
    ensures Trimmed(body[start..end]) == body[start..trimmed]
  {
  }

  lemma {:induction false} RunEndIs(body: string, p: nat, end: nat)
    requires p <= end <= |body|
    requires (forall j :: p <= j < end ==> HandleByte(body[j])) && (end < |body| ==> !HandleByte(body[end]))
    ensures RunEnd(body, p) == end
    decreases end - p
  {
  }

  lemma Nothing(body: string)
    ensures First(Distinct(MentionsBelow(body, 0)), MAX_MENTIONS) == []
  {
  }

  // A run of handle bytes holds no at sign, so nothing is lost by jumping over it.
  lemma {:induction false} NoneInside(body: string, start: nat, end: nat)
    requires start <= end <= |body| && forall i :: start <= i < end ==> HandleByte(body[i])
    ensures MentionsBelow(body, end) == MentionsBelow(body, start)
    decreases end - start
  {
    hide MentionsBelow, Found, HandleByte;
    if start < end {
      NoneInside(body, start, end - 1);
      BelowNext(body, end - 1);
      NotFound(body, end - 1);
    }
  }

  lemma NotFound(body: string, p: nat)
    requires p < |body| && HandleByte(body[p])
    ensures Found(body, p) == []
  {
  }

  // ---------------------------------------------------------------------------
  // Handles
  // ---------------------------------------------------------------------------

  predicate Reserved(h: string) {
    h == "here" || h == "channel" || h == "everyone"
  }

  predicate ValidHandle(h: string) {
    && 1 <= |h| <= MAX_HANDLE_LEN
    && (forall i :: 0 <= i < |h| ==> Lowercase(h[i]) || Digit(h[i]) || Punct(h[i]))
    && !Punct(h[0]) && !Punct(h[|h| - 1])
    && !Reserved(h)
  }

  // Text that can be written after an at sign to mean a user of exactly that name.
  predicate Speakable(h: string) {
    && h != "" && (forall i :: 0 <= i < |h| ==> Lowercase(h[i]) || Digit(h[i]) || Punct(h[i]))
    && !Punct(h[|h| - 1]) && !Reserved(h)
  }

  lemma SpeakableIsNamed(h: string)
    requires Speakable(h)
    ensures Lower(h) == h && Named(h) == User(h) && Trimmed(h) == h
  {
  }

  // Between text that cannot continue it, "@h" mentions h.
  lemma WrittenHandle(before: string, h: string, after: string)
    requires Speakable(h)
    requires before != "" ==> !HandleByte(before[|before| - 1])
    requires after != "" ==> !HandleByte(after[0])
    ensures MentionAt(before + "@" + h + after, |before|) == Some(User(h))
  {
    var body, p := before + "@" + h + after, |before|;
    assert body[p] == '@';
    assert p > 0 ==> body[p - 1] == before[p - 1];
    var end := RunEnd(body, p + 1);
    assert forall i :: 0 <= i < |h| ==> body[p + 1 + i] == h[i];
    assert after != "" ==> body[p + 1 + |h|] == after[0];
    assert end == p + 1 + |h|;
    assert body[p + 1..end] == h;
    SpeakableIsNamed(h);
  }

  // Main result: what any at sign means, when the run of handle bytes behind it ends at
  // `end` and its trailing punctuation starts at `trimmed`. Inside a word it means nothing,
  // as it does with no word behind it; three words have a meaning of their own, in any case;
  // and any other names the user.
  lemma MentionRead(body: string, p: nat, trimmed: nat, end: nat)
    requires p < trimmed <= end <= |body| && body[p] == '@'
    requires (forall j :: p < j < end ==> HandleByte(body[j])) && (end < |body| ==> !HandleByte(body[end]))
    requires (forall j :: trimmed <= j < end ==> Punct(body[j])) && (trimmed > p + 1 ==> !Punct(body[trimmed - 1]))
    ensures var word := body[p + 1..trimmed];
      MentionAt(body, p) ==
      if word == "" || (p > 0 && HandleByte(body[p - 1])) then None
      else if Lower(word) == "here" then Some(Here)
      else if Lower(word) == "channel" || Lower(word) == "everyone" then Some(Channel)
      else Some(User(Lower(word)))
  {
    hide HandleByte, Punct, Trimmed, RunEnd, Named, Lower;
    NamedIs(body[p + 1..trimmed]);
    if p == 0 || !HandleByte(body[p - 1]) {
      ReadAt(body, p, end, trimmed);
    }
  }

  lemma NamedIs(word: string)
    ensures Named(word) == if Lower(word) == "here" then Here
                           else if Lower(word) == "channel" || Lower(word) == "everyone" then Channel
                           else User(Lower(word))
  {
    hide Lower;
  }

  // The case of a letter does not decide whether it belongs to a handle.
  lemma EitherCase(b: char)
    ensures HandleByte(b) <==> HandleByte(LowerChar(b))
    ensures HandleByte(LowerChar(b)) <==> Lowercase(LowerChar(b)) || Digit(b) || b in "._-"
  {
  }

  // Nothing but an at sign mentions anybody.
  lemma OnlyAtSigns(body: string, p: nat)
    ensures MentionAt(body, p).Some? ==> p < |body| && body[p] == '@'
  {
  }

  // An address does not mention anybody.
  lemma AddressesMentionNobody()
    ensures MentionAt("bob@example.com", 3) == None
  {
    var body := "bob@example.com";
    assert body[2] == 'b';
  }

  // The mentions of a body are those at its positions.
  lemma MentionedIff(body: string, m: Mention)
    ensures m in AllMentions(body) <==> MentionedBelow(body, |body|, m)
  {
    hide MentionAt;
    if m in AllMentions(body) {
      MentionedSomewhere(body, |body|, m);
    }
    if MentionedBelow(body, |body|, m) {
      var p: nat :| p < |body| && MentionAt(body, p) == Some(m);
      FoundBelow(body, p, |body|);
    }
  }

  lemma {:induction false} FoundBelow(body: string, p: nat, n: nat)
    requires p < n && MentionAt(body, p).Some?
    ensures MentionAt(body, p).value in MentionsBelow(body, n)
    decreases n
  {
    hide MentionAt;
    if p < n - 1 {
      FoundBelow(body, p, n - 1);
    }
  }

  // Main result: "@h" alone is read as exactly the user h if and only if h is lowercase
  // handle bytes, does not end in punctuation and is not reserved; every valid handle is
  // such.
  lemma AloneIff(h: string)
    ensures First(Distinct(AllMentions("@" + h)), MAX_MENTIONS) == [User(h)] <==> Speakable(h)
    ensures ValidHandle(h) <==> Speakable(h) && |h| <= 32 && !Punct(h[0])
  {
    var body := "@" + h;
    if Speakable(h) {
      WrittenHandle("", h, "");
      assert "" + "@" + h + "" == body;
      OnlyFirst(body);
      Single(User(h));
    } else if First(Distinct(AllMentions(body)), MAX_MENTIONS) == [User(h)] {
      DistinctIs(AllMentions(body));
      assert User(h) in Distinct(AllMentions(body));
      OnlyIfSpeakable(h);
    }
  }

  lemma Single(m: Mention)
    ensures First(Distinct([m]), MAX_MENTIONS) == [m]
  {
  }

  // Where everything after the at sign is one run, there is at most that mention.
  lemma OnlyFirst(body: string)
    requires body != "" && forall i :: 1 <= i < |body| ==> HandleByte(body[i])
    ensures AllMentions(body) == Found(body, 0)
  {
    NoneInside(body, 1, |body|);
    BelowNext(body, 0);
    assert MentionsBelow(body, 0) == [];
  }

  // A mention is made of lowercase handle bytes, and does not end in punctuation.
  lemma MentionedIsSpeakable(body: string, p: nat, h: string)
    requires MentionAt(body, p) == Some(User(h))
    ensures Speakable(h)
  {
    hide HandleByte, Named, Trimmed;
    var end := RunEnd(body, p + 1);
    var run := body[p + 1..end];
    assert forall i :: 0 <= i < |run| ==> run[i] == body[p + 1 + i];
    RawIsSpeakable(run, Trimmed(run), h);
  }

  lemma RawIsSpeakable(run: string, raw: string, h: string)
    requires (forall i :: 0 <= i < |run| ==>
        HandleByte(run[i])) && raw == Trimmed(run) && raw != "" && Named(raw) == User(h)
    ensures Speakable(h)
  {
    NamedUser(raw, h);
    hide Trimmed, Lower, HandleByte, Named, Reserved, Punct, LowerChar;
    assert forall i :: 0 <= i < |raw| ==> raw[i] == run[i];
    forall i | 0 <= i < |h|
      ensures Lowercase(h[i]) || Digit(h[i]) || Punct(h[i])
      ensures !Punct(raw[i]) ==> !Punct(h[i])
    {
      assert HandleByte(run[i]) && h[i] == LowerChar(raw[i]);
      LoweredHandleByte(run[i]);
    }
  }

  lemma NamedUser(raw: string, h: string)
    requires Named(raw) == User(h)
    ensures h == Lower(raw) && !Reserved(h)
  {
  }

  lemma LoweredHandleByte(b: char)
    requires HandleByte(b)
    ensures Lowercase(LowerChar(b)) || Digit(LowerChar(b)) || Punct(LowerChar(b))
    ensures !Punct(b) ==> !Punct(LowerChar(b))
  {
  }

  ghost predicate MentionedBelow(body: string, n: nat, m: Mention) {
    exists p: nat :: p < n && MentionAt(body, p) == Some(m)
  }

  lemma {:induction false} MentionedSomewhere(body: string, n: nat, m: Mention)
    requires m in MentionsBelow(body, n)
    ensures MentionedBelow(body, n, m)
  {
    hide MentionAt;
    if MentionAt(body, n - 1) != Some(m) {
      assert m !in Found(body, n - 1);
      MentionedSomewhere(body, n - 1, m);
    }
  }

  lemma OnlyIfSpeakable(h: string)
    requires User(h) in AllMentions("@" + h)
    ensures Speakable(h)
  {
    hide MentionAt;
    var body := "@" + h;
    MentionedSomewhere(body, |body|, User(h));
    var p: nat :| p < |body| && MentionAt(body, p) == Some(User(h));
    MentionedIsSpeakable(body, p, h);
  }
}
