// Splitting a search string into free text and filters.
module SearchQuery {
  import opened Options
  import opened Text
  import opened SearchDates

  datatype Filters = Filters(from: Option<string>, inChannel: Option<string>, before: Option<nat>, after: Option<nat>,
                             link: bool, file: bool, image: bool)

  const NO_FILTERS: Filters := Filters(None, None, None, None, false, false, false)

  // The White_Space characters of Unicode.
  predicate IsSpace(c: char) {
    var n := c as int;
    || 0x9 <= n <= 0xD || n == 0x20 || n == 0x85 || n == 0xA0 || n == 0x1680
    || 0x2000 <= n <= 0x200A || n == 0x2028 || n == 0x2029 || n == 0x202F || n == 0x205F || n == 0x3000
  }

  // How many characters before the first white space.
  function WordLength(s: string): (n: nat)
    ensures n <= |s| && (forall i :: 0 <= i < n ==> !IsSpace(s[i])) && (n < |s| ==> IsSpace(s[n]))
  {
    if s == "" || IsSpace(s[0]) then 0 else 1 + WordLength(s[1..])
  }

  predicate Word(w: string) {
    w != "" && forall i :: 0 <= i < |w| ==> !IsSpace(w[i])
  }

  predicate Words(ws: seq<string>) {
    forall i :: 0 <= i < |ws| ==> Word(ws[i])
  }

  function Tokens(s: string): (ws: seq<string>)
    ensures Words(ws)
    decreases |s|
  {
    if s == "" then []
    else if IsSpace(s[0]) then Tokens(s[1..])
    else [s[..WordLength(s)]] + Tokens(s[WordLength(s)..])
  }

  // ---------------------------------------------------------------------------
  // One token
  // ---------------------------------------------------------------------------

  function TrimStart(s: string, c: char): string {
    if s != "" && s[0] == c then TrimStart(s[1..], c) else s
  }

  // Where the first colon is.
  function Colon(s: string): (k: nat)
    ensures k <= |s| && (k < |s| ==> s[k] == ':') && forall i :: 0 <= i < k ==> s[i] != ':'
  {
    if s == "" || s[0] == ':' then 0 else 1 + Colon(s[1..])
  }

  // Applies one pair; None if it is not recognized.
  function Consume(q: Filters, key: string, value: string): Option<Filters> {
    var k := Lower(key);
    if k == "from" then
      (var h := Lower(TrimStart(value, '@')); if h == "" then None else Some(q.(from := Some(h))))
    else if k == "in" then
      (var c := Lower(TrimStart(value, '#')); if c == "" then None else Some(q.(inChannel := Some(c))))
    else if k == "before" then
      (match ParseDate(value) case Some(ms) => Some(q.(before := Some(ms))) case None => None)
    else if k == "after" then
      (match ParseDate(value) case Some(ms) => Some(q.(after := Some(ms + MS_PER_DAY))) case None => None)
    else if k == "has" then
      (var v := Lower(value);
       if v == "link" || v == "url" then Some(q.(link := true))
       else if v == "file" || v == "attachment" then Some(q.(file := true))
       else if v == "image" || v == "img" || v == "photo" then Some(q.(image := true))
       else None)
    else None
  }

  // A token is a filter if it has a colon, something after it, and is recognized.
  function Applied(q: Filters, token: string): Option<Filters> {
    var k := Colon(token);
    if k == |token| || k + 1 == |token| then None else Consume(q, token[..k], token[k + 1..])
  }

  predicate IsFilter(token: string) {
    Applied(NO_FILTERS, token).Some?
  }

  // Whether a token is a filter does not depend on the ones before it.
  lemma FilterIsFilter(q: Filters, token: string)
    ensures Applied(q, token).Some? <==> IsFilter(token)
  {
  }

  // What a token sets by itself.
  function Own(token: string): Filters {
    match Applied(NO_FILTERS, token)
    case Some(q) => q
    case None => NO_FILTERS
  }

  // `q` with what `own` sets put over it.
  function Over(own: Filters, q: Filters): Filters {
    Filters(if own.from.Some? then own.from else q.from, if own.inChannel.Some? then own.inChannel else q.inChannel,
            if own.before.Some? then own.before else q.before, if own.after.Some? then own.after else q.after,
            own.link || q.link, own.file || q.file, own.image || q.image)
  }

  // A filter leaves everything as it was except what it sets.
  lemma AppliedSets(q: Filters, token: string)
    ensures (match Applied(q, token) { case Some(r) => r case None => q }) == Over(Own(token), q)
  {
    hide Consume, Colon;
    var k := Colon(token);
    if k < |token| && k + 1 < |token| {
      ConsumeSets(q, token[..k], token[k + 1..]);
    }
  }

  lemma ConsumeSets(q: Filters, key: string, value: string)
    ensures Consume(q, key, value).Some? <==> Consume(NO_FILTERS, key, value).Some?
    ensures Consume(q, key, value).Some? ==>
      Consume(q, key, value).value == Over(Consume(NO_FILTERS, key, value).value, q)
  {
    hide ParseDate, Lower, TrimStart;
  }

  // `before:` and `after:` set the bound of the date after the colon.
  lemma DateTokens(key: string, value: string)
    requires ':' !in key
    ensures Lower(key) == "before" ==> Own(key + ":" + value) == NO_FILTERS.(before := ParseDate(value))
    ensures Lower(key) == "after" ==> Own(key + ":" + value) == NO_FILTERS.(after :=
        match ParseDate(value) case Some(ms) => Some(ms + MS_PER_DAY) case None => None)
  {
    hide Lower;
    TokenSplits(key, value);
  }

  lemma TokenSplits(key: string, value: string)
    requires ':' !in key
    ensures var token, k := key + ":" + value, Colon(key + ":" + value);
      k == |key| && token[..k] == key && token[k + 1..] == value
  {
    var token := key + ":" + value;
    assert token[|key|] == ':' && forall i :: 0 <= i < |key| ==> token[i] == key[i];
  }

  // All the leading marks of `marks + s`.
  predicate Marks(marks: string, c: char, s: string) {
    (forall i :: 0 <= i < |marks| ==> marks[i] == c) && (s != "" ==> s[0] != c)
  }

  lemma {:induction false} TrimmedStart(marks: string, s: string, c: char)
    requires Marks(marks, c, s)
    ensures TrimStart(marks + s, c) == s
  {
    if marks == "" {
      assert marks + s == s;
    } else {
      assert (marks + s)[1..] == marks[1..] + s;
      TrimmedStart(marks[1..], s, c);
    }
  }

  // `from:` and `in:` set the name after any leading marks, in lowercase, if there is one.
  lemma NameTokens(key: string, marks: string, name: string)
    requires ':' !in key
    ensures Lower(key) == "from" && Marks(marks, '@', name) ==>
      Own(key + ":" + (marks + name)) == NO_FILTERS.(from := if name == "" then None else Some(Lower(name)))
    ensures Lower(key) == "in" && Marks(marks, '#', name) ==>
      Own(key + ":" + (marks + name)) == NO_FILTERS.(inChannel := if name == "" then None else Some(Lower(name)))
  {
    TokenSplits(key, marks + name);
    hide Lower, TrimStart, Colon;
    if Marks(marks, '@', name) {
      TrimmedStart(marks, name, '@');
      LowerEmpty(name);
    }
    if Marks(marks, '#', name) {
      TrimmedStart(marks, name, '#');
      LowerEmpty(name);
    }
  }

  lemma LowerEmpty(s: string)
    ensures Lower(s) == "" <==> s == ""
  {
  }

  // Each of the words after `has:` sets its own flag, in any case, and other words none.
  lemma HasTokens(key: string, value: string)
    requires ':' !in key && Lower(key) == "has"
    ensures var v := Lower(value);
      Own(key + ":" + value) ==
        NO_FILTERS.(link := v == "link" || v == "url", file := v == "file" || v == "attachment",
                    image := v == "image" || v == "img" || v == "photo")
  {
    TokenSplits(key, value);
    hide TrimStart, Colon;
    if value == "" {
      assert Lower(value) == "";
    }
    hide Lower;
  }

  // No other key is a filter, and neither is a token without a colon or with nothing after it.
  lemma OtherTokens(key: string, value: string)
    requires ':' !in key
    ensures !IsFilter(key) && !IsFilter(key + ":")
    ensures Lower(key) !in {"from", "in", "before", "after", "has"} ==> !IsFilter(key + ":" + value)
  {
    TokenSplits(key, value);
    TokenSplits(key, "");
    assert key + ":" + "" == key + ":";
    hide Lower, TrimStart;
  }

  // ---------------------------------------------------------------------------
  // The whole string
  // ---------------------------------------------------------------------------

  function FreeText(ws: seq<string>): seq<string> {
    if ws == [] then [] else
      FreeText(ws[..|ws| - 1]) + if IsFilter(ws[|ws| - 1]) then [] else [ws[|ws| - 1]]
  }

  function AllFilters(ws: seq<string>): Filters {
    if ws == [] then NO_FILTERS else
      var q := AllFilters(ws[..|ws| - 1]);
      match Applied(q, ws[|ws| - 1])
      case Some(r) => r
      case None => q
  }

  function Join(ws: seq<string>): string {
    if ws == [] then "" else if |ws| == 1 then ws[0] else Join(ws[..|ws| - 1]) + " " + ws[|ws| - 1]
  }

  // `r` is what the last token for which `f` gives anything gives.
  ghost predicate LastOf<T>(ws: seq<string>, f: string -> Option<T>, r: Option<T>) {
    match r
    case None => forall k :: 0 <= k < |ws| ==> f(ws[k]).None?
    case Some(_) => exists k :: 0 <= k < |ws| && f(ws[k]) == r && forall j :: k < j < |ws| ==> f(ws[j]).None?
  }

  lemma LastOfNext<T>(ws: seq<string>, w: string, f: string -> Option<T>, r: Option<T>)
    requires LastOf(ws, f, r)
    ensures LastOf(ws + [w], f, if f(w).Some? then f(w) else r)
  {
    var more := ws + [w];
    assert more[|ws|] == w && forall k :: 0 <= k < |ws| ==> more[k] == ws[k];
    if f(w).None? && r.Some? {
      var k :| 0 <= k < |ws| && f(ws[k]) == r && forall j :: k < j < |ws| ==> f(ws[j]).None?;
      assert f(more[k]) == r;
    }
  }

  ghost predicate Any(ws: seq<string>, f: string -> bool) {
    exists k :: 0 <= k < |ws| && f(ws[k])
  }

  lemma AnyNext(ws: seq<string>, w: string, f: string -> bool)
    ensures Any(ws + [w], f) <==> Any(ws, f) || f(w)
  {
    var more := ws + [w];
    assert more[|ws|] == w && forall k :: 0 <= k < |ws| ==> more[k] == ws[k];
  }

  // What the filters of a query say: of each kind the last one counts, and the flags are
  // set by any.
  ghost predicate Wins(ws: seq<string>, q: Filters) {
    && LastOf(ws, w => Own(w).from, q.from)
    && LastOf(ws, w => Own(w).inChannel, q.inChannel)
    && LastOf(ws, w => Own(w).before, q.before)
    && LastOf(ws, w => Own(w).after, q.after)
    && (q.link <==> Any(ws, w => Own(w).link))
    && (q.file <==> Any(ws, w => Own(w).file))
    && (q.image <==> Any(ws, w => Own(w).image))
  }

  // Main result: of several filters of a kind the last recognized one wins.
  lemma {:induction false} LaterOnesWin(ws: seq<string>)
    ensures Wins(ws, AllFilters(ws))
  {
    if ws != [] {
      var init, w := ws[..|ws| - 1], ws[|ws| - 1];
      assert ws == init + [w];
      LaterOnesWin(init);
      WinsNext(init, AllFilters(init), w);
    }
  }

  lemma WinsNext(ws: seq<string>, q: Filters, w: string)
    requires Wins(ws, q)
    ensures Wins(ws + [w], match Applied(q, w) { case Some(r) => r case None => q })
  {
    AppliedSets(q, w);
    hide Own, Applied, LastOf, Any;
    LastOfNext(ws, w, w => Own(w).from, q.from);
    LastOfNext(ws, w, w => Own(w).inChannel, q.inChannel);
    LastOfNext(ws, w, w => Own(w).before, q.before);
    LastOfNext(ws, w, w => Own(w).after, q.after);
    AnyNext(ws, w, w => Own(w).link);
    AnyNext(ws, w, w => Own(w).file);
    AnyNext(ws, w, w => Own(w).image);
  }

  // The text is the unrecognized tokens, in order and verbatim; the filters are the others.
  method Parse(raw: string) returns (text: string, q: Filters)
    ensures text == Join(FreeText(Tokens(raw))) && q == AllFilters(Tokens(raw)) && Wins(Tokens(raw), q)
  {
    hide Applied, Join, FreeText, AllFilters, IsFilter, Wins;
    var ws := Tokens(raw);
    text, q := "", NO_FILTERS;
    OneMore([], "");
    for i := 0 to |ws|
      invariant text == Join(FreeText(ws[..i])) && q == AllFilters(ws[..i])
    {
      var token := ws[i];
      assert ws[..i + 1] == ws[..i] + [token];
      OneMore(ws[..i], token);
      FilterIsFilter(q, token);
      JoinNext(FreeText(ws[..i]), token);
      FreeTextWords(ws[..i]);
      match Applied(q, token) {
        case Some(r) => q := r;
        case None =>
          if text != "" {
            text := text + " ";
          }
          text := text + token;
      }
    }
    assert ws[..|ws|] == ws;
    LaterOnesWin(ws);
  }

  lemma OneMore(ws: seq<string>, w: string)
    ensures FreeText([]) == [] && AllFilters([]) == NO_FILTERS && Join([]) == ""
    ensures FreeText(ws + [w]) == if IsFilter(w) then FreeText(ws) else FreeText(ws) + [w]
    ensures AllFilters(ws + [w]) == match Applied(AllFilters(ws), w) { case Some(r) => r case None => AllFilters(ws) }
  {
  }

  lemma JoinNext(ws: seq<string>, w: string)
    ensures ws != [] ==> Join(ws + [w]) == Join(ws) + " " + w
    ensures ws == [] ==> Join(ws + [w]) == w
  {
  }

  lemma {:induction false} FreeTextWords(ws: seq<string>)
    requires Words(ws)
    ensures Words(FreeText(ws)) && (Join(FreeText(ws)) == "" <==> FreeText(ws) == [])
    ensures forall w :: w in FreeText(ws) <==> w in ws && !IsFilter(w)
  {
    hide IsFilter;
    if ws != [] {
      var init, w := ws[..|ws| - 1], ws[|ws| - 1];
      FreeTextWords(init);
      JoinNext(FreeText(init), w);
      assert ws == init + [w];
    }
  }

  // Words joined by spaces are split into the same words.
  lemma {:induction false} TokensOfJoin(ws: seq<string>, more: string)
    requires Words(ws) && (more == "" || IsSpace(more[0]))
    ensures Tokens(Join(ws) + more) == ws + Tokens(more)
    decreases |ws|
  {
    if ws == [] {
      assert Join(ws) + more == more;
    } else {
      hide Tokens, Join, Word, IsSpace;
      var init, w := ws[..|ws| - 1], ws[|ws| - 1];
      assert ws == init + [w];
      JoinNext(init, w);
      WordThenSpace(w, more);
      if init != [] {
        var tail := " " + w + more;
        SpaceThenWord(w, more);
        TokensOfJoin(init, tail);
        Regrouped(Join(init), w, more);
        RegroupedWords(init, w, Tokens(more));
      }
    }
  }

  lemma Regrouped(a: string, w: string, more: string)
    ensures a + " " + w + more == a + (" " + w + more)
  {
  }

  lemma RegroupedWords(ws: seq<string>, w: string, more: seq<string>)
    ensures ws + ([w] + more) == ws + [w] + more
  {
  }

  lemma SpaceThenWord(w: string, more: string)
    ensures Tokens(" " + w + more) == Tokens(w + more) && IsSpace((" " + w + more)[0])
  {
    var s := " " + w + more;
    assert s[1..] == w + more && IsSpace(s[0]);
  }

  lemma WordThenSpace(w: string, more: string)
    requires Word(w) && (more == "" || IsSpace(more[0]))
    ensures Tokens(w + more) == [w] + Tokens(more)
  {
    var s := w + more;
    assert !IsSpace(s[0]) by {
      assert s[0] == w[0];
    }
    assert WordLength(s) == |w| by {
      assert forall i :: 0 <= i < |w| ==> s[i] == w[i];
      assert more != "" ==> s[|w|] == more[0];
    }
    assert s[..|w|] == w && s[|w|..] == more;
  }

  // Main result: how a string is split. White space separates, whichever it is and however
  // much of it, and a string without any is one word.
  lemma {:induction false} TokensSplit(a: string, space: char, b: string)
    requires IsSpace(space)
    ensures Tokens(a + [space] + b) == Tokens(a) + Tokens(b)
    decreases |a|
  {
    var s := a + [space] + b;
    if a == "" {
      assert s[1..] == b && s[0] == space;
    } else if IsSpace(a[0]) {
      assert s[0] == a[0] && s[1..] == a[1..] + [space] + b;
      TokensSplit(a[1..], space, b);
    } else {
      var n := WordLength(a);
      assert a == a[..n] + a[n..] && s == a[..n] + (a[n..] + [space] + b);
      WordPrefix(a, n);
      hide Tokens;
      WordThenSpace(a[..n], a[n..]);
      WordThenSpace(a[..n], a[n..] + [space] + b);
      if n > 0 {
        TokensSplit(a[n..], space, b);
      }
    }
  }

  lemma WordPrefix(a: string, n: nat)
    requires a != "" && !IsSpace(a[0]) && n == WordLength(a)
    ensures n > 0 && Word(a[..n]) && (a[n..] != "" ==> IsSpace(a[n..][0]))
  {
  }

  lemma OneWord(w: string)
    ensures Word(w) ==> Tokens(w) == [w]
    ensures Tokens("") == []
  {
    if Word(w) {
      WordThenSpace(w, "");
      assert w + "" == w;
    }
  }

  lemma {:induction false} NoFilterLeft(ws: seq<string>)
    requires forall w :: w in ws ==> !IsFilter(w)
    ensures FreeText(ws) == ws && AllFilters(ws) == NO_FILTERS
  {
    if ws == [] {
      OneMore([], "");
    } else {
      var init, w := ws[..|ws| - 1], ws[|ws| - 1];
      FilterIsFilter(AllFilters(init), w);
      OneMore(init, w);
      hide Applied, IsFilter, FreeText, AllFilters, NO_FILTERS;
      NoFilterLeft(init);
      assert ws == init + [w];
    }
  }

  // Main result: what is left as text holds no filter any more. Parsing it again gives
  // the same text and filters nothing.
  lemma LeftoverIsPlainText(raw: string)
    ensures var text := Join(FreeText(Tokens(raw)));
      && Tokens(text) == FreeText(Tokens(raw))
      && Join(FreeText(Tokens(text))) == text && AllFilters(Tokens(text)) == NO_FILTERS
  {
    var kept := FreeText(Tokens(raw));
    FreeTextWords(Tokens(raw));
    TokensOfJoin(kept, "");
    assert Join(kept) + "" == Join(kept);
    NoFilterLeft(kept);
  }
}
