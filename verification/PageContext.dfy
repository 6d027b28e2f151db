/** From an entity to its URL path, back to a page context, into a [CONTEXT] system message, and out of it
    again: the chain by which the orchestrator learns which page the user is looking at. */
module PageContext {
  import opened Text
  import opened Session

  datatype Entity = Room | Post | RoomSeekingPost

  datatype Context = Context(entity: string, identifier: string, kind: string)

  // ----------------------------------------------------------------------------- building paths

  function RoutePrefix(entity: Entity): string {
    match entity
    case Room => "/rooms/"
    case Post => "/posts/"
    case RoomSeekingPost => "/room-seeking-posts/"
  }

  /** The replacement text of String.prototype.replace(':id', id): $$, $&, $` and $' are patterns. */
  function Expanded(id: string, before: string): string {
    if id == "" then ""
    else if id[0] == '$' && |id| > 1 && id[1] in {'$', '&', '`', '\''} then
      (match id[1]
       case '$' => "$"
       case '&' => ":id"
       case '`' => before
       case _ => "") + Expanded(id[2..], before)
    else [id[0]] + Expanded(id[1..], before)
  }

  function BuildEntityPath(entity: Entity, id: string): string {
    RoutePrefix(entity) + Expanded(id, RoutePrefix(entity))
  }

  // ------------------------------------------------------------------------------ parsing paths

  predicate EndsSegment(c: char) {
    c in {'/', '?', '#'}
  }

  function Segment(s: string): (r: string)
    ensures r <= s
    ensures forall i :: 0 <= i < |r| ==> !EndsSegment(r[i])
    ensures |r| < |s| ==> EndsSegment(s[|r|])
  {
    if s == "" || EndsSegment(s[0]) then "" else [s[0]] + Segment(s[1..])
  }

  /** The non-empty segment after a prefix: /^<prefix>([^/?#]+)/. */
  function SegmentAfter(page: string, prefix: string): Option<string> {
    if !StartsWith(page, prefix) || Segment(page[|prefix|..]) == "" then None else Some(Segment(page[|prefix|..]))
  }

  function KindOf(identifier: string): string {
    if IsUuid(identifier) then "id" else "slug"
  }

  function First(a: Option<string>, b: Option<string>): Option<string> {
    if a.Some? then a else b
  }

  function ParsePageContext(page: string): Option<Context> {
    var room := SegmentAfter(page, "/rooms/");
    var seeking := First(SegmentAfter(page, "/room-seeking-posts/"), SegmentAfter(page, "/room-seeking-post/"));
    var roommate := First(SegmentAfter(page, "/roommate-seeking-posts/"),
                          SegmentAfter(page, "/roommate-seeking-post/"));
    if room.Some? then Some(Context("room", room.value, KindOf(room.value)))
    else if seeking.Some? then Some(Context("room_seeking_post", seeking.value, "slug"))
    else if roommate.Some? then Some(Context("roommate_seeking_post", roommate.value, "slug"))
    else None
  }

  // ------------------------------------------------------------------------------- the message

  function PrintContext(c: Context): string {
    "[CONTEXT] Entity: " + c.entity + " Identifier: " + c.identifier + " Type: " + c.kind
  }

  function WordRun(s: string): (r: string)
    ensures r <= s
    ensures forall i :: 0 <= i < |r| ==> IsWord(r[i])
    ensures |r| < |s| ==> !IsWord(s[|r|])
  {
    if s == "" || !IsWord(s[0]) then "" else [s[0]] + WordRun(s[1..])
  }

  predicate EndsToken(c: char) {
    IsSpace(c) || c == ','
  }

  function TokenRun(s: string): (r: string)
    ensures r <= s
    ensures forall i :: 0 <= i < |r| ==> !EndsToken(r[i])
    ensures |r| < |s| ==> EndsToken(s[|r|])
  {
    if s == "" || EndsToken(s[0]) then "" else [s[0]] + TokenRun(s[1..])
  }

  /** /<tag>\s*(\w+)/ or, for tokens, /<tag>\s*([^\s,\n]+)/: the leftmost match. */
  function ValueAfter(s: string, tag: string, word: bool): Option<string>
    decreases |s|
  {
    if |s| < |tag| then None
    else
      var rest := if StartsWith(s, tag) then TrimStart(s[|tag|..]) else "";
      var value := if word then WordRun(rest) else TokenRun(rest);
      if value != "" then Some(value)
      else if s == "" then None
      else ValueAfter(s[1..], tag, word)
  }

  function ReadMessage(content: string): Option<Context> {
    var entity := ValueAfter(content, "Entity:", true);
    var identifier := ValueAfter(content, "Identifier:", false);
    var kind := ValueAfter(content, "Type:", true);
    if entity.Some? && identifier.Some? then
      Some(Context(entity.value, identifier.value, if kind.Some? then kind.value else ""))
    else None
  }

  predicate IsContextMessage(m: Message) {
    m.role.System? && Contains(m.content, "[CONTEXT]")
  }

  /** The orchestrator reads the last context message of the session. */
  function ReadContext(messages: seq<Message>): Option<Context> {
    if messages == [] then None
    else
      var last := messages[|messages| - 1];
      if IsContextMessage(last) then ReadMessage(last.content) else ReadContext(messages[..|messages| - 1])
  }

  function PushContext(messages: seq<Message>, page: string): seq<Message> {
    match ParsePageContext(page)
    case None => messages
    case Some(c) => messages + [Message(System, PrintContext(c))]
  }

  // ------------------------------------------------------------------------- paths round trip

  /** No dollar sign of the identifier starts a replacement pattern. */
  predicate NoPattern(id: string) {
    forall i :: 0 <= i < |id| - 1 && id[i] == '$' ==> id[i + 1] !in {'$', '&', '`', '\''}
  }

  lemma {:induction false} PlainExpands(id: string, before: string)
    requires NoPattern(id)
    ensures Expanded(id, before) == id
  {
    if id == "" {
    } else {
      assert NoPattern(id[1..]) by { assert forall i :: 0 <= i < |id| - 1 ==> id[1..][i] == id[i + 1]; }
      PlainExpands(id[1..], before);
    }
  }

  lemma PrefixTail(a: string, c: char, e: string)
    requires a != ""
    ensures a <= [c] + e ==> a[0] == c && a[1..] <= e
  {
    if a <= [c] + e {
      assert ([c] + e)[0] == c && ([c] + e)[1..] == e;
      assert a[1..] == ([c] + e)[1..][..|a| - 1];
    }
  }

  predicate Quoting(s: string) {
    s != "" && forall i :: 0 <= i < |s| ==> s[i] == '$' || s[i] == '\''
  }

  /** An expansion never puts dollar signs or quotes in front of the text it expands. */
  lemma {:induction false} NothingInFront(front: string, id: string, before: string)
    requires Quoting(front) && before != "" && before[0] == '/'
    ensures !(front + id <= Expanded(id, before))
    decreases |id|
  {
    var e, all := Expanded(id, before), front + id;
    if id == "" {
    } else {
      if id[0] == '$' && |id| > 1 && id[1] == '$' {
        PrefixTail(all, '$', Expanded(id[2..], before));
        NothingInFront(front[1..] + "$$", id[2..], before);
        assert all[1..] == front[1..] + "$$" + id[2..];
      } else if id[0] == '$' && |id| > 1 && id[1] == '\'' {
        NothingInFront(front + "$'", id[2..], before);
        assert "" + Expanded(id[2..], before) == Expanded(id[2..], before);
        assert all == front + "$'" + id[2..];
      } else if id[0] == '$' && |id| > 1 && id[1] in {'&', '`'} {
        assert e[0] == if id[1] == '&' then ':' else '/';
        assert all[0] == front[0];
      } else {
        PrefixTail(all, id[0], Expanded(id[1..], before));
        if front[0] == id[0] {
          NothingInFront(front[1..] + [id[0]], id[1..], before);
          assert all[1..] == front[1..] + [id[0]] + id[1..];
        }
      }
    }
  }

  /** A replacement pattern always shows: the expansion starts with the identifier only if there is none. */
  lemma {:induction false} PatternShows(id: string, before: string)
    requires before != "" && before[0] == '/'
    ensures id <= Expanded(id, before) <==> NoPattern(id)
    decreases |id|
  {
    var e := Expanded(id, before);
    if NoPattern(id) {
      PlainExpands(id, before);
    } else if id[0] == '$' && id[1] in {'$', '&', '`', '\''} {
      PrefixTail(id, '$', Expanded(id[2..], before));
      assert id[1] == '$' ==> id[1..] == "$" + id[2..];
      assert id[1] == '\'' ==> id == "$'" + id[2..];
      NothingInFront("$", id[2..], before);
      NothingInFront("$'", id[2..], before);
      assert "" + Expanded(id[2..], before) == Expanded(id[2..], before);
      assert id[1] == '&' ==> e[0] == ':';
      assert id[1] == '`' ==> e[0] == '/';
    } else {
      PrefixTail(id, id[0], Expanded(id[1..], before));
      PatternShows(id[1..], before);
      PatternInTail(id);
    }
  }

  lemma PatternInTail(id: string)
    requires id != "" && (|id| == 1 || id[0] != '$' || id[1] !in {'$', '&', '`', '\''})
    ensures NoPattern(id) <==> NoPattern(id[1..])
  {
    assert forall i :: 0 <= i < |id| - 1 ==> id[1..][i] == id[i + 1];
    forall i | 0 <= i < |id| - 1 && id[i] == '$' && id[i + 1] in {'$', '&', '`', '\''} ensures !NoPattern(id[1..]) {
      assert id[1..][i - 1] == '$';
    }
  }

  predicate IsSegment(id: string) {
    id != "" && forall i :: 0 <= i < |id| ==> id[i] != '/' && id[i] != '?' && id[i] != '#'
  }

  lemma SegmentOf(id: string)
    ensures Segment(id) == id <==> forall i :: 0 <= i < |id| ==> !EndsSegment(id[i])
  {
    var r := Segment(id);
    assert |r| == |id| ==> r == id;
  }

  function EntityName(entity: Entity): string {
    match entity
    case Room => "room"
    case Post => "post"
    case RoomSeekingPost => "room_seeking_post"
  }

  function EntityContext(entity: Entity, id: string): Context {
    Context(EntityName(entity), id, if entity.Room? && IsUuid(id) then "id" else "slug")
  }

  /** What the parser makes of a path: its first segment, for the entities it knows. */
  lemma PathParses(entity: Entity, text: string)
    ensures ParsePageContext(RoutePrefix(entity) + text)
      == if entity == Post || Segment(text) == "" then None else Some(EntityContext(entity, Segment(text)))
  {
    hide IsUuid, Segment, SegmentAfter;
    var page := RoutePrefix(entity) + text;
    match entity
    case Room =>
      SegmentAfterPrefix("/rooms/", text);
      OtherPrefix(page, "/room-seeking-posts/", 5);
      OtherPrefix(page, "/room-seeking-post/", 5);
      OtherPrefix(page, "/roommate-seeking-posts/", 5);
      OtherPrefix(page, "/roommate-seeking-post/", 5);
    case RoomSeekingPost =>
      SegmentAfterPrefix("/room-seeking-posts/", text);
      OtherPrefix(page, "/rooms/", 5);
      OtherPrefix(page, "/room-seeking-post/", 18);
      OtherPrefix(page, "/roommate-seeking-posts/", 5);
      OtherPrefix(page, "/roommate-seeking-post/", 5);
    case Post =>
      OtherPrefix(page, "/rooms/", 1);
      OtherPrefix(page, "/room-seeking-posts/", 1);
      OtherPrefix(page, "/room-seeking-post/", 1);
      OtherPrefix(page, "/roommate-seeking-posts/", 1);
      OtherPrefix(page, "/roommate-seeking-post/", 1);
  }

  /** The path of an identifier parses back to it exactly when the entity is not a post, whose route the
      parser does not know, and the identifier is one non-empty path segment in which no dollar sign starts
      a replacement pattern. */
  lemma PathRoundTripIff(entity: Entity, id: string)
    ensures ParsePageContext(BuildEntityPath(entity, id)) == Some(EntityContext(entity, id))
      <==> entity != Post && IsSegment(id) && NoPattern(id)
    ensures entity == Post ==> ParsePageContext(BuildEntityPath(entity, id)) == None
  {
    hide Expanded, Segment, KindOf, NoPattern, ParsePageContext;
    var text := Expanded(id, RoutePrefix(entity));
    PatternShows(id, RoutePrefix(entity));
    if NoPattern(id) { PlainExpands(id, RoutePrefix(entity)); }
    SegmentOf(id);
    SegmentIsPrefix(text, id);
    PathParses(entity, text);
  }

  /** The path of an entity is its route with the identifier in it, unless the identifier holds a pattern. */
  lemma PathsAreRoutes(id: string)
    requires NoPattern(id)
    ensures BuildEntityPath(Room, id) == "/rooms/" + id
    ensures BuildEntityPath(Post, id) == "/posts/" + id
    ensures BuildEntityPath(RoomSeekingPost, id) == "/room-seeking-posts/" + id
  {
    hide Expanded, NoPattern;
    PlainExpands(id, "/rooms/");
    PlainExpands(id, "/posts/");
    PlainExpands(id, "/room-seeking-posts/");
  }

  /** Pages no entity is built for are read all the same: roommate posts, and the singular spelling. */
  lemma OtherPagesParse(id: string)
    requires IsSegment(id)
    ensures ParsePageContext("/roommate-seeking-posts/" + id) == Some(Context("roommate_seeking_post", id, "slug"))
    ensures ParsePageContext("/roommate-seeking-post/" + id) == Some(Context("roommate_seeking_post", id, "slug"))
    ensures ParsePageContext("/room-seeking-post/" + id) == Some(EntityContext(RoomSeekingPost, id))
  {
    hide IsUuid, Segment, KindOf, SegmentAfter;
    SegmentOf(id);
    var many, one, room := "/roommate-seeking-posts/" + id, "/roommate-seeking-post/" + id, "/room-seeking-post/" + id;
    SegmentAfterPrefix("/roommate-seeking-posts/", id);
    SegmentAfterPrefix("/roommate-seeking-post/", id);
    SegmentAfterPrefix("/room-seeking-post/", id);
    OtherPrefix(many, "/rooms/", 5);
    OtherPrefix(many, "/room-seeking-posts/", 5);
    OtherPrefix(many, "/room-seeking-post/", 5);
    OtherPrefix(one, "/rooms/", 5);
    OtherPrefix(one, "/room-seeking-posts/", 5);
    OtherPrefix(one, "/room-seeking-post/", 5);
    OtherPrefix(one, "/roommate-seeking-posts/", 22);
    OtherPrefix(room, "/rooms/", 5);
    OtherPrefix(room, "/room-seeking-posts/", 18);
  }

  lemma SegmentIsPrefix(text: string, id: string)
    ensures Segment(text) == id ==> id <= text && forall i :: 0 <= i < |id| ==> !EndsSegment(id[i])
  {}

  lemma SegmentAfterPrefix(prefix: string, id: string)
    ensures SegmentAfter(prefix + id, prefix) == if Segment(id) == "" then None else Some(Segment(id))
  {
    assert (prefix + id)[|prefix|..] == id;
  }

  lemma OtherPrefix(page: string, prefix: string, k: nat)
    requires k < |page| && k < |prefix| && page[k] != prefix[k]
    ensures SegmentAfter(page, prefix) == None
  {}

  // ------------------------------------------------------------------------ messages round trip

  /** Text in which no occurrence of the tag starts does not matter to the search. */
  lemma {:induction false} SearchSkips(prefix: string, s: string, tag: string, word: bool)
    requires tag != "" && forall i :: 0 <= i < |prefix| ==> !StartsAt(prefix + s, i, tag)
    ensures ValueAfter(prefix + s, tag, word) == ValueAfter(s, tag, word)
  {
    var all := prefix + s;
    if prefix == "" {
      assert all == s;
    } else {
      assert !StartsAt(all, 0, tag);
      assert !StartsWith(all, tag);
      assert all[1..] == prefix[1..] + s;
      forall i | 0 <= i < |prefix| - 1 ensures !StartsAt(prefix[1..] + s, i, tag) {
        assert !StartsAt(all, i + 1, tag);
        assert i + |tag| <= |all[1..]| ==> all[1..][i..i + |tag|] == all[i + 1..i + 1 + |tag|];
      }
      SearchSkips(prefix[1..], s, tag, word);
      if |all| < |tag| { ShortHasNoValue(s, tag, word); }
    }
  }

  lemma ShortHasNoValue(s: string, tag: string, word: bool)
    requires |s| < |tag|
    ensures ValueAfter(s, tag, word) == None
  {}

  /** A prefix without the tag's first character. */
  lemma SkipsByFirst(prefix: string, s: string, tag: string, word: bool)
    requires tag != "" && tag[0] !in prefix
    ensures ValueAfter(prefix + s, tag, word) == ValueAfter(s, tag, word)
  {
    forall i | 0 <= i < |prefix| ensures !StartsAt(prefix + s, i, tag) {
      assert (prefix + s)[i] == prefix[i];
    }
    SearchSkips(prefix, s, tag, word);
  }

  /** A prefix without a colon, before a text whose first characters have no colon either. */
  lemma SkipsByColon(prefix: string, head: string, tail: string, tag: string, word: bool)
    requires tag != "" && tag[|tag| - 1] == ':' && |head| >= |tag| - 1 && ':' !in prefix && ':' !in head
    ensures ValueAfter(prefix + head + tail, tag, word) == ValueAfter(head + tail, tag, word)
  {
    var all := prefix + (head + tail);
    assert prefix + head + tail == all;
    forall i | 0 <= i < |prefix| ensures !StartsAt(all, i, tag) {
      var k := i + |tag| - 1;
      assert all[k] == if k < |prefix| then prefix[k] else head[k - |prefix|];
      StartsAtChar(all, i, tag, |tag| - 1);
    }
    SearchSkips(prefix, head + tail, tag, word);
  }

  predicate IsWordText(s: string) {
    s != "" && forall i :: 0 <= i < |s| ==> IsWord(s[i])
  }

  predicate IsTokenText(s: string) {
    s != "" && forall i :: 0 <= i < |s| ==> !EndsToken(s[i])
  }

  lemma WordRunOf(word: string, rest: string)
    requires (forall i :: 0 <= i < |word| ==> IsWord(word[i])) && (rest == "" || !IsWord(rest[0]))
    ensures WordRun(word + rest) == word
  {
    assert forall i :: 0 <= i < |word| ==> (word + rest)[i] == word[i];
    if rest != "" { assert (word + rest)[|word|] == rest[0]; }
  }

  lemma TokenRunIff(token: string, rest: string)
    requires rest != "" && EndsToken(rest[0])
    ensures TokenRun(token + rest) == token <==> forall i :: 0 <= i < |token| ==> !EndsToken(token[i])
  {
    var r := TokenRun(token + rest);
    assert forall i :: 0 <= i < |token| ==> (token + rest)[i] == token[i];
    assert (token + rest)[|token|] == rest[0];
  }

  lemma ValueHere(tag: string, rest: string, word: bool)
    requires tag != "" && (if word then WordRun(rest) else TokenRun(rest)) != "" && rest != "" && !IsSpace(rest[0])
    ensures ValueAfter(tag + " " + rest, tag, word) == Some(if word then WordRun(rest) else TokenRun(rest))
  {
    hide WordRun, TokenRun, TrimStart;
    var s := tag + " " + rest;
    assert s[|tag|..] == " " + rest;
    BlankTrims(rest);
    assert StartsWith(s, tag);
  }

  lemma BlankTrims(rest: string)
    requires rest != "" && !IsSpace(rest[0])
    ensures TrimStart(" " + rest) == rest
  {
    assert (" " + rest)[1..] == rest;
    assert TrimStart(rest) == rest;
  }

  lemma WordIsNotSpace(c: char)
    ensures IsWord(c) ==> !IsSpace(c) && c != ',' && c != ':'
  {}

  lemma EntityReadsBack(entity: string, rest: string)
    requires IsWordText(entity)
    ensures ValueAfter("[CONTEXT] Entity: " + entity + " " + rest, "Entity:", true) == Some(entity)
  {
    hide ValueAfter, WordRun;
    var tail := ": " + entity + " " + rest;
    assert "[CONTEXT] Entity: " + entity + " " + rest == "[CONTEXT] " + "Entity" + tail;
    SkipsByColon("[CONTEXT] ", "Entity", tail, "Entity:", true);
    assert "Entity" + tail == "Entity:" + " " + (entity + (" " + rest));
    WordRunOf(entity, " " + rest);
    WordIsNotSpace(entity[0]);
    ValueHere("Entity:", entity + (" " + rest), true);
  }

  lemma IdentifierSearch(entity: string, id: string, rest: string)
    requires IsWordText(entity)
    ensures ValueAfter("[CONTEXT] Entity: " + entity + " Identifier: " + id + " " + rest, "Identifier:", false)
      == ValueAfter("Identifier: " + id + (" " + rest), "Identifier:", false)
  {
    hide ValueAfter, TokenRun;
    var tail := ": " + id + " " + rest;
    forall i | 0 <= i < |entity| ensures entity[i] != ':' { WordIsNotSpace(entity[i]); }
    var shorter := entity + " " + "Identifier" + tail;
    assert "[CONTEXT] Entity: " + entity + " Identifier: " + id + " " + rest == "[CONTEXT] Entity: " + shorter;
    SkipsByFirst("[CONTEXT] Entity: ", shorter, "Identifier:", false);
    SkipsByColon(entity + " ", "Identifier", tail, "Identifier:", false);
    assert "Identifier" + tail == "Identifier: " + id + (" " + rest);
  }

  lemma IdentifierReadsBackIff(entity: string, id: string, rest: string)
    requires IsWordText(entity) && id != ""
    ensures var s := "[CONTEXT] Entity: " + entity + " Identifier: " + id + " " + rest;
      ValueAfter(s, "Identifier:", false) == Some(id) <==> IsTokenText(id)
  {
    hide ValueAfter, TokenRun;
    IdentifierSearch(entity, id, rest);
    IdentifierHere(id, " " + rest);
  }

  lemma TokenRunWithin(id: string, rest: string)
    requires id != "" && !EndsToken(id[0]) && rest != "" && rest[0] == ' '
    ensures TokenRun(id + rest) != "" && TokenRun(id + rest) <= id
  {
    hide TokenRun;
    var all, r := id + rest, TokenRun(id + rest);
    assert all[0] == id[0] && all[|id|] == ' ';
    assert |r| <= |id|;
    assert r == all[..|r|] == id[..|r|];
  }

  /** An identifier that starts like a token is read up to where its first token ends. */
  lemma TokenHere(id: string, rest: string)
    requires id != "" && !EndsToken(id[0]) && rest != "" && rest[0] == ' '
    ensures var v := ValueAfter("Identifier: " + id + rest, "Identifier:", false); v.Some? && v.value <= id
  {
    hide ValueAfter, TokenRun, IsSpace;
    TokenRunWithin(id, rest);
    assert "Identifier: " + id + rest == "Identifier:" + " " + (id + rest);
    assert (id + rest)[0] == id[0];
    ValueHere("Identifier:", id + rest, false);
  }

  lemma IdentifierHere(id: string, rest: string)
    requires id != "" && rest != "" && rest[0] == ' '
    ensures ValueAfter("Identifier: " + id + rest, "Identifier:", false) == Some(id) <==> IsTokenText(id)
  {
    TokenRunIff(id, rest);
    var s := "Identifier: " + id + rest;
    assert s == "Identifier:" + " " + (id + rest);
    if IsTokenText(id) {
      ValueHere("Identifier:", id + rest, false);
    } else {
      ValuesAreTokens(s, "Identifier:");
    }
  }

  /** Whatever the token search finds is a token. */
  lemma {:induction false} ValuesAreTokens(s: string, tag: string)
    requires tag != ""
    ensures var v := ValueAfter(s, tag, false); v.Some? ==> IsTokenText(v.value)
    decreases |s|
  {
    if |s| < |tag| {
    } else {
      ValuesAreTokens(s[1..], tag);
    }
  }

  /** What a reader of the message finds as the type, given that the identifier stands before it. */
  function KindReadBack(id: string, kind: string): Option<string> {
    ValueAfter(id + " Type: " + kind, "Type:", true)
  }

  /** Read on its own, the identifier shows no type or the same one, and it does not end in the tag. */
  predicate HidesNoType(id: string, kind: string) {
    match ValueAfter(id, "Type:", true)
    case Some(shown) => shown == kind
    case None => !EndsWith(id, "Type:") || kind == "Type"
  }

  lemma KindReads(entity: string, id: string, kind: string)
    requires IsWordText(entity)
    ensures ValueAfter("[CONTEXT] Entity: " + entity + " Identifier: " + id + " Type: " + kind, "Type:", true)
      == KindReadBack(id, kind)
  {
    hide ValueAfter;
    forall i | 0 <= i < |entity| ensures entity[i] != ':' { WordIsNotSpace(entity[i]); }
    var s := id + " Type: " + kind;
    var s3 := entity + " " + "Identifier" + (": " + s);
    var s1 := ": " + s3;
    assert "[CONTEXT] Entity: " + entity + " Identifier: " + id + " Type: " + kind == "[CONTEXT] " + "Entity" + s1;
    SkipsByColon("[CONTEXT] ", "Entity", s1, "Type:", true);
    assert "Entity" + s1 == "Entity: " + s3;
    SkipsByFirst("Entity: ", s3, "Type:", true);
    SkipsByColon(entity + " ", "Identifier", ": " + s, "Type:", true);
    assert "Identifier" + (": " + s) == "Identifier: " + s;
    SkipsByFirst("Identifier: ", s, "Type:", true);
  }

  /** A printed context is read back unchanged if and only if the identifier is one token and does not give
      a type away before the type is printed. */
  lemma MessageRoundTripIff(c: Context)
    requires IsWordText(c.entity) && c.identifier != "" && IsWordText(c.kind)
    ensures ReadMessage(PrintContext(c)) == Some(c)
      <==> IsTokenText(c.identifier) && HidesNoType(c.identifier, c.kind)
  {
    hide ValueAfter, KindReadBack;
    var e, id, k := c.entity, c.identifier, c.kind;
    var s := "[CONTEXT] Entity: " + e + " Identifier: " + id + " Type: " + k;
    assert PrintContext(c) == s;
    assert s == "[CONTEXT] Entity: " + e + " " + ("Identifier: " + id + " Type: " + k);
    EntityReadsBack(e, "Identifier: " + id + " Type: " + k);
    assert s == "[CONTEXT] Entity: " + e + " Identifier: " + id + " " + ("Type: " + k);
    IdentifierReadsBackIff(e, id, "Type: " + k);
    KindReads(e, id, k);
    if IsTokenText(id) { KindShown(id, k); }
  }

  function WordAfterTag(s: string): string {
    if StartsWith(s, "Type:") then WordRun(TrimStart(s[5..])) else ""
  }

  lemma ValueStep(s: string)
    requires s != ""
    ensures ValueAfter(s, "Type:", true)
      == if WordAfterTag(s) != "" then Some(WordAfterTag(s)) else ValueAfter(s[1..], "Type:", true)
  {
    hide WordRun, TrimStart;
    if |s| < 5 { ShortHasNoValue(s[1..], "Type:", true); }
  }

  /** The type that is read is the first one the identifier shows, if it shows one, and else the printed one. */
  lemma {:induction false} KindShown(id: string, kind: string)
    requires (forall i :: 0 <= i < |id| ==> !EndsToken(id[i])) && IsWordText(kind)
    ensures KindReadBack(id, kind)
      == match ValueAfter(id, "Type:", true)
         case Some(shown) => Some(shown)
         case None => Some(if EndsWith(id, "Type:") then "Type" else kind)
    decreases |id|
  {
    hide ValueAfter, WordAfterTag, IsWordText, EndsToken, EndsWith;
    var tail := " Type: " + kind;
    var all := id + tail;
    assert id + " Type: " + kind == all;
    if id == "" {
      assert all == " " + ("Type:" + " " + kind);
      SkipsByFirst(" ", "Type:" + " " + kind, "Type:", true);
      KindHere(kind);
      NothingIn("Type:");
    } else {
      KindShown(id[1..], kind);
      assert all[1..] == id[1..] + " Type: " + kind;
      ValueStep(all);
      ValueStep(id);
      WordStep(id, kind);
    }
  }

  lemma NothingIn(tag: string)
    requires tag != ""
    ensures ValueAfter("", tag, true) == None && !EndsWith("", tag)
  {}

  /** The word after the tag is the same with the printed type behind it, except at the very end. */
  lemma WordStep(id: string, kind: string)
    requires id != "" && forall i :: 0 <= i < |id| ==> !EndsToken(id[i])
    ensures id == "Type:" ==> WordAfterTag(id) == "" && WordAfterTag(id + (" Type: " + kind)) == "Type"
    ensures id == "Type:" ==> EndsWith(id, "Type:") && ValueAfter(id[1..], "Type:", true) == None
    ensures id != "Type:" ==> WordAfterTag(id + (" Type: " + kind)) == WordAfterTag(id)
    ensures id != "Type:" ==> (EndsWith(id, "Type:") <==> EndsWith(id[1..], "Type:"))
  {
    hide WordRun, TrimStart, ValueAfter, EndsToken;
    var tail := " Type: " + kind;
    StartsWithin(id, tail);
    if StartsWith(id, "Type:") {
      assert (id + tail)[5..] == id[5..] + tail;
      if id == "Type:" {
        ShortHasNoValue(id[1..], "Type:", true);
        NoWordThere(kind);
      } else {
        WordUpToBlank(id[5..], tail);
      }
    }
  }

  lemma StartsWithin(id: string, tail: string)
    requires tail != "" && tail[0] == ' '
    ensures StartsWith(id + tail, "Type:") <==> StartsWith(id, "Type:")
    ensures id != "" && id != "Type:" ==> (EndsWith(id, "Type:") <==> EndsWith(id[1..], "Type:"))
  {
    if |id| < 5 { assert (id + tail)[|id|] == ' '; }
    if |id| > 5 { assert id[1..][|id| - 6..] == id[|id| - 5..]; }
  }

  lemma NoWordThere(kind: string)
    ensures WordRun(TrimStart("" + (" Type: " + kind))) == "Type" && WordRun(TrimStart("")) == ""
  {
    hide WordRun, TrimStart;
    assert "" + (" Type: " + kind) == " " + ("Type: " + kind);
    BlankTrims("Type: " + kind);
    assert "Type: " + kind == "Type" + (": " + kind);
    WordRunOf("Type", ": " + kind);
  }

  lemma WordUpToBlank(rest: string, tail: string)
    requires rest != "" && !EndsToken(rest[0]) && tail != "" && tail[0] == ' '
    ensures WordRun(TrimStart(rest + tail)) == WordRun(TrimStart(rest))
  {
    hide WordRun, TrimStart, IsSpace;
    NothingToTrim(rest);
    NothingToTrim(rest + tail);
    RunUpToBlank(rest, tail);
  }

  lemma RunUpToBlank(rest: string, tail: string)
    requires tail != "" && tail[0] == ' '
    ensures WordRun(rest + tail) == WordRun(rest)
  {
    hide WordRun;
    var all := rest + tail;
    var word, run := WordRun(rest), WordRun(all);
    assert all[|rest|] == ' ';
    assert forall i :: 0 <= i < |word| ==> word[i] == rest[i] == all[i];
    assert |word| < |rest| ==> all[|word|] == rest[|word|];
    assert run == all[..|run|] && word == rest[..|word|];
  }

  lemma KindHere(kind: string)
    requires IsWordText(kind)
    ensures ValueAfter("Type:" + " " + kind, "Type:", true) == Some(kind)
  {
    hide ValueAfter;
    WordRunOf(kind, "");
    assert kind + "" == kind;
    WordIsNotSpace(kind[0]);
    ValueHere("Type:", kind, true);
  }

  lemma EndIsContained(s: string, p: string)
    ensures EndsWith(s, p) ==> Contains(s, p)
  {
    if EndsWith(s, p) { ContainsAt(s, p, |s| - |p|); }
  }

  /** An identifier without the tag gives nothing away. */
  lemma {:induction false} TaglessHidesType(id: string)
    requires !Contains(id, "Type:")
    ensures ValueAfter(id, "Type:", true) == None && !EndsWith(id, "Type:")
    decreases |id|
  {
    hide WordRun, TrimStart;
    EndIsContained(id, "Type:");
    assert !StartsAt(id, 0, "Type:");
    if id == "" {
    } else {
      forall i: nat ensures !StartsAt(id[1..], i, "Type:") {
        assert !StartsAt(id, i + 1, "Type:");
        if i + 6 <= |id| { assert id[1..][i..i + 5] == id[i + 1..i + 6]; }
      }
      TaglessHidesType(id[1..]);
    }
  }

  // ------------------------------------------------------------------------------ end to end

  lemma PushedContextIsRead(messages: seq<Message>, page: string, c: Context)
    requires ParsePageContext(page) == Some(c)
    ensures ReadContext(PushContext(messages, page)) == ReadMessage(PrintContext(c))
  {
    hide ReadMessage, ParsePageContext;
    var m := Message(System, PrintContext(c));
    assert PrintContext(c)[..9] == "[CONTEXT]";
    ContainsAt(PrintContext(c), "[CONTEXT]", 0);
    assert IsContextMessage(m);
    assert (messages + [m])[|messages|] == m;
  }

  /** For rooms and room-seeking posts: building the path, parsing it, pushing the [CONTEXT] message onto any
      session and reading it back returns the original entity, identifier and type, for every identifier
      that each of the two round trips returns. */
  lemma ContextRoundTrip(messages: seq<Message>, entity: Entity, id: string)
    requires entity != Post && IsSegment(id) && NoPattern(id)
    requires IsTokenText(id) && HidesNoType(id, EntityContext(entity, id).kind)
    ensures ReadContext(PushContext(messages, BuildEntityPath(entity, id))) == Some(EntityContext(entity, id))
  {
    hide ReadMessage, PrintContext, ParsePageContext, ReadContext, PushContext, BuildEntityPath, HidesNoType, IsUuid;
    PathRoundTripIff(entity, id);
    var c := EntityContext(entity, id);
    PushedContextIsRead(messages, BuildEntityPath(entity, id), c);
    MessageRoundTripIff(c);
  }

  /** Expanding an identifier without blanks and commas does not put one in front. */
  lemma {:induction false} ExpandedStart(id: string, before: string)
    requires (forall i :: 0 <= i < |id| ==> !EndsToken(id[i])) && before != "" && before[0] == '/'
    ensures Expanded(id, before) != "" ==> !EndsToken(Expanded(id, before)[0])
    decreases |id|
  {
    if id == "" {
    } else {
      if |id| >= 2 {
        ExpandedStart(id[2..], before);
        assert "" + Expanded(id[2..], before) == Expanded(id[2..], before);
      }
    }
  }

  lemma IdentifierOfMessage(c: Context)
    requires IsWordText(c.entity) && ReadMessage(PrintContext(c)).Some?
    ensures var id := ReadMessage(PrintContext(c)).value.identifier;
      IsTokenText(id) && (c.identifier != "" && !EndsToken(c.identifier[0]) ==> id <= c.identifier)
  {
    hide ValueAfter;
    var s := PrintContext(c);
    ValuesAreTokens(s, "Identifier:");
    assert s == "[CONTEXT] Entity: " + c.entity + " Identifier: " + c.identifier + " " + ("Type: " + c.kind);
    IdentifierSearch(c.entity, c.identifier, "Type: " + c.kind);
    if c.identifier != "" && !EndsToken(c.identifier[0]) {
      TokenHere(c.identifier, " " + ("Type: " + c.kind));
    }
  }

  /** The whole chain returns the original entity, identifier and type if and only if each of the two round trips
      does: from any session that does not remember that very context already. */
  lemma ContextRoundTripIff(messages: seq<Message>, entity: Entity, id: string)
    requires ReadContext(messages) != Some(EntityContext(entity, id))
    ensures ReadContext(PushContext(messages, BuildEntityPath(entity, id))) == Some(EntityContext(entity, id))
      <==> && entity != Post && IsSegment(id) && NoPattern(id)
           && IsTokenText(id) && HidesNoType(id, EntityContext(entity, id).kind)
  {
    hide ReadMessage, PrintContext, ParsePageContext, ReadContext, HidesNoType, IsUuid, Expanded, Segment, NoPattern,
      IsTokenText, IsSegment, EndsToken;
    var text := Expanded(id, RoutePrefix(entity));
    var c := EntityContext(entity, Segment(text));
    PathParses(entity, text);
    if ReadContext(PushContext(messages, BuildEntityPath(entity, id))) == Some(EntityContext(entity, id)) {
      PushedContextIsRead(messages, BuildEntityPath(entity, id), c);
      ReadBackIsPlain(entity, id, c);
    }
    if entity != Post && IsSegment(id) && NoPattern(id) && IsTokenText(id)
       && HidesNoType(id, EntityContext(entity, id).kind)
    {
      ContextRoundTrip(messages, entity, id);
    }
  }

  lemma ReadBackIsPlain(entity: Entity, id: string, c: Context)
    requires entity != Post && c.identifier != ""
    requires c == EntityContext(entity, Segment(Expanded(id, RoutePrefix(entity))))
    requires ReadMessage(PrintContext(c)) == Some(EntityContext(entity, id))
    ensures IsSegment(id) && NoPattern(id) && IsTokenText(id) && HidesNoType(id, EntityContext(entity, id).kind)
  {
    hide ReadMessage, PrintContext, HidesNoType, IsUuid, Expanded, Segment, NoPattern, EndsToken;
    var text := Expanded(id, RoutePrefix(entity));
    NamesAreWords(entity);
    IdentifierOfMessage(c);
    ExpandedStart(id, RoutePrefix(entity));
    assert c.identifier[0] == text[0];
    assert id <= c.identifier <= text;
    PatternShows(id, RoutePrefix(entity));
    PlainExpands(id, RoutePrefix(entity));
    assert c.identifier == id;
    SegmentOf(id);
    MessageRoundTripIff(c);
  }

  lemma NamesAreWords(entity: Entity)
    ensures IsWordText(EntityName(entity)) && IsWordText("id") && IsWordText("slug")
  {}

  /** In particular every non-empty identifier free of / ? # $, white space, commas and the text "Type:". */
  lemma PlainIdentifierRoundTrip(messages: seq<Message>, entity: Entity, id: string)
    requires entity != Post && id != "" && !Contains(id, "Type:")
    requires forall i :: 0 <= i < |id| ==> !EndsSegment(id[i]) && !EndsToken(id[i]) && id[i] != '$'
    ensures ReadContext(PushContext(messages, BuildEntityPath(entity, id))) == Some(EntityContext(entity, id))
  {
    hide Contains, EntityContext, PushContext, ReadContext, BuildEntityPath, ValueAfter;
    TaglessHidesType(id);
    ContextRoundTrip(messages, entity, id);
  }

  /** The excluded text does harm: this identifier is read back with the type "x". */
  lemma TypeInIdentifierMisleads(messages: seq<Message>)
    ensures ReadContext(PushContext(messages, BuildEntityPath(Room, "Type:x"))) == Some(Context("room", "Type:x", "x"))
  {
    hide ReadMessage, PrintContext, ReadContext, PushContext, IsUuid;
    var id := "Type:x";
    assert NoPattern(id) && IsSegment(id);
    PathRoundTripIff(Room, id);
    assert KindOf(id) == "slug" by { assert |id| != 36; assert !IsUuid(id) by { NotUuid(id); } }
    var c := Context("room", id, "slug");
    PushedContextIsRead(messages, BuildEntityPath(Room, id), c);
    MisleadingMessage();
  }

  lemma NotUuid(s: string)
    requires |s| != 36
    ensures !IsUuid(s)
  {}

  lemma MisleadingMessage()
    ensures ReadMessage(PrintContext(Context("room", "Type:x", "slug"))) == Some(Context("room", "Type:x", "x"))
  {
    hide ValueAfter;
    var id := "Type:x";
    var s := "[CONTEXT] Entity: " + "room" + " Identifier: " + id + " Type: " + "slug";
    assert PrintContext(Context("room", id, "slug")) == s;
    assert s == "[CONTEXT] Entity: " + "room" + " " + ("Identifier: " + id + " Type: " + "slug");
    EntityReadsBack("room", "Identifier: " + id + " Type: " + "slug");
    assert s == "[CONTEXT] Entity: " + "room" + " Identifier: " + id + " " + ("Type: " + "slug");
    assert IsTokenText(id);
    IdentifierReadsBackIff("room", id, "Type: " + "slug");
    KindReads("room", id, "slug");
    MisleadingKind();
  }

  lemma MisleadingKind()
    ensures KindReadBack("Type:x", "slug") == Some("x")
  {
    hide ValueAfter, WordRun, TrimStart, KindReadBack;
    var id := "Type:x";
    KindShown(id, "slug");
    ValueStep(id);
    assert id[5..] == "x" && "x" + "" == "x";
    NothingToTrim("x");
    WordRunOf("x", "");
    assert WordAfterTag(id) == "x";
  }
}
