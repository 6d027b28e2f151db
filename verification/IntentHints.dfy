/** The orchestrator's hints travel to the SQL agent as [INTENT] system messages: written by one service,
    read back by another. */
module IntentHints {
  import opened Text
  import opened Session

  datatype Action = Search | Own | Stats

  datatype Hints = Hints(
    tables: Option<string>,
    relationships: Option<string>,
    filters: Option<string>,
    action: Option<Action>)

  const TABLES := "[INTENT] TABLES="
  const RELATIONSHIPS := "[INTENT] RELATIONSHIPS="
  const FILTERS := "[INTENT] FILTERS="
  const ACTION := "[INTENT] ACTION="

  // ----------------------------------------------------------------------------------- writing

  predicate IsIntent(m: Message) {
    m.role.System? && StartsWith(m.content, "[INTENT] ")
  }

  function WithoutIntents(messages: seq<Message>): (r: seq<Message>)
    ensures forall i :: 0 <= i < |r| ==> !IsIntent(r[i])
  {
    if messages == [] then []
    else (if IsIntent(messages[0]) then [] else [messages[0]]) + WithoutIntents(messages[1..])
  }

  /** The UUID of /^owner_id\s*=\s*(uuid)$/i. */
  function OwnerId(hint: string): Option<string> {
    if |hint| < 8 || Lower(hint[..8]) != "owner_id" then None
    else
      var eq := SkipSpaces(hint, 8);
      if eq == |hint| || hint[eq] != '=' then None
      else
        var id := hint[SkipSpaces(hint, eq + 1)..];
        if IsUuid(id) then Some(id) else None
  }

  /** A personal owner_id hint is qualified with its table; a blank hint is dropped. */
  function NormalizedFilters(h: Hints): Option<string> {
    var hint := if h.filters.None? then "" else Trim(h.filters.value);
    if hint == "" then None
    else if h.action == Some(Own) && OwnerId(hint).Some? then
      Some("buildings.owner_id='" + OwnerId(hint).value + "'")
    else Some(hint)
  }

  function ActionName(a: Action): string {
    match a
    case Search => "search"
    case Own => "own"
    case Stats => "stats"
  }

  /** An absent or empty hint is not pushed. */
  function Pushed(messages: seq<Message>, prefix: string, hint: Option<string>): seq<Message> {
    if hint.None? || hint.value == "" then messages else messages + [Message(System, prefix + hint.value)]
  }

  function NameOf(action: Option<Action>): Option<string> {
    if action.None? then None else Some(ActionName(action.value))
  }

  function SetIntents(messages: seq<Message>, h: Hints): seq<Message> {
    Pushed(Pushed(Pushed(Pushed(WithoutIntents(messages), TABLES, h.tables), RELATIONSHIPS, h.relationships),
                  FILTERS, NormalizedFilters(h)), ACTION, NameOf(h.action))
  }

  // ----------------------------------------------------------------------------------- reading

  function LastWith(messages: seq<Message>, prefix: string): Option<string> {
    if messages == [] then None
    else
      var last := messages[|messages| - 1];
      if last.role.System? && StartsWith(last.content, prefix) then Some(last.content)
      else LastWith(messages[..|messages| - 1], prefix)
  }

  /** The characters up to the first line end: (.+) takes no more. */
  function Line(s: string): (r: string)
    ensures r <= s
    ensures forall i :: 0 <= i < |r| ==> !IsLineEnd(r[i])
    ensures |r| < |s| ==> IsLineEnd(s[|r|])
  {
    if s == "" || IsLineEnd(s[0]) then "" else [s[0]] + Line(s[1..])
  }

  /** The leftmost match of /<prefix>(.+)/, its group. */
  function Captured(s: string, prefix: string): Option<string>
    decreases |s|
  {
    if StartsWith(s, prefix) && Line(s[|prefix|..]) != "" then Some(Line(s[|prefix|..]))
    else if s == "" then None
    else Captured(s[1..], prefix)
  }

  function ReadHint(messages: seq<Message>, prefix: string): Option<string> {
    match LastWith(messages, prefix)
    case None => None
    case Some(content) =>
      match Captured(content, prefix)
      case None => None
      case Some(text) => Some(Trim(text))
  }

  function ReadAction(messages: seq<Message>): Option<Action> {
    match ReadHint(messages, ACTION)
    case None => None
    case Some(text) =>
      var name := Lower(text);
      if name == "search" then Some(Search)
      else if name == "own" then Some(Own)
      else if name == "stats" then Some(Stats)
      else None
  }

  // ------------------------------------------------------------------------------ round trip

  lemma {:induction false} NoIntentNoHint(messages: seq<Message>, prefix: string)
    requires StartsWith(prefix, "[INTENT] ") && forall i :: 0 <= i < |messages| ==> !IsIntent(messages[i])
    ensures LastWith(messages, prefix) == None
  {
    if messages == [] {
    } else {
      var last := messages[|messages| - 1];
      PrefixOfPrefix("[INTENT] ", prefix, last.content);
      NoIntentNoHint(messages[..|messages| - 1], prefix);
    }
  }

  lemma PrefixOfPrefix(a: string, b: string, s: string)
    requires StartsWith(b, a)
    ensures StartsWith(s, b) ==> StartsWith(s, a)
  {}

  lemma PushedOwn(messages: seq<Message>, prefix: string, hint: Option<string>)
    ensures LastWith(Pushed(messages, prefix, hint), prefix)
      == if hint.None? || hint.value == "" then LastWith(messages, prefix) else Some(prefix + hint.value)
  {}

  /** A message with another key is passed over. */
  lemma PushedOther(messages: seq<Message>, other: string, hint: Option<string>, prefix: string)
    requires |prefix| > 9 && |other| > 9 && prefix[9] != other[9]
    ensures LastWith(Pushed(messages, other, hint), prefix) == LastWith(messages, prefix)
  {
    if hint.Some? && hint.value != "" {
      assert (other + hint.value)[9] == other[9];
      assert Pushed(messages, other, hint)[..|messages|] == messages;
    }
  }

  function Content(prefix: string, hint: Option<string>): Option<string> {
    if hint.None? || hint.value == "" then None else Some(prefix + hint.value)
  }

  /** After the write each reader finds exactly the message just pushed for its key, or none: nothing stale
      survives. */
  lemma ReadersFindTheirs(messages: seq<Message>, h: Hints)
    ensures var s := SetIntents(messages, h);
      && LastWith(s, TABLES) == Content("[INTENT] TABLES=", h.tables)
      && LastWith(s, RELATIONSHIPS) == Content("[INTENT] RELATIONSHIPS=", h.relationships)
      && LastWith(s, FILTERS) == Content("[INTENT] FILTERS=", NormalizedFilters(h))
      && LastWith(s, ACTION) == Content("[INTENT] ACTION=", NameOf(h.action))
  {
    hide LastWith, Pushed, NormalizedFilters, NameOf, WithoutIntents, StartsWith, IsIntent;
    var s0 := WithoutIntents(messages);
    var s1 := Pushed(s0, TABLES, h.tables);
    var s2 := Pushed(s1, RELATIONSHIPS, h.relationships);
    var s3 := Pushed(s2, FILTERS, NormalizedFilters(h));
    KeysAreIntents();
    NoIntentNoHint(s0, TABLES);
    NoIntentNoHint(s0, RELATIONSHIPS);
    NoIntentNoHint(s0, FILTERS);
    NoIntentNoHint(s0, ACTION);
    PushedOwn(s0, TABLES, h.tables);
    PushedOther(s0, TABLES, h.tables, RELATIONSHIPS);
    PushedOther(s0, TABLES, h.tables, FILTERS);
    PushedOther(s0, TABLES, h.tables, ACTION);
    PushedOther(s1, RELATIONSHIPS, h.relationships, TABLES);
    PushedOwn(s1, RELATIONSHIPS, h.relationships);
    PushedOther(s1, RELATIONSHIPS, h.relationships, FILTERS);
    PushedOther(s1, RELATIONSHIPS, h.relationships, ACTION);
    PushedOther(s2, FILTERS, NormalizedFilters(h), TABLES);
    PushedOther(s2, FILTERS, NormalizedFilters(h), RELATIONSHIPS);
    PushedOwn(s2, FILTERS, NormalizedFilters(h));
    PushedOther(s2, FILTERS, NormalizedFilters(h), ACTION);
    PushedOther(s3, ACTION, NameOf(h.action), TABLES);
    PushedOther(s3, ACTION, NameOf(h.action), RELATIONSHIPS);
    PushedOther(s3, ACTION, NameOf(h.action), FILTERS);
    PushedOwn(s3, ACTION, NameOf(h.action));
  }

  lemma KeysAreIntents()
    ensures StartsWith(TABLES, "[INTENT] ") && StartsWith(RELATIONSHIPS, "[INTENT] ")
    ensures StartsWith(FILTERS, "[INTENT] ") && StartsWith(ACTION, "[INTENT] ")
  {}

  predicate SingleLine(s: string) {
    forall i :: 0 <= i < |s| ==> !IsLineEnd(s[i])
  }

  /** What a reader makes of a hint that does not start with a line end: its first line, trimmed. */
  lemma FirstLineIsRead(prefix: string, hint: string)
    requires hint != "" && !IsLineEnd(hint[0])
    ensures Captured(prefix + hint, prefix) == Some(Line(hint))
    ensures SingleLine(hint) ==> Line(hint) == hint
  {
    assert (prefix + hint)[|prefix|..] == hint;
    assert Line(hint) != "";
    if SingleLine(hint) { assert |Line(hint)| == |hint|; }
  }

  lemma LineEndIsSpace(c: char)
    ensures IsLineEnd(c) ==> IsSpace(c)
  {}

  /** The value a hint is read back as: undefined when absent or empty, else its first line, trimmed. */
  function ReadValue(hint: Option<string>): Option<string> {
    if hint.None? || hint.value == "" then None else Some(Trim(Line(hint.value)))
  }

  /** A trimmed single-line hint is read back as it is. */
  predicate Faithful(hint: Option<string>) {
    hint.None? || hint.value == "" || (IsTrimmed(hint.value) && SingleLine(hint.value))
  }

  lemma TrimmedHintIsRead(messages: seq<Message>, prefix: string, hint: Option<string>)
    requires LastWith(messages, prefix) == Content(prefix, hint)
    requires hint.Some? ==> IsTrimmed(hint.value)
    ensures ReadHint(messages, prefix) == ReadValue(hint)
    ensures Faithful(hint) && hint != Some("") ==> ReadHint(messages, prefix) == hint
  {
    hide LastWith, Captured, Trim, Line;
    if hint.Some? && hint.value != "" {
      LineEndIsSpace(hint.value[0]);
      FirstLineIsRead(prefix, hint.value);
    }
  }

  lemma TrimmedValueNotEmpty(hint: string)
    requires hint != "" && IsTrimmed(hint)
    ensures ReadValue(Some(hint)).Some? && ReadValue(Some(hint)).value != ""
  {
    hide Trim;
    LineEndIsSpace(hint[0]);
    assert Line(hint) != "" && Line(hint)[0] == hint[0];
    TrimKeepsNonblank(Line(hint));
  }

  lemma NormalizedIsTrimmed(h: Hints)
    ensures var f := NormalizedFilters(h); f.Some? ==> f.value != "" && IsTrimmed(f.value)
  {
    hide Trim, OwnerId;
  }

  /** Normalising filters that are normalised already changes nothing, so a hint that was read back can be set
      again. */
  lemma NormalizedIsStable(h: Hints)
    ensures NormalizedFilters(h.(filters := NormalizedFilters(h))) == NormalizedFilters(h)
  {
    hide Trim, Lower, IsUuid;
    NormalizedIsTrimmed(h);
    var f := NormalizedFilters(h);
    if f.Some? && OwnerId(Trim(if h.filters.Some? then h.filters.value else "")).Some? && h.action == Some(Own) {
      QualifiedIsNoOwnerId(f.value);
    }
  }

  /** The name in any case, blanks, an equals sign, blanks, and the id to the end. */
  predicate SpellsOwner(hint: string, eq: nat, at: nat, id: string) {
    && 8 <= eq < at <= |hint|
    && Lower(hint[..8]) == "owner_id" && hint[eq] == '='
    && (forall k :: 8 <= k < at && k != eq ==> IsSpace(hint[k]))
    && hint[at..] == id && IsUuid(id)
  }

  /** The owner's id is read from a hint exactly when the hint is nothing but an owner_id filter for it. */
  lemma OwnerIdIff(hint: string, id: string)
    ensures OwnerId(hint) == Some(id) <==> exists eq: nat, at: nat :: SpellsOwner(hint, eq, at, id)
  {
    hide Lower, IsSpace;
    if OwnerId(hint) == Some(id) {
      var eq := SkipSpaces(hint, 8);
      assert SpellsOwner(hint, eq, SkipSpaces(hint, eq + 1), id);
    }
    if eq: nat, at: nat :| SpellsOwner(hint, eq, at, id) {
      SpacesSkipped(hint, 8, eq);
      IdIsNoSpace(id);
      assert hint[at] == id[0];
      SpacesSkipped(hint, eq + 1, at);
    }
  }

  lemma {:induction false} SpacesSkipped(s: string, i: nat, end: nat)
    requires i <= end < |s| && (forall k :: i <= k < end ==> IsSpace(s[k])) && (s[end] == '=' || !IsSpace(s[end]))
    ensures SkipSpaces(s, i) == end
    decreases end - i
  {
    if i == end {
    } else {
      hide IsSpace;
      SpacesSkipped(s, i + 1, end);
    }
  }

  lemma IdIsNoSpace(id: string)
    requires IsUuid(id)
    ensures !IsSpace(id[0])
  {}

  /** Any other filter hint reaches the SQL agent as it was given, but for blanks around it, if it is one line. */
  lemma OtherFiltersAreRead(messages: seq<Message>, h: Hints)
    requires h.filters.Some? && Trim(h.filters.value) != "" && SingleLine(Trim(h.filters.value))
    requires h.action != Some(Own) || OwnerId(Trim(h.filters.value)).None?
    ensures ReadHint(SetIntents(messages, h), FILTERS) == Some(Trim(h.filters.value))
  {
    hide SetIntents, LastWith, ReadHint, Trim, OwnerId;
    ReadersFindTheirs(messages, h);
    assert NormalizedFilters(h) == Some(Trim(h.filters.value));
    TrimmedHintIsRead(SetIntents(messages, h), FILTERS, NormalizedFilters(h));
  }

  lemma QualifiedIsNoOwnerId(hint: string)
    requires "buildings.owner_id='" <= hint
    ensures OwnerId(hint).None?
  {
    hide IsUuid, SkipSpaces;
    assert Lower(hint[..8])[0] == LowerChar(hint[0]);
  }

  lemma ActionNameReads(a: Action)
    ensures Lower(ActionName(a)) == ActionName(a) && ActionName(a) != ""
    ensures IsTrimmed(ActionName(a)) && SingleLine(ActionName(a))
  {
    var name := ActionName(a);
    assert forall i :: 0 <= i < |name| ==> 'a' <= name[i] <= 'z';
    LettersRead(name);
  }

  lemma LettersRead(name: string)
    requires forall i :: 0 <= i < |name| ==> 'a' <= name[i] <= 'z'
    ensures Lower(name) == name && IsTrimmed(name) && SingleLine(name)
  {
    hide Lower;
    assert forall i :: 0 <= i < |name| ==> Lower(name)[i] == name[i];
  }

  /** The action reads back whatever the other hints are. */
  lemma ActionReads(messages: seq<Message>, h: Hints)
    ensures ReadAction(SetIntents(messages, h)) == h.action
  {
    hide SetIntents, LastWith, Captured, NormalizedFilters, ReadHint, Lower;
    var s := SetIntents(messages, h);
    ReadersFindTheirs(messages, h);
    if h.action.Some? { ActionNameReads(h.action.value); }
    TrimmedHintIsRead(s, ACTION, NameOf(h.action));
  }

  /** From any session, after the hints are set, the four readers return the hints just set: the filters
      in normalised form, the action itself, and of a hint with several lines the first. */
  lemma HintsRoundTrip(messages: seq<Message>, h: Hints)
    requires h.tables.Some? ==> IsTrimmed(h.tables.value)
    requires h.relationships.Some? ==> IsTrimmed(h.relationships.value)
    ensures var s := SetIntents(messages, h);
      && ReadHint(s, TABLES) == ReadValue(h.tables)
      && ReadHint(s, RELATIONSHIPS) == ReadValue(h.relationships)
      && ReadHint(s, FILTERS) == ReadValue(NormalizedFilters(h))
      && ReadAction(s) == h.action
  {
    hide SetIntents, LastWith, Captured, NormalizedFilters, ReadHint, Lower;
    var s := SetIntents(messages, h);
    ReadersFindTheirs(messages, h);
    TrimmedHintIsRead(s, TABLES, h.tables);
    TrimmedHintIsRead(s, RELATIONSHIPS, h.relationships);
    NormalizedIsTrimmed(h);
    TrimmedHintIsRead(s, FILTERS, NormalizedFilters(h));
    ActionReads(messages, h);
  }

  /** Trimmed single-line hints come back exactly, and absent ones as undefined. */
  lemma SingleLineHintsRoundTrip(messages: seq<Message>, h: Hints)
    requires Faithful(h.tables) && Faithful(h.relationships) && Faithful(NormalizedFilters(h))
    requires h.tables != Some("") && h.relationships != Some("")
    ensures var s := SetIntents(messages, h);
      && ReadHint(s, TABLES) == h.tables
      && ReadHint(s, RELATIONSHIPS) == h.relationships
      && ReadHint(s, FILTERS) == NormalizedFilters(h)
      && ReadAction(s) == h.action
  {
    hide SetIntents, LastWith, Captured, NormalizedFilters, ReadHint, ReadAction;
    var s := SetIntents(messages, h);
    ReadersFindTheirs(messages, h);
    NormalizedIsTrimmed(h);
    TrimmedHintIsRead(s, TABLES, h.tables);
    TrimmedHintIsRead(s, RELATIONSHIPS, h.relationships);
    TrimmedHintIsRead(s, FILTERS, NormalizedFilters(h));
    HintsRoundTrip(messages, h);
  }

  // ---------------------------------------------------------------------- the other messages

  lemma {:induction false} WithoutIntentsJoins(a: seq<Message>, b: seq<Message>)
    ensures WithoutIntents(a + b) == WithoutIntents(a) + WithoutIntents(b)
  {
    if a == [] {
      assert [] + b == b;
    } else {
      hide IsIntent;
      assert (a + b)[1..] == a[1..] + b;
      WithoutIntentsJoins(a[1..], b);
    }
  }

  lemma {:induction false} WithoutIntentsTwice(messages: seq<Message>)
    requires forall i :: 0 <= i < |messages| ==> !IsIntent(messages[i])
    ensures WithoutIntents(messages) == messages
  {
    if messages == [] {
    } else {
      hide IsIntent;
      WithoutIntentsTwice(messages[1..]);
      assert messages == [messages[0]] + messages[1..];
    }
  }

  lemma PushedIsIntent(messages: seq<Message>, prefix: string, hint: Option<string>)
    requires StartsWith(prefix, "[INTENT] ")
    ensures WithoutIntents(Pushed(messages, prefix, hint)) == WithoutIntents(messages)
  {
    if hint.Some? && hint.value != "" {
      var m := Message(System, prefix + hint.value);
      assert IsIntent(m);
      assert [m][1..] == [];
      assert WithoutIntents([m]) == [];
      WithoutIntentsJoins(messages, [m]);
      assert WithoutIntents(messages) + [] == WithoutIntents(messages);
    }
  }

  /** Every message that is no system message with the intent mark is kept, behind those kept before it; every other
      message adds nothing. */
  lemma EachIsKeptInOrder(messages: seq<Message>, i: nat)
    requires i < |messages|
    ensures var m := messages[i]; var kept, k := WithoutIntents(messages), |WithoutIntents(messages[..i])|;
      if m.role == System && |m.content| >= 9 && m.content[..9] == "[INTENT] " then
        |WithoutIntents(messages[..i + 1])| == k
      else
        k < |kept| && kept[k] == m && |WithoutIntents(messages[..i + 1])| == k + 1
  {
    var before, after := messages[..i], messages[i + 1..];
    assert messages[..i + 1] == before + [messages[i]];
    assert messages == messages[..i + 1] + after;
    WithoutIntentsJoins(before, [messages[i]]);
    WithoutIntentsJoins(messages[..i + 1], after);
    OneMessage(messages[i]);
    hide WithoutIntents;
  }

  lemma OneMessage(m: Message)
    ensures WithoutIntents([m])
      == if m.role == System && |m.content| >= 9 && m.content[..9] == "[INTENT] " then [] else [m]
  {
    assert [m][1..] == [];
  }

  /** Only the four known names of an action are read; any other text is no action. */
  lemma ActionIsRead(messages: seq<Message>)
    ensures var text := ReadHint(messages, ACTION);
      && (ReadAction(messages) == Some(Search) <==> text.Some? && Lower(text.value) == "search")
      && (ReadAction(messages) == Some(Own) <==> text.Some? && Lower(text.value) == "own")
      && (ReadAction(messages) == Some(Stats) <==> text.Some? && Lower(text.value) == "stats")
  {
    hide ReadHint, Lower;
  }

  /** Setting hints keeps all messages that are no intents, in their order, and adds nothing but intents. */
  lemma OtherMessagesKept(messages: seq<Message>, h: Hints)
    ensures WithoutIntents(SetIntents(messages, h)) == WithoutIntents(messages)
  {
    hide Pushed, WithoutIntents, NormalizedFilters, StartsWith, IsIntent;
    var s0 := WithoutIntents(messages);
    var s1 := Pushed(s0, TABLES, h.tables);
    var s2 := Pushed(s1, RELATIONSHIPS, h.relationships);
    var s3 := Pushed(s2, FILTERS, NormalizedFilters(h));
    KeysAreIntents();
    WithoutIntentsTwice(s0);
    PushedIsIntent(s0, TABLES, h.tables);
    PushedIsIntent(s1, RELATIONSHIPS, h.relationships);
    PushedIsIntent(s2, FILTERS, NormalizedFilters(h));
    PushedIsIntent(s3, ACTION, NameOf(h.action));
  }

  /** The last set wins: whatever hints were set before, setting new ones leaves the session as if they had been
      the first. */
  lemma LastSetWins(messages: seq<Message>, earlier: Hints, h: Hints)
    ensures SetIntents(SetIntents(messages, earlier), h) == SetIntents(messages, h)
  {
    OtherMessagesKept(messages, earlier);
    hide Pushed, WithoutIntents, NormalizedFilters, NameOf;
  }

  // --------------------------------------------------------------------------------- the method

  class ChatSession {
    var messages: seq<Message>

    method Push(prefix: string, hint: Option<string>)
      modifies this
      ensures messages == Pushed(old(messages), prefix, hint)
    {
      if hint.Some? && hint.value != "" {
        messages := messages + [Message(System, prefix + hint.value)];
      }
    }

    method SetIntentSystemMessages(intent: Hints) returns (normalizedFiltersHint: Option<string>)
      modifies this
      ensures messages == SetIntents(old(messages), intent)
      ensures normalizedFiltersHint == NormalizedFilters(intent)
    {
      messages := WithoutIntents(messages);
      normalizedFiltersHint := NormalizedFilters(intent);
      Push(TABLES, intent.tables);
      Push(RELATIONSHIPS, intent.relationships);
      Push(FILTERS, normalizedFiltersHint);
      Push(ACTION, NameOf(intent.action));
    }
  }
}
