/** The string tests of the SQL agent: cleaning a model answer, reading a database error, naming an
    error, and enforcing a filter hint.

    Each regular expression is written as a direct search, and the lemmas say, in terms of positions in the
    text, exactly what the search finds: which match is taken, and when there is none.

    The user ids and the placeholder of the reuse guard are here, too: where UUIDs stand in a text, what the
    guard sees of them, and what filling in the user's id changes. */
module SqlText {
  import opened Text

  // ---------------------------------------------------------------------------- model answers

  /** replace(/<fence>\n?/g, ''): every fence goes, with one line feed after it. */
  function StripFence(s: string, fence: string, ignoreCase: bool): string
    requires fence != ""
    decreases |s|
  {
    if s == "" then ""
    else if |fence| <= |s| && (s[..|fence|] == fence || (ignoreCase && Lower(s[..|fence|]) == fence)) then
      var rest := s[|fence|..];
      StripFence(if rest != "" && rest[0] == '\n' then rest[1..] else rest, fence, ignoreCase)
    else [s[0]] + StripFence(s[1..], fence, ignoreCase)
  }

  function WithSemicolon(s: string): (r: string)
    ensures r != "" && EndsWith(r, ";") && s <= r
    ensures EndsWith(s, ";") ==> r == s
  {
    if EndsWith(s, ";") then s else s + ";"
  }

  /** The SQL text taken from a model answer. */
  function Clean(text: string): (sql: string)
    ensures sql != ""
  {
    WithSemicolon(Trim(StripFence(StripFence(Trim(text), "```sql", false), "```", false)))
  }

  predicate IsSelect(sql: string) {
    StartsWith(Trim(Lower(sql)), "select")
  }

  // -------------------------------------------------------------------------- database errors

  /** The first text between back quotes after the tag: /<tag>\s*`([^`]+)`/. */
  function Ticked(s: string, tag: string, from: nat): Option<string>
    decreases |s| - from
  {
    if from + |tag| > |s| then None
    else
      var here := if StartsAt(s, from, tag) then TickedAt(s, from + |tag|) else None;
      if here.Some? then here else Ticked(s, tag, from + 1)
  }

  function TickedAt(s: string, i: nat): Option<string>
    requires i <= |s|
  {
    var open := SkipSpaces(s, i);
    if open == |s| || s[open] != '`' then None
    else
      var n := IndexOfChar(s[open + 1..], '`');
      if n == 0 || open + 1 + n == |s| then None else Some(s[open + 1..open + 1 + n])
  }

  /** extractPrismaErrorMessage: a Prisma error that names a code and a message is shortened. */
  function Describe(message: string): string {
    match (Ticked(message, "Code:", 0), Ticked(message, "Message:", 0))
    case (Some(code), Some(detail)) => "PostgreSQL Error " + code + ": " + detail
    case _ => message
  }

  // ------------------------------------------------------------------------------- error keys

  /** A case-insensitive search for a lower-case pattern. */
  predicate HasText(s: string, p: string) {
    Contains(Lower(s), p)
  }

  predicate IsCodeChar(c: char) {
    IsDigit(c) || 'a' <= c <= 'z' || 'A' <= c <= 'Z'
  }

  function UpperChar(c: char): char {
    if 'a' <= c <= 'z' then (c as int - 32) as char else c
  }

  function Upper(s: string): string {
    if s == "" then "" else [UpperChar(s[0])] + Upper(s[1..])
  }

  /** The five-character code of /PostgreSQL Error\s+([0-9A-Z]{5})\s*:/i. */
  function PgCode(s: string, from: nat): Option<string>
    decreases |s| - from
  {
    if from + 16 > |s| then None
    else
      var here := if StartsAt(Lower(s), from, "postgresql error") then PgCodeAt(s, from + 16) else None;
      if here.Some? then here else PgCode(s, from + 1)
  }

  function PgCodeAt(s: string, i: nat): Option<string>
    requires i <= |s|
  {
    var start := SkipSpaces(s, i);
    if start == i || start + 5 > |s| || !(forall k :: start <= k < start + 5 ==> IsCodeChar(s[k])) then None
    else
      var colon := SkipSpaces(s, start + 5);
      if colon == |s| || s[colon] != ':' then None else Some(s[start..start + 5])
  }

  /** The first line of a trimmed, non-empty message, cut to 120 characters. */
  function FirstLineKey(msg: string): (key: string)
    requires msg != "" && !IsSpace(msg[0])
    ensures key != ""
  {
    var line := TrimEnd(msg[..IndexOfChar(msg, '\n')]);
    if |line| <= 120 then line else line[..120]
  }

  /** The name of a recognised error, or "". */
  function NamedKey(msg: string): string {
    if PgCode(msg, 0).Some? then "pg_" + Upper(PgCode(msg, 0).value)
    else if HasText(msg, "filters_hint enforcement failed") then "filters_hint_enforcement"
    else if HasText(msg, "sql safety validation failed") then "sql_safety_validation"
    else if HasText(msg, "only select queries are allowed") then "non_select_blocked"
    else if HasText(msg, "sql unchanged from previous attempt") then "sql_unchanged"
    else ""
  }

  /** normalizeSqlErrorKey. */
  function ErrorKey(error: string): (key: string)
    ensures key != ""
  {
    var msg := Trim(error);
    if msg == "" then "empty_error"
    else if NamedKey(msg) != "" then NamedKey(msg)
    else FirstLineKey(msg)
  }

  // ------------------------------------------------------------------------------ filter hints

  datatype HintMatch = HintMatch(column: string, literal: string)

  /** The match of /\.(slug|id)\s*=\s*'([^']+)'/i at this position. */
  function FilterAt(s: string, at: nat): Option<HintMatch> {
    var low := Lower(s);
    var column := if StartsAt(low, at, ".slug") then "slug" else if StartsAt(low, at, ".id") then "id" else "";
    var literal := if column == "" then None else QuotedAfterEquals(s, at + 1 + |column|);
    if literal.Some? then Some(HintMatch(column, literal.value)) else None
  }

  /** The leftmost match. */
  function HintLiteral(s: string, from: nat): Option<HintMatch>
    decreases |s| - from
  {
    if from >= |s| then None
    else if FilterAt(s, from).Some? then FilterAt(s, from)
    else HintLiteral(s, from + 1)
  }

  function QuotedAfterEquals(s: string, i: nat): Option<string>
    requires i <= |s|
  {
    var eq := SkipSpaces(s, i);
    if eq == |s| || s[eq] != '=' then None
    else
      var open := SkipSpaces(s, eq + 1);
      if open == |s| || s[open] != '\'' then None
      else
        var n := IndexOfChar(s[open + 1..], '\'');
        if n == 0 || open + 1 + n == |s| then None else Some(s[open + 1..open + 1 + n])
  }

  /** What a hint requires the SQL to contain, if it requires anything. */
  function Required(filtersHint: Option<string>): Option<HintMatch> {
    if filtersHint.None? then None
    else
      var hint := Trim(filtersHint.value);
      if hint == "" || Lower(hint) == "none" then None else HintLiteral(hint, 0)
  }

  predicate MeetsHint(filtersHint: Option<string>, sql: string) {
    var required := Required(filtersHint);
    required.Some? ==> Contains(sql, "'" + required.value.literal + "'")
  }

  // --------------------------------------------------------------------------------- user ids

  /** The version-checked UUID pattern of the canonical reuse guard, at position i. */
  predicate IsUuidAt(s: string, i: nat) {
    i + 36 <= |s|
    && (forall k :: i <= k < i + 36 ==>
          if k - i in {8, 13, 18, 23} then s[k] == '-' else IsHex(s[k]))
    && '1' <= s[i + 14] <= '5'
    && s[i + 19] in {'8', '9', 'a', 'b', 'A', 'B'}
  }

  /** matchAll: the non-overlapping UUIDs of a text, from left to right. */
  function Uuids(s: string, from: nat): (ids: seq<string>)
    decreases |s| - from
  {
    if from >= |s| then []
    else if IsUuidAt(s, from) then [s[from..from + 36]] + Uuids(s, from + 36)
    else Uuids(s, from + 1)
  }

  /** replace(/USER_ID/gi, userId). */
  function FillUserId(s: string, userId: string): string
    decreases |s|
  {
    if s == "" then ""
    else if |s| >= 7 && Lower(s[..7]) == "user_id" then userId + FillUserId(s[7..], userId)
    else [s[0]] + FillUserId(s[1..], userId)
  }

  // ------------------------------------------------------------------------- what the tests read

  lemma LowerKeepsSpace(c: char)
    ensures IsSpace(LowerChar(c)) <==> IsSpace(c)
  {}

  lemma {:induction false} TrimStartSkips(s: string)
    ensures TrimStart(Lower(s)) == Lower(s[SkipSpaces(s, 0)..])
  {
    hide IsSpace, LowerChar;
    if s == "" {
    } else {
      LowerKeepsSpace(s[0]);
      assert Lower(s)[1..] == Lower(s[1..]);
      TrimStartSkips(s[1..]);
      SkipSpacesInTail(s, 1);
    }
  }

  lemma {:induction false} SkipSpacesInTail(s: string, i: nat)
    requires 1 <= i <= |s|
    ensures SkipSpaces(s, i) == 1 + SkipSpaces(s[1..], i - 1)
    ensures s[SkipSpaces(s, i)..] == s[1..][SkipSpaces(s[1..], i - 1)..]
    decreases |s| - i
  {
    hide IsSpace;
    if i == |s| {
    } else {
      SkipSpacesInTail(s, i + 1);
    }
  }

  /** A statement is a select if and only if its first six characters after white space spell it, in any case. */
  lemma SelectIff(sql: string)
    ensures var rest := sql[SkipSpaces(sql, 0)..];
      IsSelect(sql) <==> |rest| >= 6 && Lower(rest[..6]) == "select"
  {
    hide IsSpace, LowerChar, SkipSpaces, Lower, TrimStart, TrimEnd, StartsWith;
    var rest := sql[SkipSpaces(sql, 0)..];
    TrimStartSkips(sql);
    SelectSurvivesTrim(Lower(rest));
    FrontInLower(rest);
  }

  lemma FrontInLower(s: string)
    ensures StartsWith(Lower(s), "select") <==> |s| >= 6 && Lower(s[..6]) == "select"
  {
    hide Lower, LowerChar;
    if |s| >= 6 {
      var a, b := Lower(s)[..6], Lower(s[..6]);
      assert forall k :: 0 <= k < 6 ==> a[k] == b[k];
      assert a == b;
    }
  }

  lemma SelectSurvivesTrim(s: string)
    ensures StartsWith(TrimEnd(s), "select") <==> StartsWith(s, "select")
  {
    hide TrimEnd;
    if StartsWith(s, "select") {
      assert forall k :: 0 <= k < 6 ==> !IsSpace("select"[k]);
      assert |TrimEnd(s)| >= 6 by {
        assert s[5] == 't';
      }
    }
  }

  /** Text before the first back quote is passed over. */
  lemma {:induction false} StripFenceSkips(front: string, tail: string, fence: string)
    requires fence != "" && fence[0] == '`' && '`' !in front
    ensures StripFence(front + tail, fence, false) == front + StripFence(tail, fence, false)
  {
    var all := front + tail;
    if front == "" {
      assert all == tail;
    } else {
      assert all[1..] == front[1..] + tail;
      assert |fence| <= |all| ==> all[..|fence|][0] == front[0];
      assert front == [front[0]] + front[1..];
      StripFenceSkips(front[1..], tail, fence);
    }
  }

  lemma {:induction false} NoFence(s: string, fence: string, ignoreCase: bool)
    requires fence != "" && fence[0] == '`' && '`' !in s
    ensures StripFence(s, fence, ignoreCase) == s
    decreases |s|
  {
    hide Lower;
    if s == "" {
    } else {
      if |fence| <= |s| {
        var front := s[..|fence|];
        assert front[0] == s[0] && Lower(front)[0] == LowerChar(s[0]);
      }
      NoFence(s[1..], fence, ignoreCase);
    }
  }

  lemma FencesGone(tail: string)
    requires tail == "\n```"
    ensures StripFence(tail, "```sql", false) == tail && StripFence(tail, "```", false) == "\n"
  {
    assert tail[1..] == "```";
    assert "```"[1..] == "``" && "``"[1..] == "`" && "`"[1..] == "";
    assert tail == ['\n'] + "```";
    assert StripFence("```", "```sql", false) == "```";
    assert "```"[3..] == "";
    assert StripFence("```", "```", false) == "";
  }

  lemma OpeningFence(body: string)
    ensures StripFence("```sql\n" + body, "```sql", false) == StripFence(body, "```sql", false)
  {
    var all := "```sql\n" + body;
    assert all[..6] == "```sql" && all[6..] == "\n" + body;
    assert all[6..][1..] == body;
  }

  lemma TrimDropsEnd(sql: string)
    requires sql != "" && IsTrimmed(sql)
    ensures Trim(sql + "\n") == sql
  {
    assert TrimStart(sql + "\n") == sql + "\n";
    assert (sql + "\n")[..|sql|] == sql;
    assert TrimEnd(sql) == sql;
  }

  /** The model may fence its SQL or not: the same SQL is taken from both answers. */
  lemma FenceMakesNoDifference(sql: string)
    requires sql != "" && IsTrimmed(sql) && '`' !in sql
    ensures Clean("```sql\n" + sql + "\n```") == Clean(sql) == WithSemicolon(sql)
  {
    hide StripFence, Trim, TrimStart, TrimEnd;
    var fenced := "```sql\n" + sql + "\n```";
    assert Trim(fenced) == fenced;
    assert fenced == "```sql\n" + (sql + "\n```");
    OpeningFence(sql + "\n```");
    StripFenceSkips(sql, "\n```", "```sql");
    StripFenceSkips(sql, "\n```", "```");
    FencesGone("\n```");
    TrimDropsEnd(sql);
    StripFenceSkips(sql, "", "```sql");
    StripFenceSkips(sql, "", "```");
    NothingToStrip("```sql");
    NothingToStrip("```");
    assert sql + "" == sql;
  }

  lemma NothingToStrip(fence: string)
    requires fence != ""
    ensures StripFence("", fence, false) == ""
  {}

  lemma {:induction false} FirstFilter(s: string, from: nat, k: nat)
    requires from <= k < |s| && FilterAt(s, k).Some? && forall j :: from <= j < k ==> FilterAt(s, j).None?
    ensures HintLiteral(s, from) == FilterAt(s, k)
    decreases k - from
  {
    hide FilterAt;
    if from == k {
    } else {
      FirstFilter(s, from + 1, k);
    }
  }

  lemma {:induction false} NoFilterIff(s: string, from: nat)
    ensures HintLiteral(s, from).None? <==> forall k :: from <= k < |s| ==> FilterAt(s, k).None?
    decreases |s| - from
  {
    hide FilterAt;
    if from >= |s| {
    } else {
      NoFilterIff(s, from + 1);
    }
  }

  /** A hint rules out some query if and only if it is neither blank nor "none" and holds a slug or id filter. */
  lemma HintEnforcedIff(hint: string)
    ensures (forall sql :: MeetsHint(Some(hint), sql)) <==> Required(Some(hint)).None?
    ensures var h := Trim(hint);
      Required(Some(hint)).None? <==> h == "" || Lower(h) == "none" || forall k :: 0 <= k < |h| ==> FilterAt(h, k).None?
  {
    hide Trim, Lower, FilterAt, HintLiteral;
    NoFilterIff(Trim(hint), 0);
    if Required(Some(hint)).Some? {
      EmptyContainsNothing("'" + Required(Some(hint)).value.literal + "'");
      assert !MeetsHint(Some(hint), "");
    }
  }

  lemma EmptyContainsNothing(p: string)
    requires p != ""
    ensures !Contains("", p)
  {}

  /** Of several filters in one hint only the first slug or id filter counts: it is required with exactly its
      literal, a query meets the hint if and only if it contains that literal in quotes, and what follows is
      not looked at. */
  lemma FirstFilterIsRequired(front: string, named: string, b1: string, b2: string, value: string, rest: string,
                              sql: string)
    requires Lower(named) in {"slug", "id"} && AllSpaces(b1) && AllSpaces(b2) && value != "" && '\'' !in value
    requires var hint := front + FilterText(named, b1, b2, value, rest);
      IsTrimmed(hint) && forall k :: 0 <= k < |front| ==> FilterAt(hint, k).None?
    ensures var hint := front + FilterText(named, b1, b2, value, rest);
      && Required(Some(hint)) == Some(HintMatch(Lower(named), value))
      && (MeetsHint(Some(hint), sql) <==> Contains(sql, "'" + value + "'"))
  {
    hide Contains, Trim, Lower, HintLiteral, FilterAt;
    var hint := front + FilterText(named, b1, b2, value, rest);
    assert hint[|front|..] == FilterText(named, b1, b2, value, rest);
    FilterRead(hint, |front|, named, b1, b2, value, rest);
    FirstFilter(hint, 0, |front|);
    QuoteIsNotNone(hint, |hint| - |rest| - 1);
  }

  lemma QuoteIsNotNone(hint: string, i: nat)
    requires i < |hint| && hint[i] == '\''
    ensures Lower(hint) != "none"
  {
    hide Lower;
    assert Lower(hint)[i] == '\'';
  }

  predicate AllSpaces(s: string) {
    forall i :: 0 <= i < |s| ==> IsSpace(s[i])
  }

  /** = 'value', with any blanks around the equals sign and any text behind. */
  function ValueText(b1: string, b2: string, value: string, rest: string): string {
    b1 + ("=" + (b2 + ("'" + (value + ("'" + rest)))))
  }

  /** .slug = 'value' and what follows. */
  function FilterText(named: string, b1: string, b2: string, value: string, rest: string): string {
    ("." + named) + ValueText(b1, b2, value, rest)
  }

  lemma FilterRead(s: string, at: nat, named: string, b1: string, b2: string, value: string, rest: string)
    requires at <= |s| && s[at..] == FilterText(named, b1, b2, value, rest)
    requires Lower(named) in {"slug", "id"} && AllSpaces(b1) && AllSpaces(b2) && value != "" && '\'' !in value
    ensures FilterAt(s, at) == Some(HintMatch(Lower(named), value))
  {
    hide Lower, QuotedAfterEquals;
    hide ValueText;
    var tail := ValueText(b1, b2, value, rest);
    CutAt(s, at, "." + named, tail);
    LowerStartsAt(s, at, "." + named);
    LowerOfDotted(named);
    if Lower(named) == "id" {
      StartsAtChar(Lower(s), at, ".id", 1);
      StartsAtChar(Lower(s), at, ".slug", 1);
    }
    assert s[at + 1 + |named|..] == s[at..][1 + |named|..] == tail;
    LiteralRead(s, at + 1 + |named|, b1, b2, value, rest);
  }

  lemma LowerOfDotted(named: string)
    ensures Lower("." + named) == "." + Lower(named)
    ensures Lower(named) == "slug" ==> Lower("." + named) == ".slug"
    ensures Lower(named) == "id" ==> Lower("." + named) == ".id"
  {
    assert ("." + named)[1..] == named;
  }

  lemma LowerStartsAt(s: string, at: nat, text: string)
    requires StartsAt(s, at, text)
    ensures StartsAt(Lower(s), at, Lower(text))
  {
    hide Lower;
    var cut, low := Lower(s)[at..at + |text|], Lower(text);
    forall i | 0 <= i < |cut| ensures cut[i] == low[i] {
      assert s[at..at + |text|][i] == s[at + i];
    }
    assert cut == low;
  }

  lemma CutAt(s: string, at: nat, word: string, rest: string)
    requires at <= |s| && s[at..] == word + rest
    ensures StartsAt(s, at, word)
  {
    assert s[at..at + |word|] == s[at..][..|word|];
  }

  lemma SkipBlanks(s: string, at: nat, blanks: string, rest: string)
    requires at <= |s| && s[at..] == blanks + rest && AllSpaces(blanks) && rest != "" && !IsSpace(rest[0])
    ensures SkipSpaces(s, at) == at + |blanks| && s[at + |blanks|..] == rest
  {
    hide SkipSpaces;
    assert forall i :: 0 <= i < |blanks| ==> s[at..][i] == blanks[i];
    assert s[at..][|blanks|] == rest[0];
    assert s[at + |blanks|..] == s[at..][|blanks|..];
    assert forall i :: at <= i < at + |blanks| ==> s[i] == blanks[i - at];
  }

  lemma TailAfter(s: string, at: nat, c: char, rest: string)
    requires at <= |s| && s[at..] == [c] + rest
    ensures at < |s| && s[at] == c && s[at + 1..] == rest
  {
    assert s[at] == s[at..][0];
    assert s[at + 1..] == s[at..][1..];
  }

  lemma LiteralRead(s: string, at: nat, b1: string, b2: string, value: string, rest: string)
    requires at <= |s| && s[at..] == ValueText(b1, b2, value, rest)
    requires AllSpaces(b1) && AllSpaces(b2) && value != "" && '\'' !in value
    ensures QuotedAfterEquals(s, at) == Some(value)
  {
    hide AllSpaces, SkipSpaces, IndexOfChar, QuotedAfterEquals, ValueText, IsSpace;
    var body := value + ("'" + rest);
    var quoted := "'" + body;
    var eq := at + |b1|;
    var open := eq + 1 + |b2|;
    ValueTextIs(b1, b2, value, rest);
    MarksAreNoSpace();
    SkipBlanks(s, at, b1, "=" + (b2 + quoted));
    TailAfter(s, eq, '=', b2 + quoted);
    SkipBlanks(s, eq + 1, b2, quoted);
    TailAfter(s, open, '\'', body);
    QuoteEnds(value, rest);
    BodyCut(s, open + 1, value, "'" + rest);
    QuotedIs(s, at, eq, open, value);
  }

  /** An equals sign and a closed, non-empty quotation, with white space between. */
  predicate QuotedAt(s: string, i: nat, eq: nat, open: nat, value: string) {
    && i <= eq < open && open + 1 + |value| < |s|
    && s[eq] == '=' && s[open] == '\'' && s[open + 1 + |value|] == '\''
    && (forall k :: i <= k < eq ==> IsSpace(s[k])) && (forall k :: eq < k < open ==> IsSpace(s[k]))
    && s[open + 1..open + 1 + |value|] == value && value != "" && '\'' !in value
  }

  /** After the column exactly that is read. */
  lemma QuotedAfterEqualsIff(s: string, i: nat, value: string)
    requires i <= |s|
    ensures QuotedAfterEquals(s, i) == Some(value) <==> exists eq: nat, open: nat :: QuotedAt(s, i, eq, open, value)
  {
    hide IsSpace, QuotedAt;
    if QuotedAfterEquals(s, i) == Some(value) { ReadIsQuoted(s, i, value); }
    if eq: nat, open: nat :| QuotedAt(s, i, eq, open, value) { QuotedIsRead(s, i, eq, open, value); }
  }

  lemma ReadIsQuoted(s: string, i: nat, value: string)
    requires i <= |s| && QuotedAfterEquals(s, i) == Some(value)
    ensures QuotedAt(s, i, SkipSpaces(s, i), SkipSpaces(s, SkipSpaces(s, i) + 1), value)
  {
    hide IsSpace, SkipSpaces, IndexOfChar;
    var open := SkipSpaces(s, SkipSpaces(s, i) + 1);
    var rest := s[open + 1..];
    var n := IndexOfChar(rest, '\'');
    assert value == rest[..n] && rest[n] == s[open + 1 + n];
    assert forall k :: 0 <= k < n ==> value[k] == rest[k];
  }

  lemma QuotedIsRead(s: string, i: nat, eq: nat, open: nat, value: string)
    requires QuotedAt(s, i, eq, open, value)
    ensures QuotedAfterEquals(s, i) == Some(value)
  {
    hide IsSpace, SkipSpaces, IndexOfChar;
    var rest := s[open + 1..];
    BlanksSkipped(s, i, eq);
    BlanksSkipped(s, eq + 1, open);
    assert rest[..|value|] == value && rest[|value|] == '\'';
    IndexOfCharAt(rest, '\'', |value|);
  }

  lemma ValueTextIs(b1: string, b2: string, value: string, rest: string)
    ensures ValueText(b1, b2, value, rest) == b1 + ("=" + (b2 + ("'" + (value + ("'" + rest)))))
  {}

  lemma MarksAreNoSpace()
    ensures !IsSpace('=') && !IsSpace('\'')
  {}

  lemma QuotedIs(s: string, at: nat, eq: nat, open: nat, value: string)
    requires at <= eq < open && open + 1 + |value| < |s| && value != ""
    requires SkipSpaces(s, at) == eq && s[eq] == '=' && SkipSpaces(s, eq + 1) == open && s[open] == '\''
    requires IndexOfChar(s[open + 1..], '\'') == |value| && s[open + 1..open + 1 + |value|] == value
    ensures QuotedAfterEquals(s, at) == Some(value)
  {
    hide SkipSpaces, IndexOfChar;
  }

  lemma BodyCut(s: string, at: nat, value: string, rest: string)
    requires at <= |s| && s[at..] == value + rest
    ensures at + |value| + |rest| == |s| && s[at..at + |value|] == value
  {
    assert s[at..at + |value|] == s[at..][..|value|];
  }

  lemma QuoteEnds(value: string, rest: string)
    requires '\'' !in value
    ensures IndexOfChar(value + ("'" + rest), '\'') == |value|
  {
    assert (value + ("'" + rest))[..|value|] == value;
    IndexOfCharAt(value + ("'" + rest), '\'', |value|);
  }

  /** Failures with the same PostgreSQL code have the same key, whatever their messages say: a model that runs
      into one code twice in a row is stopped. */
  lemma PgCodeIsKey(code: string, detail: string)
    requires |code| == 5 && forall i :: 0 <= i < 5 ==> IsCodeChar(code[i])
    ensures ErrorKey("PostgreSQL Error " + code + ": " + detail) == "pg_" + Upper(code)
  {
    hide Trim, Upper, FirstLineKey, PgCode, HasText;
    var error := "PostgreSQL Error " + code + ": " + detail;
    var front := "PostgreSQL Error " + code + ":";
    assert error == front + (" " + detail);
    TrimKeepsFront(front, " " + detail);
    PgCodeFound(Trim(error), code);
  }

  lemma TrimKeepsFront(front: string, tail: string)
    requires front != "" && IsTrimmed(front)
    ensures front <= Trim(front + tail)
  {
    hide TrimStart, TrimEnd, IsSpace;
    var all := front + tail;
    NothingToTrim(all);
    assert all[|front| - 1] == front[|front| - 1];
    assert |TrimEnd(all)| >= |front|;
    assert all[..|front|] == front;
  }

  lemma PgCodeFound(msg: string, code: string)
    requires |code| == 5 && forall i :: 0 <= i < 5 ==> IsCodeChar(code[i])
    requires "PostgreSQL Error " + code + ":" <= msg
    ensures PgCode(msg, 0) == Some(code)
  {
    hide Lower, IsCodeChar, PgCodeAt;
    var front := "PostgreSQL Error " + code + ":";
    var low := Lower(msg);
    assert forall i :: 0 <= i < |front| ==> msg[i] == front[i];
    assert low[0..16] == "postgresql error" by {
      assert forall i :: 0 <= i < 16 ==> low[i] == LowerChar("PostgreSQL Error"[i]);
    }
    assert msg[16] == ' ' && msg[22] == ':' && msg[17..22] == code;
    PgCodeCut(msg, code);
  }

  /** Blanks, five code characters, blanks, and a colon. */
  predicate CodeAt(s: string, i: nat, start: nat, colon: nat, code: string) {
    && i < start && start + 5 <= colon < |s| && s[colon] == ':' && s[start..start + 5] == code
    && (forall k :: i <= k < start ==> IsSpace(s[k])) && (forall k :: start + 5 <= k < colon ==> IsSpace(s[k]))
    && forall k :: start <= k < start + 5 ==> IsCodeChar(s[k])
  }

  lemma PgCodeAtIff(s: string, i: nat, code: string)
    requires i <= |s|
    ensures PgCodeAt(s, i) == Some(code) <==> exists start: nat, colon: nat :: CodeAt(s, i, start, colon, code)
  {
    hide IsSpace, IsCodeChar;
    if PgCodeAt(s, i) == Some(code) {
      var start := SkipSpaces(s, i);
      assert CodeAt(s, i, start, SkipSpaces(s, start + 5), code);
    }
    if start: nat, colon: nat :| CodeAt(s, i, start, colon, code) {
      BlanksSkipped(s, i, start);
      BlanksSkipped(s, start + 5, colon);
    }
  }

  function PgCodeHere(s: string, i: nat): Option<string> {
    if i + 16 <= |s| && StartsAt(Lower(s), i, "postgresql error") then PgCodeAt(s, i + 16) else None
  }

  /** The leftmost code is taken. */
  lemma {:induction false} FirstPgCode(s: string, from: nat, i: nat)
    requires from <= i && PgCodeHere(s, i).Some? && forall j :: from <= j < i ==> PgCodeHere(s, j).None?
    ensures PgCode(s, from) == PgCodeHere(s, i)
    decreases i - from
  {
    hide PgCodeAt, StartsAt, Lower;
    if i == from {
    } else {
      assert PgCodeHere(s, from).None?;
      FirstPgCode(s, from + 1, i);
    }
  }

  lemma {:induction false} NoPgCodeIff(s: string, from: nat)
    ensures PgCode(s, from).None? <==> forall i :: from <= i ==> PgCodeHere(s, i).None?
    decreases |s| - from
  {
    hide PgCodeAt, StartsAt, Lower;
    if from + 16 > |s| {
    } else {
      NoPgCodeIff(s, from + 1);
      assert PgCode(s, from).None? <==> PgCodeHere(s, from).None? && PgCode(s, from + 1).None?;
    }
  }

  /** Capitals of the same letters. */
  lemma {:induction false} UpperIsUpper(s: string)
    ensures |Upper(s)| == |s|
    ensures forall i :: 0 <= i < |s| ==> LowerChar(Upper(s)[i]) == LowerChar(s[i]) && !('a' <= Upper(s)[i] <= 'z')
  {
    hide LowerChar;
    if s == "" {
    } else {
      UpperIsUpper(s[1..]);
      CapitalOfLetter(s[0]);
      assert forall i :: 0 < i < |s| ==> Upper(s)[i] == Upper(s[1..])[i - 1] && s[i] == s[1..][i - 1];
    }
  }

  lemma CapitalOfLetter(c: char)
    ensures LowerChar(UpperChar(c)) == LowerChar(c) && !('a' <= UpperChar(c) <= 'z')
  {}

  /** The code characters are the digits and the letters. */
  lemma CodeCharIff(c: char)
    ensures IsCodeChar(c) <==> IsDigit(c) || ('a' <= LowerChar(c) <= 'z')
  {}

  lemma PgCodeCut(msg: string, code: string)
    requires |code| == 5 && forall i :: 0 <= i < 5 ==> IsCodeChar(code[i])
    requires |msg| > 22 && msg[16] == ' ' && msg[22] == ':' && msg[17..22] == code
    ensures PgCodeAt(msg, 16) == Some(code)
  {
    assert forall i :: 17 <= i < 22 ==> msg[i] == msg[17..22][i - 17];
    assert SkipSpaces(msg, 17) == 17;
    assert SkipSpaces(msg, 16) == 17;
    assert SkipSpaces(msg, 22) == 22;
  }

  /** The text between back quotes that starts at open, with white space between it and i. */
  predicate QuotesAt(s: string, i: nat, open: nat, value: string) {
    && i <= open && open + 1 + |value| < |s| && (forall k :: i <= k < open ==> IsSpace(s[k]))
    && s[open] == '`' && s[open + 1..open + 1 + |value|] == value && s[open + 1 + |value|] == '`'
    && value != "" && '`' !in value
  }

  lemma TickedAtIff(s: string, i: nat, value: string)
    requires i <= |s|
    ensures TickedAt(s, i) == Some(value) <==> exists open: nat :: QuotesAt(s, i, open, value)
  {
    hide IsSpace, QuotesAt;
    if TickedAt(s, i) == Some(value) { TickedIsQuoted(s, i, value); }
    if open: nat :| QuotesAt(s, i, open, value) { QuotedIsTicked(s, i, open, value); }
  }

  lemma TickedIsQuoted(s: string, i: nat, value: string)
    requires i <= |s| && TickedAt(s, i) == Some(value)
    ensures QuotesAt(s, i, SkipSpaces(s, i), value)
  {
    hide IsSpace, SkipSpaces, IndexOfChar;
    var open := SkipSpaces(s, i);
    var rest := s[open + 1..];
    var n := IndexOfChar(rest, '`');
    assert value == rest[..n] && rest[n] == s[open + 1 + n];
    assert forall k :: 0 <= k < n ==> value[k] == rest[k];
  }

  lemma QuotedIsTicked(s: string, i: nat, open: nat, value: string)
    requires QuotesAt(s, i, open, value)
    ensures TickedAt(s, i) == Some(value)
  {
    hide IsSpace, SkipSpaces, IndexOfChar;
    var rest := s[open + 1..];
    BlanksSkipped(s, i, open);
    assert rest[..|value|] == value && rest[|value|] == '`';
    IndexOfCharAt(rest, '`', |value|);
  }

  lemma {:induction false} BlanksSkipped(s: string, i: nat, end: nat)
    requires i <= end < |s| && (forall k :: i <= k < end ==> IsSpace(s[k]))
    requires s[end] in {'`', ':', '=', '\''} || IsCodeChar(s[end])
    ensures SkipSpaces(s, i) == end
    decreases end - i
  {
    if i == end {
      hide SkipSpaces;
      assert !IsSpace(s[end]);
      SkipsNothing(s, i);
    } else {
      hide IsSpace;
      BlanksSkipped(s, i + 1, end);
    }
  }

  lemma SkipsNothing(s: string, i: nat)
    requires i < |s| && !IsSpace(s[i])
    ensures SkipSpaces(s, i) == i
  {}

  /** The leftmost quotation after the tag is taken. */
  lemma {:induction false} FirstTicked(s: string, tag: string, from: nat, i: nat)
    requires from <= i && TickedHere(s, tag, i).Some? && forall j :: from <= j < i ==> TickedHere(s, tag, j).None?
    ensures Ticked(s, tag, from) == TickedHere(s, tag, i)
    decreases i - from
  {
    hide TickedAt, StartsAt;
    if i == from {
    } else {
      assert TickedHere(s, tag, from).None?;
      FirstTicked(s, tag, from + 1, i);
    }
  }

  lemma {:induction false} NothingTickedIff(s: string, tag: string, from: nat)
    ensures Ticked(s, tag, from).None? <==> forall i :: from <= i ==> TickedHere(s, tag, i).None?
    decreases |s| - from
  {
    hide TickedAt, StartsAt;
    if from + |tag| > |s| {
    } else {
      NothingTickedIff(s, tag, from + 1);
      assert Ticked(s, tag, from).None? <==> TickedHere(s, tag, from).None? && Ticked(s, tag, from + 1).None?;
    }
  }

  function TickedHere(s: string, tag: string, i: nat): Option<string> {
    if i + |tag| <= |s| && StartsAt(s, i, tag) then TickedAt(s, i + |tag|) else None
  }

  function TickedText(tag: string, value: string): string {
    tag + " `" + value + "`"
  }

  lemma {:induction false} TickedFound(s: string, tag: string, from: nat, at: nat, value: string)
    requires from <= at <= |s| && TickedText(tag, value) <= s[at..] && value != "" && '`' !in value
    requires forall k :: from <= k < at ==> !StartsAt(s, k, tag)
    ensures Ticked(s, tag, from) == Some(value)
    decreases at - from
  {
    hide TickedAt, StartsAt;
    if from < at {
      TickedFound(s, tag, from + 1, at, value);
    } else {
      TagFound(s, tag, at, value);
      TickRead(s, at + |tag|, value);
    }
  }

  lemma TagFound(s: string, tag: string, at: nat, value: string)
    requires at <= |s| && TickedText(tag, value) <= s[at..]
    ensures StartsAt(s, at, tag) && " `" + value + "`" <= s[at + |tag|..]
  {
    var text := tag + " `" + value + "`";
    assert text == tag + (" `" + value + "`");
    assert s[at..][..|tag|] == s[at..at + |tag|] == tag;
    assert s[at + |tag|..] == s[at..][|tag|..];
    assert s[at..][..|text|] == text;
    assert s[at..][|tag|..][..|text| - |tag|] == text[|tag|..];
  }

  lemma TickRead(s: string, i: nat, value: string)
    requires i <= |s| && " `" + value + "`" <= s[i..] && value != "" && '`' !in value
    ensures TickedAt(s, i) == Some(value)
  {
    var text := " `" + value + "`";
    assert s[i] == s[i..][0] == ' ' && s[i + 1] == s[i..][1] == '`';
    assert SkipSpaces(s, i + 1) == i + 1;
    assert SkipSpaces(s, i) == i + 1;
    var rest := s[i + 2..];
    assert rest == s[i..][2..];
    assert rest[..|value|] == text[2..][..|value|] == value;
    assert rest[|value|] == text[|text| - 1] == '`';
    IndexOfCharAt(rest, '`', |value|);
    assert s[i + 2..i + 2 + |value|] == rest[..|value|];
  }

  /** "... Code: `42P01`. Message: `relation does not exist` ..." */
  function PrismaMessage(before: string, code: string, detail: string, after: string): string {
    before + TickedText("Code:", code) + ". " + TickedText("Message:", detail) + after
  }

  lemma PartsOfFive(a: string, b: string, c: string, d: string, e: string)
    ensures var s := a + b + c + d + e; b <= s[|a|..] && d <= s[|a| + |b| + |c|..]
  {
    var s := a + b + c + d + e;
    assert s[|a|..] == b + (c + d + e);
    assert s[|a| + |b| + |c|..] == d + e;
  }

  /** A Prisma error, which names its code and then its message in back quotes, is shortened to the two, and its
      key is the code. */
  lemma PrismaErrorIsShortened(before: string, code: string, detail: string, after: string)
    requires |code| == 5 && (forall i :: 0 <= i < 5 ==> IsCodeChar(code[i])) && detail != "" && '`' !in detail
    requires var message := PrismaMessage(before, code, detail, after);
      && (forall k :: 0 <= k < |before| ==> !StartsAt(message, k, "Code:"))
      && (forall k :: 0 <= k < |before| + 15 ==> !StartsAt(message, k, "Message:"))
    ensures var message := PrismaMessage(before, code, detail, after);
      && Describe(message) == "PostgreSQL Error " + code + ": " + detail
      && ErrorKey(Describe(message)) == "pg_" + Upper(code)
  {
    hide Ticked, ErrorKey, Upper, StartsAt, IsCodeChar;
    var message := PrismaMessage(before, code, detail, after);
    NoTickInCode(code);
    assert |TickedText("Code:", code)| == 13;
    PartsOfFive(before, TickedText("Code:", code), ". ", TickedText("Message:", detail), after);
    hide TickedText;
    TickedFound(message, "Code:", 0, |before|, code);
    TickedFound(message, "Message:", 0, |before| + 15, detail);
    PgCodeIsKey(code, detail);
  }

  /** An error that quotes nothing is taken as it is. */
  lemma OtherErrorsAreKept(message: string)
    requires '`' !in message
    ensures Describe(message) == message
  {
    hide Ticked;
    NothingTicked(message, "Code:", 0);
  }

  lemma {:induction false} NothingTicked(s: string, tag: string, from: nat)
    requires '`' !in s
    ensures Ticked(s, tag, from).None?
    decreases |s| - from
  {
    hide StartsAt;
    if from + |tag| > |s| {
    } else {
      NothingTicked(s, tag, from + 1);
    }
  }

  /** Without a PostgreSQL code the first known phrase in the error names it, in any case. */
  lemma PhraseNamesError(error: string)
    requires var msg := Trim(error); msg != "" && PgCode(msg, 0).None?
    ensures var low := Lower(Trim(error)); var key := ErrorKey(error);
      if Contains(low, "filters_hint enforcement failed") then key == "filters_hint_enforcement"
      else if Contains(low, "sql safety validation failed") then key == "sql_safety_validation"
      else if Contains(low, "only select queries are allowed") then key == "non_select_blocked"
      else if Contains(low, "sql unchanged from previous attempt") then key == "sql_unchanged"
      else key == FirstLineKey(Trim(error))
  {
    hide Trim, PgCode, Contains, FirstLineKey, Lower;
  }

  lemma {:induction false} NoColonNoCode(s: string, from: nat)
    requires ':' !in s
    ensures PgCode(s, from).None?
    decreases |s| - from
  {
    hide Lower, StartsAt, IsCodeChar;
    if from + 16 > |s| {
    } else {
      NoColonNoCode(s, from + 1);
    }
  }

  /** A word in an error is seen in any case. */
  lemma TextIsSeen(s: string, p: string, at: nat, lower: string)
    requires at + |p| <= |s| && s[at..at + |p|] == p && lower == Lower(p)
    ensures HasText(s, lower)
  {
    hide Lower;
    var low := Lower(s);
    assert forall k :: 0 <= k < |p| ==> s[at + k] == p[k];
    assert low[at..at + |p|] == lower;
    ContainsAt(low, lower, at);
  }

  lemma NoTickInCode(code: string)
    requires forall i :: 0 <= i < |code| ==> IsCodeChar(code[i])
    ensures '`' !in code
  {}

  lemma {:induction false} PgCodeIsFive(s: string, from: nat)
    ensures PgCode(s, from).Some? ==> |PgCode(s, from).value| == 5
    decreases |s| - from
  {
    hide Lower, IsCodeChar;
    if from + 16 > |s| {
    } else {
      PgCodeIsFive(s, from + 1);
    }
  }

  lemma {:induction false} UpperKeepsLength(s: string)
    ensures |Upper(s)| == |s|
  {
    if s == "" {
    } else {
      UpperKeepsLength(s[1..]);
    }
  }

  /** A key is never longer than 120 characters; one that is no name is the start of the first line. */
  lemma KeyIsShort(error: string)
    ensures |ErrorKey(error)| <= 120
    ensures var msg := Trim(error); var line := TrimEnd(msg[..IndexOfChar(msg, '\n')]);
      msg != "" && NamedKey(msg) == "" ==>
        ErrorKey(error) <= line && '\n' !in line && (ErrorKey(error) == line || |ErrorKey(error)| == 120)
  {
    hide Trim, HasText, PgCode;
    var msg := Trim(error);
    PgCodeIsFive(msg, 0);
    if PgCode(msg, 0).Some? { UpperKeepsLength(PgCode(msg, 0).value); }
    if msg != "" && NamedKey(msg) == "" {
      var line := msg[..IndexOfChar(msg, '\n')];
      assert '\n' !in line;
      assert ErrorKey(error) <= TrimEnd(line) <= line <= msg;
    }
  }

  /** The guard's pattern is a UUID of version 1 to 5 with one of the usual variants. */
  lemma UuidPatternIff(s: string, i: nat)
    ensures IsUuidAt(s, i)
      <==> && i + 36 <= |s| && IsUuid(s[i..i + 36])
           && s[i + 14] in {'1', '2', '3', '4', '5'} && s[i + 19] in {'8', '9', 'a', 'b', 'A', 'B'}
  {
    hide IsHex;
    if i + 36 <= |s| {
      var id := s[i..i + 36];
      assert forall k :: 0 <= k < 36 ==> id[k] == s[i + k];
      assert IsUuid(id) <==> forall k :: i <= k < i + 36 ==>
        if k - i in {8, 13, 18, 23} then s[k] == '-' else IsHex(s[k]) by {
        assert forall k :: i <= k < i + 36 ==> s[k] == id[k - i];
      }
    }
  }

  /** The UUIDs found are UUIDs of the text, and the list is empty if and only if there are none. */
  lemma {:induction false} UuidsAreFound(s: string, from: nat)
    ensures forall k :: 0 <= k < |Uuids(s, from)| ==> IsUuidAt(Uuids(s, from)[k], 0) && Contains(s, Uuids(s, from)[k])
    ensures Uuids(s, from) == [] <==> forall i :: from <= i ==> !IsUuidAt(s, i)
    decreases |s| - from
  {
    hide IsUuidAt, Contains;
    if from >= |s| {
      forall i | from <= i ensures !IsUuidAt(s, i) { UuidFits(s, i); }
    } else if IsUuidAt(s, from) {
      UuidFits(s, from);
      UuidsAreFound(s, from + 36);
      UuidCutOut(s, from);
      ContainsAt(s, s[from..from + 36], from);
    } else {
      UuidsAreFound(s, from + 1);
    }
  }

  /** No UUID of the text is missed: one that is not found itself overlaps an earlier one that is. */
  lemma {:induction false} UuidsCover(s: string, from: nat, i: nat) returns (p: nat)
    requires from <= i && IsUuidAt(s, i)
    ensures from <= p <= i < p + 36 && IsUuidAt(s, p) && s[p..p + 36] in Uuids(s, from)
    decreases |s| - from
  {
    hide IsUuidAt;
    UuidFits(s, i);
    UuidFits(s, from);
    if !IsUuidAt(s, from) {
      p := UuidsCover(s, from + 1, i);
    } else if i < from + 36 {
      p := from;
    } else {
      p := UuidsCover(s, from + 36, i);
    }
  }

  /** Where the placeholder stands, in any case, the filled query names the user. */
  lemma {:induction false} FilledNamesUser(s: string, userId: string, i: nat)
    requires i + 7 <= |s| && Lower(s[i..i + 7]) == "user_id"
    ensures Contains(FillUserId(s, userId), userId)
    decreases |s|
  {
    hide Contains, Lower;
    if Lower(s[..7]) == "user_id" {
      var filled := FillUserId(s, userId);
      assert filled[0..|userId|] == userId;
      ContainsAt(filled, userId, 0);
    } else {
      assert i != 0 by { assert s[0..7] == s[..7]; }
      assert s[1..][i - 1..i + 6] == s[i..i + 7];
      FilledNamesUser(s[1..], userId, i - 1);
      ContainsBehind(s[0], FillUserId(s[1..], userId), userId);
    }
  }

  /** A placeholder, in any case, stands here. */
  predicate PlaceholderAt(s: string, i: nat) {
    i + 7 <= |s| && Lower(s[i..i + 7]) == "user_id"
  }

  lemma FillStep(s: string, userId: string)
    requires s != ""
    ensures FillUserId(s, userId)
      == if PlaceholderAt(s, 0) then userId + FillUserId(s[7..], userId) else [s[0]] + FillUserId(s[1..], userId)
  {
    hide Lower;
    assert |s| >= 7 ==> s[0..7] == s[..7];
  }

  lemma PlaceholderMoves(s: string, i: nat)
    requires s != ""
    ensures PlaceholderAt(s[1..], i) <==> PlaceholderAt(s, i + 1)
  {
    hide Lower;
    if i + 8 <= |s| { assert s[1..][i..i + 7] == s[i + 1..i + 8]; }
  }

  /** A text without a placeholder is left as it is. */
  lemma {:induction false} FillLeavesRest(s: string, userId: string)
    requires forall i: nat :: !PlaceholderAt(s, i)
    ensures FillUserId(s, userId) == s
    decreases |s|
  {
    hide PlaceholderAt;
    if s == "" {
    } else {
      FillStep(s, userId);
      forall i: nat ensures !PlaceholderAt(s[1..], i) { PlaceholderMoves(s, i); }
      FillLeavesRest(s[1..], userId);
      assert s == [s[0]] + s[1..];
    }
  }

  /** The first placeholder gives way to the id, what is before it stays, and the rest is filled in the same way. */
  lemma {:induction false} FillReplacesFirst(s: string, userId: string, n: nat)
    requires n + 7 <= |s| && PlaceholderAt(s, n) && forall i: nat :: i < n ==> !PlaceholderAt(s, i)
    ensures FillUserId(s, userId) == s[..n] + userId + FillUserId(s[n + 7..], userId)
    decreases |s|
  {
    hide PlaceholderAt, FillUserId;
    FillStep(s, userId);
    if n == 0 {
      assert s[..0] + userId == userId;
    } else {
      forall i: nat ensures PlaceholderAt(s[1..], i) <==> PlaceholderAt(s, i + 1) { PlaceholderMoves(s, i); }
      FillReplacesFirst(s[1..], userId, n - 1);
      assert s[1..][n + 6..] == s[n + 7..];
      assert s[..n] + userId == [s[0]] + (s[1..][..n - 1] + userId);
    }
  }

  /** The id stands at p, up to case. */
  predicate IdStandsAt(s: string, userId: string, p: int) {
    0 <= p && p + |userId| <= |s| && Lower(s[p..p + |userId|]) == Lower(userId)
  }

  /** The id at p shares a character with the 36 characters at i. */
  predicate OverlapsId(s: string, i: nat, userId: string, p: int) {
    IdStandsAt(s, userId, p) && p < i + 36 && i < p + |userId|
  }

  /** The id stands somewhere in the text, up to case. */
  ghost predicate NamesUser(s: string, userId: string) {
    exists p :: IdStandsAt(s, userId, p)
  }

  /** The text names the user, and no UUID stands in it apart from the user's id. */
  ghost predicate ScopedTo(s: string, userId: string) {
    && NamesUser(s, userId)
    && forall i :: IsUuidAt(s, i) ==> exists p :: OverlapsId(s, i, userId, p)
  }

  /** The first n characters of a filled text are copied, or an inserted id begins among them. */
  lemma {:induction false} CopiedOrFilled(s: string, userId: string, n: nat) returns (p: nat)
    requires n <= |FillUserId(s, userId)|
    ensures var filled := FillUserId(s, userId);
      || (n <= |s| && filled[..n] == s[..n])
      || (p < n && p + |userId| <= |filled| && filled[p..p + |userId|] == userId)
    decreases |s|
  {
    hide Lower;
    p := 0;
    var filled := FillUserId(s, userId);
    if n == 0 || s == "" {
    } else if |s| >= 7 && Lower(s[..7]) == "user_id" {
      assert filled[0..|userId|] == userId;
    } else {
      var rest := FillUserId(s[1..], userId);
      var q := CopiedOrFilled(s[1..], userId, n - 1);
      assert filled[1..] == rest;
      if n - 1 <= |s| - 1 && rest[..n - 1] == s[1..][..n - 1] {
        assert filled[..n] == [s[0]] + rest[..n - 1] && s[..n] == [s[0]] + s[1..][..n - 1];
      } else {
        p := q + 1;
        assert filled[p..p + |userId|] == rest[q..q + |userId|];
      }
    }
  }

  /** Filling a text makes no UUID that does not overlap an inserted id. */
  lemma {:induction false} FilledUuidOverlaps(s: string, userId: string, i: nat) returns (p: nat)
    requires userId != "" && IsUuidAt(FillUserId(s, userId), i) && forall j :: !IsUuidAt(s, j)
    ensures OverlapsId(FillUserId(s, userId), i, userId, p)
    decreases |s|
  {
    hide Lower, IsUuidAt, OverlapsId;
    var filled := FillUserId(s, userId);
    UuidFits(filled, i);
    p := 0;
    if s == "" {
    } else if |s| >= 7 && Lower(s[..7]) == "user_id" {
      var rest := FillUserId(s[7..], userId);
      assert filled == userId + rest && filled[0..|userId|] == userId;
      if i < |userId| {
        IdOverlaps(filled, i, userId, 0);
      } else {
        NoUuidInTail(s, 7);
        UuidMoves(filled, rest, i, |userId|);
        var q := FilledUuidOverlaps(s[7..], userId, i - |userId|);
        p := q + |userId|;
        IdMoves(filled, rest, i, |userId|, userId, q);
      }
    } else {
      var rest := FillUserId(s[1..], userId);
      assert filled == [s[0]] + rest;
      if i == 0 {
        p := CopiedOrFilled(s, userId, 36);
        if 36 <= |s| && filled[..36] == s[..36] {
          SameUuid(filled, s);
        } else {
          IdOverlaps(filled, 0, userId, p);
        }
      } else {
        NoUuidInTail(s, 1);
        UuidMoves(filled, rest, i, 1);
        var q := FilledUuidOverlaps(s[1..], userId, i - 1);
        p := q + 1;
        IdMoves(filled, rest, i, 1, userId, q);
      }
    }
  }

  lemma IdOverlaps(s: string, i: nat, userId: string, p: nat)
    requires p + |userId| <= |s| && s[p..p + |userId|] == userId && p < i + 36 && i < p + |userId|
    ensures OverlapsId(s, i, userId, p)
  {}

  lemma IdMoves(s: string, tail: string, i: nat, n: nat, userId: string, q: nat)
    requires n <= i && n <= |s| && s[n..] == tail && OverlapsId(tail, i - n, userId, q)
    ensures OverlapsId(s, i, userId, q + n)
  {
    hide Lower;
    var moved, stood := s[q + n..q + n + |userId|], tail[q..q + |userId|];
    assert |moved| == |stood| && forall k :: 0 <= k < |stood| ==> moved[k] == tail[q + k] == stood[k];
  }

  lemma UuidMoves(s: string, tail: string, i: nat, n: nat)
    requires n <= i && n <= |s| && s[n..] == tail
    ensures IsUuidAt(s, i) <==> IsUuidAt(tail, i - n)
  {
    if i + 36 <= |s| {
      assert forall k :: i <= k < i + 36 ==> s[k] == tail[k - n];
      assert forall k :: i - n <= k < i - n + 36 ==> tail[k] == s[k + n];
    }
  }

  lemma NoUuidInTail(s: string, n: nat)
    requires n <= |s| && forall j :: !IsUuidAt(s, j)
    ensures forall j :: !IsUuidAt(s[n..], j)
  {
    hide IsUuidAt;
    forall j: nat ensures !IsUuidAt(s[n..], j) {
      UuidMoves(s, s[n..], j + n, n);
    }
  }

  lemma SameUuid(a: string, b: string)
    requires 36 <= |a| && 36 <= |b| && a[..36] == b[..36]
    ensures IsUuidAt(a, 0) <==> IsUuidAt(b, 0)
  {
    assert forall k :: 0 <= k < 36 ==> a[k] == a[..36][k] == b[..36][k] == b[k];
  }

  /** It can make one that does: the id in front of the rest of another UUID. */
  lemma FilledCanFormUuid(userId: string)
    requires |userId| == 36 && IsUuidAt(userId, 0)
    ensures var rest := "-1111-4222-8333-444444444444";
      IsUuidAt(FillUserId("USER_ID" + rest, userId), 28) && Uuids("USER_ID" + rest, 0) == []
  {
    hide FillUserId, Uuids, IsUuidAt;
    var rest := "-1111-4222-8333-444444444444";
    PlaceholderFilled(rest, userId);
    assert forall i :: 0 <= i < |rest| ==> rest[i] == '-' || IsDigit(rest[i]);
    RestFilled(rest, userId);
    UuidAtSeam(userId, rest);
    NoUuidYet("USER_ID" + rest);
    UuidsAreFound("USER_ID" + rest, 0);
  }

  lemma UuidAtSeam(userId: string, rest: string)
    requires |userId| == 36 && IsUuidAt(userId, 0) && rest == "-1111-4222-8333-444444444444"
    ensures IsUuidAt(userId + rest, 28)
  {
    var all := userId + rest;
    RestOfUuid(rest);
    assert forall k :: 28 <= k < 36 ==> all[k] == userId[k] && IsHex(userId[k]);
    hide IsHex;
    assert forall k :: 36 <= k < 64 ==> all[k] == rest[k - 36];
  }

  lemma RestOfUuid(rest: string)
    requires rest == "-1111-4222-8333-444444444444"
    ensures |rest| == 28 && rest[6] == '4' && rest[11] == '8'
    ensures forall k :: 0 <= k < 28 ==> if k in {0, 5, 10, 15} then rest[k] == '-' else IsHex(rest[k])
  {}

  lemma NoUuidYet(s: string)
    requires |s| < 36
    ensures forall i :: 0 <= i ==> !IsUuidAt(s, i)
  {}

  lemma PlaceholderFilled(rest: string, userId: string)
    ensures FillUserId("USER_ID" + rest, userId) == userId + FillUserId(rest, userId)
  {
    assert ("USER_ID" + rest)[..7] == "USER_ID" && ("USER_ID" + rest)[7..] == rest;
    assert Lower("USER_ID") == "user_id" by {
      assert forall k :: 0 <= k < 7 ==> Lower("USER_ID")[k] == LowerChar("USER_ID"[k]);
    }
  }

  lemma PlaceholderAlone(userId: string)
    ensures FillUserId("USER_ID", userId) == userId
  {
    hide Lower;
    PlaceholderFilled("", userId);
    assert "USER_ID" + "" == "USER_ID";
  }

  lemma {:induction false} RestFilled(s: string, userId: string)
    requires forall i :: 0 <= i < |s| ==> s[i] == '-' || IsDigit(s[i])
    ensures FillUserId(s, userId) == s
    decreases |s|
  {
    if s == "" {
    } else {
      if |s| >= 7 { assert Lower(s[..7])[0] == LowerChar(s[0]); }
      RestFilled(s[1..], userId);
      assert s == [s[0]] + s[1..];
    }
  }

  lemma {:induction false} FrontIsCopied(front: string, tail: string, userId: string)
    requires 'u' !in front && 'U' !in front
    ensures FillUserId(front + tail, userId) == front + FillUserId(tail, userId)
  {
    hide Lower;
    var all := front + tail;
    if front == "" {
      assert all == tail;
    } else {
      if |all| >= 7 {
        var word := all[..7];
        assert word[0] == front[0] && Lower(word)[0] == LowerChar(front[0]);
      }
      assert all[1..] == front[1..] + tail;
      FrontIsCopied(front[1..], tail, userId);
    }
  }

  lemma ContainsBehind(c: char, s: string, p: string)
    requires Contains(s, p)
    ensures Contains([c] + s, p)
  {
    var i := Find(s, p, 0).value;
    assert ([c] + s)[i + 1..i + 1 + |p|] == s[i..i + |p|];
    ContainsAt([c] + s, p, i + 1);
  }

  lemma UuidFits(s: string, i: nat)
    ensures IsUuidAt(s, i) ==> i + 36 <= |s|
  {}

  lemma UuidCutOut(s: string, i: nat)
    requires IsUuidAt(s, i)
    ensures IsUuidAt(s[i..i + 36], 0)
  {
    var t := s[i..i + 36];
    assert forall k :: 0 <= k < 36 ==> t[k] == s[i + k];
  }
}
