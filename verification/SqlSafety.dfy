/** How the SQL safety check rewrites a statement it accepts.

    Line comments are taken out first, then block comments; a limit the statement ends with is cut off, and
    the enforced one is put there.  Whether a statement is accepted, and whether it is rewritten at all, stays
    open.

    Proved here: the limit changes nothing but the end of a statement, so it keeps the user ids and UUIDs in
    it; stripping comments does not. */
module SqlSafety {
  import opened Text
  import opened SqlText

  // ------------------------------------------------------------------------------- the rewriting

  /** replace(/--[^\n]*\/g, ''). */
  function StripLineComments(s: string): string
    decreases |s|
  {
    if s == "" then ""
    else if StartsAt(s, 0, "--") then StripLineComments(s[2 + IndexOfChar(s[2..], '\n')..])
    else [s[0]] + StripLineComments(s[1..])
  }

  /** The end of the block comment at the start of the text, if there is one. */
  function BlockEnd(s: string): (end: Option<nat>)
    ensures end.Some? ==> 4 <= end.value <= |s|
  {
    if !StartsAt(s, 0, "/*") then None
    else
      var close := Find(s, "*/", 2);
      if close.None? then None else Some(close.value + 2)
  }

  /** The replacement of every shortest text from an opening to a closing mark by nothing. */
  function StripBlockComments(s: string): string
    decreases |s|
  {
    if s == "" then ""
    else if BlockEnd(s).Some? then StripBlockComments(s[BlockEnd(s).value..])
    else [s[0]] + StripBlockComments(s[1..])
  }

  function StripComments(sql: string): (r: string)
    ensures IsTrimmed(r)
  {
    Trim(StripBlockComments(StripLineComments(sql)))
  }

  function SkipDigits(s: string, i: nat): (r: nat)
    requires i <= |s|
    ensures i <= r <= |s|
    ensures forall k :: i <= k < r ==> IsDigit(s[k])
    decreases |s| - i
  {
    if i < |s| && IsDigit(s[i]) then SkipDigits(s, i + 1) else i
  }

  /** The rest of the text from i on is /\s+LIMIT\s+\d+(\s*;)?$/i. */
  predicate LimitAt(s: string, i: nat)
    requires i <= |s|
  {
    var word := SkipSpaces(s, i);
    i < word && StartsAt(Lower(s), word, "limit") && NumberAt(s, word + 5)
  }

  predicate NumberAt(s: string, i: nat)
    requires i <= |s|
  {
    var number := SkipSpaces(s, i);
    var end := SkipDigits(s, number);
    && i < number < end
    && (end == |s| || (SkipSpaces(s, end) == |s| - 1 && s[|s| - 1] == ';'))
  }

  /** The text up to the leftmost such limit. */
  function WithoutLimit(s: string, from: nat): (r: string)
    requires from <= |s|
    decreases |s| - from
  {
    if from == |s| then s
    else if LimitAt(s, from) then s[..from]
    else WithoutLimit(s, from + 1)
  }

  function WithoutSemicolon(s: string): string {
    if EndsWith(s, ";") then Trim(s[..|s| - 1]) else s
  }

  function EnforceLimit(sql: string): string {
    var rest := Trim(WithoutLimit(Trim(sql), 0));
    WithoutSemicolon(rest) + " LIMIT 50" + if EndsWith(rest, ";") then ";" else ""
  }

  // ------------------------------------------------------------------- only the end is rewritten

  /** A character no identifier holds. */
  predicate IsStop(c: char) {
    IsSpace(c) || c == ';'
  }

  /** What may be cut off or put on at the end: it begins with a stop and has no hyphen. */
  predicate IsTail(tail: string) {
    (tail != "" ==> IsStop(tail[0])) && '-' !in tail
  }

  /** An id no part of a tail can be taken for; every UUID is one. */
  predicate IsPlainId(userId: string) {
    '-' in userId && forall c :: c in userId ==> !IsStop(c)
  }

  lemma UuidIsPlain(userId: string)
    requires |userId| == 36 && IsUuidAt(userId, 0)
    ensures IsPlainId(userId)
  {
    assert userId[8] == '-';
    assert forall k :: 0 <= k < 36 ==> userId[k] == '-' || IsHex(userId[k]);
  }

  lemma TailsJoin(s: string, a: string, b: string)
    requires b <= a <= s && IsTail(s[|a|..]) && IsTail(a[|b|..])
    ensures b <= s && IsTail(s[|b|..])
  {
    assert s[|b|..] == a[|b|..] + s[|a|..];
  }

  lemma TrimCutsTail(s: string)
    requires s != "" ==> !IsSpace(s[0])
    ensures Trim(s) <= s && IsTail(s[|Trim(s)|..])
  {
    hide IsTail, TrimStart, TrimEnd;
    EndIsTail(s);
    assert Trim(s) == TrimEnd(s) by { TrimsOnlyEnd(s); }
  }

  lemma TrimsOnlyEnd(s: string)
    requires s != "" ==> !IsSpace(s[0])
    ensures Trim(s) == TrimEnd(s)
  {
    hide TrimEnd;
  }

  lemma EndIsTail(s: string)
    ensures TrimEnd(s) <= s && IsTail(s[|TrimEnd(s)|..])
  {
    var tail := s[|TrimEnd(s)|..];
    assert forall k :: 0 <= k < |tail| ==> IsSpace(tail[k]) && tail[k] == s[|TrimEnd(s)| + k];
  }

  lemma NumberToTheEnd(s: string, i: nat)
    requires i <= |s| && NumberAt(s, i)
    ensures forall k :: i <= k < |s| ==> IsSpace(s[k]) || IsDigit(s[k]) || s[k] == ';'
  {
    var number := SkipSpaces(s, i);
    var end := SkipDigits(s, number);
    if end < |s| { assert forall k :: end <= k < |s| - 1 ==> IsSpace(s[k]); }
  }

  lemma LimitIsTail(s: string, i: nat)
    requires i <= |s| && LimitAt(s, i)
    ensures IsTail(s[i..])
  {
    hide NumberAt, Lower;
    var word := SkipSpaces(s, i);
    NumberToTheEnd(s, word + 5);
    forall k | word <= k < word + 5 ensures s[k] != '-' {
      StartsAtChar(Lower(s), word, "limit", k - word);
      assert LowerChar(s[k]) == Lower(s)[k] == "limit"[k - word];
    }
  }

  lemma {:induction false} LimitCutsTail(s: string, from: nat)
    requires from <= |s|
    ensures WithoutLimit(s, from) <= s && IsTail(s[|WithoutLimit(s, from)|..])
    ensures |WithoutLimit(s, from)| >= from
    decreases |s| - from
  {
    hide LimitAt;
    if from == |s| {
    } else if LimitAt(s, from) {
      LimitIsTail(s, from);
    } else {
      LimitCutsTail(s, from + 1);
    }
  }

  lemma SemicolonCutsTail(s: string)
    requires IsTrimmed(s)
    ensures WithoutSemicolon(s) <= s && IsTail(s[|WithoutSemicolon(s)|..])
  {
    hide Trim;
    if EndsWith(s, ";") {
      var front := s[..|s| - 1];
      assert s[|front|..] == ";";
      TrimCutsTail(front);
      TailsJoin(s, front, Trim(front));
    } else {
      assert s[|s|..] == "";
    }
  }

  lemma EnforcedEnd(s: string, base: string, closed: bool)
    requires EnforceLimit(s) == base + " LIMIT 50" + if closed then ";" else ""
    ensures base <= EnforceLimit(s) && IsTail(EnforceLimit(s)[|base|..])
  {
    hide EnforceLimit;
    var added := " LIMIT 50" + if closed then ";" else "";
    assert EnforceLimit(s) == base + added;
    assert EnforceLimit(s)[|base|..] == added && added[0] == ' ';
  }

  /** Enforcing a limit keeps a text up to its end: what is cut off there and what is put on are tails. */
  lemma OnlyEndIsRewritten(s: string) returns (base: string)
    requires IsTrimmed(s)
    ensures base <= s && base <= EnforceLimit(s)
    ensures IsTail(s[|base|..]) && IsTail(EnforceLimit(s)[|base|..])
  {
    hide Trim, WithoutLimit, WithoutSemicolon, IsSpace;
    var open := WithoutLimit(s, 0);
    var rest := Trim(open);
    base := WithoutSemicolon(rest);
    LimitCutsTail(s, 0);
    TrimCutsTail(open);
    TailsJoin(s, open, rest);
    SemicolonCutsTail(rest);
    TailsJoin(s, rest, base);
    EnforcedEnd(s, base, EndsWith(rest, ";"));
  }

  // --------------------------------------------------------------------------- the scope is kept

  lemma UuidIsInBase(s: string, base: string, i: nat)
    requires base <= s && IsTail(s[|base|..])
    ensures IsUuidAt(s, i) <==> IsUuidAt(base, i)
  {
    var tail := s[|base|..];
    assert forall k :: |base| <= k < |s| ==> s[k] == tail[k - |base|];
    if i + 36 <= |s| && i + 36 > |base| {
      if i <= |base| {
        assert IsStop(s[|base|]);
        assert !IsHex(s[|base|]) && s[|base|] != '-';
      } else {
        assert s[i + 8] in tail;
      }
    }
  }

  lemma IdIsInBase(s: string, base: string, userId: string, p: int)
    requires base <= s && IsTail(s[|base|..]) && IsPlainId(userId)
    ensures IdStandsAt(s, userId, p) <==> IdStandsAt(base, userId, p)
  {
    hide Lower;
    var end := p + |userId|;
    if 0 <= p && end <= |base| {
      assert s[p..end] == base[p..end];
    } else if IdStandsAt(s, userId, p) {
      IdAvoidsTail(s, base, userId, p);
    }
  }

  lemma LowerKeepsStop(c: char)
    ensures IsStop(LowerChar(c)) <==> IsStop(c)
    ensures LowerChar(c) == '-' <==> c == '-'
  {}

  lemma IdCharacter(s: string, userId: string, p: nat, k: nat)
    requires IdStandsAt(s, userId, p) && IsPlainId(userId) && k < |userId|
    ensures !IsStop(s[p + k]) && (userId[k] == '-' ==> s[p + k] == '-')
  {
    hide Lower, LowerChar, IsStop;
    var cut := s[p..p + |userId|];
    assert Lower(cut)[k] == LowerChar(cut[k]) && Lower(userId)[k] == LowerChar(userId[k]) && cut[k] == s[p + k];
    assert userId[k] in userId;
    LowerKeepsStop(userId[k]);
    LowerKeepsStop(s[p + k]);
  }

  lemma TailCharacters(s: string, base: string)
    requires base <= s && IsTail(s[|base|..])
    ensures |base| < |s| ==> IsStop(s[|base|])
    ensures forall k :: |base| <= k < |s| ==> s[k] != '-'
  {
    hide IsStop;
    var tail := s[|base|..];
    assert forall k :: |base| <= k < |s| ==> s[k] == tail[k - |base|];
  }

  lemma IdAvoidsTail(s: string, base: string, userId: string, p: nat)
    requires base <= s && IsTail(s[|base|..]) && IsPlainId(userId)
    requires IdStandsAt(s, userId, p)
    ensures p + |userId| <= |base|
  {
    hide Lower, IsStop, IsTail;
    TailCharacters(s, base);
    var hyphen :| 0 <= hyphen < |userId| && userId[hyphen] == '-';
    IdCharacter(s, userId, p, hyphen);
    if p <= |base| < p + |userId| { IdCharacter(s, userId, p, |base| - p); }
  }

  lemma BaseHasScope(s: string, base: string, userId: string)
    requires base <= s && IsTail(s[|base|..]) && IsPlainId(userId)
    ensures ScopedTo(s, userId) <==> ScopedTo(base, userId)
  {
    hide IsUuidAt, IdStandsAt, IsTail, IsPlainId;
    forall i: nat ensures IsUuidAt(s, i) <==> IsUuidAt(base, i) { UuidIsInBase(s, base, i); }
    forall p: int ensures IdStandsAt(s, userId, p) <==> IdStandsAt(base, userId, p) {
      IdIsInBase(s, base, userId, p);
    }
    assert forall i: nat, p: int :: OverlapsId(s, i, userId, p) <==> OverlapsId(base, i, userId, p);
  }

  /** A limit put on a text neither adds to its scope nor takes from it. */
  lemma LimitKeepsScope(s: string, userId: string)
    requires IsTrimmed(s) && IsPlainId(userId)
    ensures ScopedTo(EnforceLimit(s), userId) <==> ScopedTo(s, userId)
  {
    hide EnforceLimit, IsTail, IsPlainId, ScopedTo;
    var base := OnlyEndIsRewritten(s);
    BaseHasScope(s, base, userId);
    BaseHasScope(EnforceLimit(s), base, userId);
  }

  // ------------------------------------------------------------------------------------ comments

  predicate HasCommentMark(s: string) {
    Contains(s, "--") || Contains(s, "/*")
  }

  lemma {:induction false} NoLineComments(s: string)
    requires forall i: nat :: !StartsAt(s, i, "--")
    ensures StripLineComments(s) == s
    decreases |s|
  {
    if s == "" {
    } else {
      forall i: nat ensures !StartsAt(s[1..], i, "--") { StartsAtNext(s, i, "--"); }
      NoLineComments(s[1..]);
    }
  }

  lemma {:induction false} NoBlockComments(s: string)
    requires forall i: nat :: !StartsAt(s, i, "/*")
    ensures StripBlockComments(s) == s
    decreases |s|
  {
    if s == "" {
    } else {
      forall i: nat ensures !StartsAt(s[1..], i, "/*") { StartsAtNext(s, i, "/*"); }
      NoBlockComments(s[1..]);
    }
  }

  lemma NoMark(s: string, p: string)
    requires p != "" && p[0] !in s
    ensures forall i: nat :: !StartsAt(s, i, p)
  {
    forall i: nat ensures !StartsAt(s, i, p) {
      if i + |p| <= |s| { assert s[i..i + |p|][0] == s[i]; }
    }
  }

  lemma StartsAtNext(s: string, i: nat, p: string)
    requires s != "" && p != ""
    ensures StartsAt(s[1..], i, p) <==> StartsAt(s, i + 1, p)
  {
    if i + 1 + |p| <= |s| { assert s[1..][i..i + |p|] == s[i + 1..i + 1 + |p|]; }
  }

  /** A trimmed text that opens no comment is left as it is. */
  lemma NoCommentsToStrip(s: string)
    requires IsTrimmed(s) && !HasCommentMark(s)
    ensures StripComments(s) == s
  {
    hide StripLineComments, StripBlockComments, StartsAt;
    NoLineComments(s);
    NoBlockComments(s);
  }

  /** A line comment goes up to the end of its line, which stays. */
  lemma LineCommentGoes(comment: string, rest: string)
    requires '\n' !in comment && (rest != "" ==> rest[0] == '\n')
    ensures StripLineComments("--" + comment + rest) == StripLineComments(rest)
  {
    var text := "--" + comment + rest;
    assert text[0..2] == "--" && text[2..] == comment + rest;
    if rest == "" {
      assert comment + rest == comment;
      assert text[2 + |comment|..] == rest;
    } else {
      assert (comment + rest)[..|comment|] == comment;
      IndexOfCharAt(comment + rest, '\n', |comment|);
      assert text[2 + |comment|..] == rest;
    }
  }

  /** A block comment goes up to its first closing mark. */
  lemma BlockCommentGoes(comment: string, rest: string)
    requires forall i: nat :: i < |comment| ==> !StartsAt(comment + "*/", i, "*/")
    ensures StripBlockComments("/*" + comment + "*/" + rest) == StripBlockComments(rest)
  {
    hide StartsAt;
    var text := "/*" + comment + "*/" + rest;
    var at := 2 + |comment|;
    StartsHere(text, 0, "/*");
    StartsHere(text, at, "*/");
    forall i: nat | 2 <= i < at ensures !StartsAt(text, i, "*/") {
      var inner := comment + "*/";
      assert text[2..at + 2] == inner;
      StartsAtInSlice(text, 2, at + 2, i, "*/");
    }
    FirstIsFound(text, "*/", 2, at);
    assert text[at + 2..] == rest;
  }

  lemma StartsHere(s: string, i: nat, p: string)
    requires i + |p| <= |s| && s[i..i + |p|] == p
    ensures StartsAt(s, i, p)
  {}

  lemma FirstIsFound(s: string, p: string, from: nat, i: nat)
    requires from <= i && StartsAt(s, i, p) && forall k: nat :: from <= k < i ==> !StartsAt(s, k, p)
    ensures Find(s, p, from) == Some(i)
  {
    hide StartsAt;
    var r := Find(s, p, from);
    assert r.Some?;
  }

  /** A comment can hide an id: cut anywhere by one, it is found by no search for UUIDs, and stripping the
      comments puts it together again. */
  lemma CommentHidesId(id: string, k: nat)
    requires |id| == 36 && IsUuidAt(id, 0) && 0 < k < 36
    ensures var text := id[..k] + "/**/" + id[k..];
      Uuids(text, 0) == [] && StripComments(text) == id
  {
    hide IsUuidAt, Uuids, StripLineComments, StripBlockComments, StartsAt;
    var text := id[..k] + "/**/" + id[k..];
    IdHasNoMarks(id);
    assert text[k] == '/' && text[k + 3] == '/' && |text| == 40;
    forall i: nat ensures !IsUuidAt(text, i) { NoUuidOverSlash(text, k, i); }
    UuidsAreFound(text, 0);
    forall i: nat ensures !StartsAt(text, i, "--") { NoDoubleHyphen(id, k, i); }
    NoLineComments(text);
    BlockIsCut(id, k, 0);
    assert id[0..k] == id[..k];
    IdIsTrimmed(id);
  }

  lemma IdHasNoMarks(id: string)
    requires |id| == 36 && IsUuidAt(id, 0)
    ensures forall k :: 0 <= k < 36 ==> id[k] != '/' && !IsSpace(id[k])
    ensures forall k :: 0 < k < 36 && id[k] == '-' ==> id[k - 1] != '-'
  {
    forall k | 0 <= k < 36
      ensures id[k] != '/' && !IsSpace(id[k]) && (k > 0 && id[k] == '-' ==> id[k - 1] != '-')
    {
      assert if k in {8, 13, 18, 23} then id[k] == '-' else IsHex(id[k]);
      if k > 0 { assert if k - 1 in {8, 13, 18, 23} then id[k - 1] == '-' else IsHex(id[k - 1]); }
    }
  }

  lemma IdIsTrimmed(id: string)
    requires |id| == 36 && !IsSpace(id[0]) && !IsSpace(id[35])
    ensures Trim(id) == id
  {}

  lemma NoUuidOverSlash(text: string, k: nat, i: nat)
    requires |text| == 40 && 0 < k < 36 && text[k] == '/' && text[k + 3] == '/'
    ensures !IsUuidAt(text, i)
  {
    var slash := if i <= k then k else k + 3;
    assert text[slash] == '/' && !IsHex('/');
    assert i + 36 <= |text| ==> i <= slash < i + 36;
  }

  lemma NoDoubleHyphen(id: string, k: nat, i: nat)
    requires |id| == 36 && 0 < k < 36
    requires forall j :: 0 < j < 36 && id[j] == '-' ==> id[j - 1] != '-'
    ensures !StartsAt(id[..k] + "/**/" + id[k..], i, "--")
  {
    var text := id[..k] + "/**/" + id[k..];
    StartsAtChar(text, i, "--", 0);
    StartsAtChar(text, i, "--", 1);
    assert forall j :: 0 <= j < k ==> text[j] == id[j];
    assert forall j :: k + 4 <= j < 40 ==> text[j] == id[j - 4];
  }

  lemma {:induction false} BlockIsCut(id: string, k: nat, i: nat)
    requires i <= k < |id| && forall j :: 0 <= j < |id| ==> id[j] != '/'
    ensures StripBlockComments(id[i..k] + "/**/" + id[k..]) == id[i..]
    decreases k - i
  {
    var text := id[i..k] + "/**/" + id[k..];
    if i == k {
      EmptyBlock(id[k..]);
      assert text == "/**/" + id[k..];
      NoMark(id[k..], "/*");
      NoBlockComments(id[k..]);
    } else {
      assert text[0] == id[i];
      StartsAtChar(text, 0, "/*", 0);
      assert text[1..] == id[i + 1..k] + "/**/" + id[k..];
      BlockIsCut(id, k, i + 1);
      assert id[i..] == [id[i]] + id[i + 1..];
    }
  }

  lemma EmptyBlock(rest: string)
    ensures StripBlockComments("/**/" + rest) == StripBlockComments(rest)
  {
    var text := "/**/" + rest;
    assert text[0..2] == "/*" && text[2..4] == "*/" && text[4..] == rest;
    assert Find(text, "*/", 2) == Some(2);
  }

  /** The limit a statement ends with, whatever its number, gives way to the enforced one; a final semicolon is
      lost with it. */
  lemma LimitIsReplaced(base: string, number: string, end: string)
    requires base != "" && IsTrimmed(base) && base[|base| - 1] != ';'
    requires number != "" && (forall k :: 0 <= k < |number| ==> IsDigit(number[k])) && end in {"", ";"}
    ensures EnforceLimit(base + " LIMIT " + number + end) == base + " LIMIT 50"
  {
    hide Trim, WithoutLimit, LimitAt, Lower, IsSpace;
    var s := base + " LIMIT " + number + end;
    assert IsTrimmed(s) by { LimitedIsTrimmed(base, number, end); }
    forall i | 0 <= i < |base| ensures !LimitAt(s, i) { NoEarlierLimit(base, number + end, s, i); }
    LimitFound(base, number, end);
    CutFound(s, 0, |base|);
    assert s[..|base|] == base;
  }

  /** Blanks, the word in any case, blanks, digits, and at most a semicolon after blanks. */
  predicate LimitSpelled(s: string, i: nat, word: nat, number: nat, end: nat) {
    && i < word && word + 5 < number < end <= |s| && Lower(s[word..word + 5]) == "limit"
    && (forall k :: i <= k < word ==> IsSpace(s[k])) && (forall k :: word + 5 <= k < number ==> IsSpace(s[k]))
    && (forall k :: number <= k < end ==> IsDigit(s[k]))
    && (end == |s| || (s[|s| - 1] == ';' && forall k :: end <= k < |s| - 1 ==> IsSpace(s[k])))
  }

  lemma LimitIsSpelled(s: string, i: nat) returns (word: nat, number: nat, end: nat)
    requires i <= |s| && LimitAt(s, i)
    ensures LimitSpelled(s, i, word, number, end)
  {
    hide IsSpace, IsDigit, LowerChar, Lower, SkipSpaces, SkipDigits, StartsAt;
    word := SkipSpaces(s, i);
    FitsWhole(Lower(s), word, "limit");
    number := SkipSpaces(s, word + 5);
    end := SkipDigits(s, number);
    WordAt(s, word);
  }

  lemma WordAt(s: string, word: nat)
    requires word + 5 <= |s|
    ensures StartsAt(Lower(s), word, "limit") <==> Lower(s[word..word + 5]) == "limit"
  {
    hide LowerChar, Lower;
    var a, b := Lower(s)[word..word + 5], Lower(s[word..word + 5]);
    assert forall k :: 0 <= k < 5 ==> a[k] == b[k];
    assert a == b;
  }

  /** A final semicolon stays behind the limit that is put on. */
  lemma SemicolonStaysLast(base: string)
    requires base != "" && IsTrimmed(base) && 'm' !in base && 'M' !in base
    ensures EnforceLimit(base + ";") == base + " LIMIT 50;"
  {
    hide WithoutLimit, TrimStart, TrimEnd, IsSpace, Trim, WithoutSemicolon;
    var s := base + ";";
    TrimmedWithSemicolon(base);
    NoLimitToCut(s, 0);
    assert s[|s| - 1..] == ";";
    assert base + " LIMIT 50" + ";" == base + " LIMIT 50;";
  }

  lemma TrimmedWithSemicolon(base: string)
    requires base != "" && IsTrimmed(base)
    ensures IsTrimmed(base + ";") && WithoutSemicolon(base + ";") == base
  {
    hide TrimStart, TrimEnd;
    var s := base + ";";
    assert s[0] == base[0] && s[|s| - 1] == ';';
    assert s[|s| - 1..] == ";" && s[..|s| - 1] == base;
  }

  lemma LimitedIsTrimmed(base: string, number: string, end: string)
    requires base != "" && IsTrimmed(base)
    requires number != "" && (forall k :: 0 <= k < |number| ==> IsDigit(number[k])) && end in {"", ";"}
    ensures IsTrimmed(base + " LIMIT " + number + end)
  {
    var s := base + " LIMIT " + number + end;
    assert s[0] == base[0];
    assert s[|s| - 1] == if end == "" then number[|number| - 1] else ';';
  }

  lemma {:induction false} CutFound(s: string, from: nat, k: nat)
    requires from <= k < |s| && LimitAt(s, k) && forall i :: from <= i < k ==> !LimitAt(s, i)
    ensures WithoutLimit(s, from) == s[..k]
    decreases k - from
  {
    hide LimitAt;
    if from == k {
    } else {
      CutFound(s, from + 1, k);
    }
  }

  lemma NoEarlierLimit(base: string, rest: string, s: string, i: nat)
    requires IsTrimmed(base) && i < |base| && s == base + " LIMIT " + rest
    ensures !LimitAt(s, i)
  {
    hide Lower, NumberAt;
    assert s[|base| - 1] == base[|base| - 1] && s[|base|] == ' ' && s[|base| + 1] == 'L';
    var word := SkipSpaces(s, i);
    assert word < |base|;
    if LimitAt(s, i) {
      if |base| < word + 5 { SpaceIsNotInWord(s, word, |base|); }
      NumberToTheEnd(s, word + 5);
    }
  }

  lemma SpaceIsNotInWord(s: string, word: nat, k: nat)
    requires StartsAt(Lower(s), word, "limit") && word <= k < word + 5 && k < |s|
    ensures s[k] != ' '
  {
    hide Lower, StartsAt;
    StartsAtChar(Lower(s), word, "limit", k - word);
    assert Lower(s)[k] == LowerChar(s[k]);
  }

  lemma LimitFound(base: string, number: string, end: string)
    requires number != "" && (forall k :: 0 <= k < |number| ==> IsDigit(number[k])) && end in {"", ";"}
    ensures LimitAt(base + " LIMIT " + number + end, |base|)
  {
    hide Lower, IsSpace, SkipSpaces, SkipDigits, StartsAt;
    var s := base + " LIMIT " + number + end;
    var at := |base| + 7;
    assert s[|base|] == ' ' && s[|base| + 1] == 'L' && s[|base| + 6] == ' ';
    assert forall k :: at <= k < at + |number| ==> s[k] == number[k - at];
    SkipOne(s, |base|);
    SkipOne(s, |base| + 6);
    WordInLower(s, |base| + 1);
    DigitsSkipped(s, at, at + |number|);
    NothingBeforeSemicolon(s, at + |number|);
  }

  lemma SkipOne(s: string, i: nat)
    requires i + 1 < |s| && s[i] == ' ' && (IsDigit(s[i + 1]) || s[i + 1] == 'L')
    ensures SkipSpaces(s, i) == i + 1
  {
    assert SkipSpaces(s, i + 1) == i + 1;
  }

  lemma NothingBeforeSemicolon(s: string, i: nat)
    requires i <= |s|
    ensures i < |s| && s[i] == ';' ==> SkipSpaces(s, i) == i
  {}

  lemma WordInLower(s: string, i: nat)
    requires i + 5 <= |s| && s[i..i + 5] == "LIMIT"
    ensures StartsAt(Lower(s), i, "limit")
  {
    hide Lower, LowerChar;
    var word, low := s[i..i + 5], Lower(s)[i..i + 5];
    assert forall k :: 0 <= k < 5 ==> low[k] == LowerChar(word[k]);
    LowerWord(word, low);
  }

  lemma LowerWord(word: string, low: string)
    requires word == "LIMIT" && |low| == 5 && forall k :: 0 <= k < 5 ==> low[k] == LowerChar(word[k])
    ensures low == "limit"
  {
  }

  lemma {:induction false} DigitsSkipped(s: string, i: nat, end: nat)
    requires i <= end <= |s| && (forall k :: i <= k < end ==> IsDigit(s[k])) && (end < |s| ==> !IsDigit(s[end]))
    ensures SkipDigits(s, i) == end
    decreases end - i
  {
    if i == end {
    } else {
      DigitsSkipped(s, i + 1, end);
    }
  }

  /** A text without an m holds no limit, so one is put at its end. */
  lemma {:induction false} NoLimitToCut(s: string, from: nat)
    requires from <= |s| && 'm' !in s && 'M' !in s
    ensures WithoutLimit(s, from) == s
    decreases |s| - from
  {
    hide Lower, StartsAt, NumberAt;
    if from == |s| {
    } else {
      var word := SkipSpaces(s, from);
      StartsAtChar(Lower(s), word, "limit", 2);
      if word + 2 < |s| { assert Lower(s)[word + 2] == LowerChar(s[word + 2]) && s[word + 2] in s; }
      assert StartsAt(Lower(s), word, "limit") ==> word + 5 <= |s| by { FitsWhole(Lower(s), word, "limit"); }
      NoLimitToCut(s, from + 1);
    }
  }

  lemma FitsWhole(s: string, i: nat, p: string)
    ensures StartsAt(s, i, p) ==> i + |p| <= |s|
  {}

  /** A line comment reaches to the end of its line, here of the text. */
  lemma {:induction false} LineIsCut(front: string, rest: string)
    requires '-' !in front && '\n' !in rest
    ensures StripLineComments(front + "--" + rest) == front
  {
    var text := front + "--" + rest;
    if front == "" {
      assert text[0..2] == "--" && text[2..] == rest;
      assert text[2 + |rest|..] == "";
    } else {
      StartsAtChar(text, 0, "--", 0);
      assert text[0] == front[0] && text[1..] == front[1..] + "--" + rest;
      LineIsCut(front[1..], rest);
    }
  }
}
