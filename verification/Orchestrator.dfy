/** What the orchestrator takes from the model's answer: the list of missing parameters, and whether the
    question is ready for SQL. */
module Orchestrator {
  import opened Text

  datatype Param = Param(name: string, reason: string, examples: Option<seq<string>>)

  const LANDLORD := "[LANDLORD]"
  const TENANT := "[TENANT]"
  const GUEST := "[GUEST]"
  const HEADER := "MISSING_PARAMS:"
  const NEXT_FIELD := "\nRESPONSE"

  // ----------------------------------------------------------------------------------- parsing

  predicate HasRoleTag(s: string) {
    Contains(s, LANDLORD) || Contains(s, TENANT) || Contains(s, GUEST)
  }

  /** The group of /MISSING_PARAMS:\s*(.+?)(?=\n(?:RESPONSE|$))/s in a trimmed answer.  A trimmed answer does
      not end in a line feed, so only the RESPONSE branch counts; and where the white space would have to
      be given back to find a match, the group is blank and ignored anyway. */
  function Section(response: string): Option<string> {
    match Find(response, HEADER, 0)
    case None => None
    case Some(i) =>
      var start := SkipSpaces(response, i + |HEADER|);
      match Find(response, NEXT_FIELD, start + 1)
      case None => None
      case Some(end) => Some(response[start..end])
  }

  function TrimmedParts(parts: seq<string>): (r: seq<string>)
    ensures forall i :: 0 <= i < |r| ==> r[i] != "" && IsTrimmed(r[i])
  {
    if parts == [] then []
    else
      var head := Trim(parts[0]);
      (if head == "" then [] else [head]) + TrimmedParts(parts[1..])
  }

  function WithoutBrackets(examples: seq<string>): seq<string> {
    if examples == [] then []
    else (if '[' in examples[0] then [] else [examples[0]]) + WithoutBrackets(examples[1..])
  }

  predicate BadLabel(s: string) {
    s == "" || s == "none" || HasRoleTag(s)
  }

  function ParseParam(param: string): Option<Param> {
    var parts := Split(param, ':');
    if |parts| < 2 then None
    else
      var name, reason := Trim(parts[0]), Trim(parts[1]);
      if BadLabel(name) || BadLabel(reason) then None
      else if |parts| > 2 && Trim(parts[2]) != "" then
        Some(Param(name, reason, Some(WithoutBrackets(TrimmedParts(Split(parts[2], ','))))))
      else Some(Param(name, reason, None))
  }

  function ParseParams(params: seq<string>): seq<Param> {
    if params == [] then []
    else (match ParseParam(params[0]) case None => [] case Some(p) => [p]) + ParseParams(params[1..])
  }

  /** Text that means that nothing is missing, or that another field has slipped in. */
  predicate Ignored(text: string) {
    text == "" || text == "none" || text == "null" || Contains(text, "RESPONSE:") || HasRoleTag(text)
  }

  function MissingParams(response: string): Option<seq<Param>> {
    match Section(response)
    case None => None
    case Some(captured) =>
      var text := Trim(captured);
      if Ignored(text) then None
      else
        var params := ParseParams(TrimmedParts(Split(text, '|')));
        if params == [] then None else Some(params)
  }

  // ---------------------------------------------------------------------------------- printing

  function PartsOf(p: Param): seq<string> {
    [p.name, p.reason] + if p.examples.None? then [] else [Join(p.examples.value, ",")]
  }

  /** name:reason:example,example */
  function PrintParam(p: Param): string {
    Join(PartsOf(p), ":")
  }

  function PrintedParams(ps: seq<Param>): (r: seq<string>)
    ensures |r| == |ps|
    ensures forall i :: 0 <= i < |ps| ==> r[i] == PrintParam(ps[i])
  {
    if ps == [] then [] else [PrintParam(ps[0])] + PrintedParams(ps[1..])
  }

  function Print(ps: seq<Param>): string {
    Join(PrintedParams(ps), "|")
  }

  // ----------------------------------------------------------------------------- what comes back

  predicate IsField(s: string) {
    s != "" && IsTrimmed(s) && '|' !in s && ':' !in s
  }

  predicate IsExample(s: string) {
    IsField(s) && ',' !in s && '[' !in s
  }

  /** Trimmed fields without delimiters, and at least one example where examples are given. */
  predicate IsPrintable(p: Param) {
    && IsField(p.name) && IsField(p.reason) && p.name != "none" && p.reason != "none"
    && (p.examples.Some? ==>
          p.examples.value != [] && forall i :: 0 <= i < |p.examples.value| ==> IsExample(p.examples.value[i]))
  }

  /** Joining trimmed, non-empty parts gives a trimmed, non-empty text that starts like the first part. */
  lemma {:induction false} JoinIsTrimmed(parts: seq<string>, sep: string)
    requires parts != [] && forall i :: 0 <= i < |parts| ==> parts[i] != "" && IsTrimmed(parts[i])
    ensures var s := Join(parts, sep); s != "" && IsTrimmed(s) && s[0] == parts[0][0]
  {
    if |parts| == 1 {
    } else {
      JoinIsTrimmed(parts[1..], sep);
      var tail := Join(parts[1..], sep);
      var s := parts[0] + sep + tail;
      assert s[|s| - 1] == tail[|tail| - 1];
    }
  }

  lemma {:induction false} JoinAvoids(parts: seq<string>, sep: string, c: char)
    requires c !in sep && forall i :: 0 <= i < |parts| ==> c !in parts[i]
    ensures c !in Join(parts, sep)
  {
    if |parts| <= 1 {
    } else {
      JoinAvoids(parts[1..], sep, c);
    }
  }

  lemma {:induction false} TrimmedPartsKept(parts: seq<string>)
    requires forall i :: 0 <= i < |parts| ==> parts[i] != "" && IsTrimmed(parts[i])
    ensures TrimmedParts(parts) == parts
  {
    hide Trim;
    if parts == [] {
    } else {
      TrimmedPartsKept(parts[1..]);
      assert parts == [parts[0]] + parts[1..];
    }
  }

  lemma {:induction false} BracketsKept(examples: seq<string>)
    requires forall i :: 0 <= i < |examples| ==> '[' !in examples[i]
    ensures WithoutBrackets(examples) == examples
  {
    if examples == [] {
    } else {
      BracketsKept(examples[1..]);
      assert examples == [examples[0]] + examples[1..];
    }
  }

  lemma ExamplesReadBack(examples: seq<string>)
    requires examples != [] && forall i :: 0 <= i < |examples| ==> IsExample(examples[i])
    ensures var text := Join(examples, ",");
      && text != "" && IsTrimmed(text) && '|' !in text && ':' !in text
      && WithoutBrackets(TrimmedParts(Split(text, ','))) == examples
  {
    JoinIsTrimmed(examples, ",");
    JoinAvoids(examples, ",", '|');
    JoinAvoids(examples, ",", ':');
    SplitOfJoin(examples, ',');
    TrimmedPartsKept(examples);
    BracketsKept(examples);
  }

  lemma PartsAreFields(p: Param)
    requires IsPrintable(p)
    ensures forall i :: 0 <= i < |PartsOf(p)| ==> PartsOf(p)[i] != "" && IsTrimmed(PartsOf(p)[i])
    ensures forall i :: 0 <= i < |PartsOf(p)| ==> '|' !in PartsOf(p)[i] && ':' !in PartsOf(p)[i]
  {
    if p.examples.Some? { ExamplesReadBack(p.examples.value); }
  }

  lemma ParamReadsBackIff(p: Param)
    requires IsPrintable(p)
    ensures ParseParam(PrintParam(p)) == Some(p) <==> !HasRoleTag(p.name) && !HasRoleTag(p.reason)
    ensures PrintParam(p) != "" && IsTrimmed(PrintParam(p)) && '|' !in PrintParam(p)
  {
    hide HasRoleTag, Trim, Split, Join;
    PartsAreFields(p);
    SplitOfJoin(PartsOf(p), ':');
    JoinIsTrimmed(PartsOf(p), ":");
    JoinAvoids(PartsOf(p), ":", '|');
    if p.examples.Some? { ExamplesReadBack(p.examples.value); }
  }

  lemma {:induction false} ParamsReadBack(ps: seq<Param>)
    requires forall i :: 0 <= i < |ps| ==> IsPrintable(ps[i]) && !HasRoleTag(ps[i].name) && !HasRoleTag(ps[i].reason)
    ensures ParseParams(PrintedParams(ps)) == ps
  {
    hide ParseParam, PrintParam, HasRoleTag, IsPrintable;
    if ps == [] {
    } else {
      ParamReadsBackIff(ps[0]);
      ParamsReadBack(ps[1..]);
      assert PrintedParams(ps)[1..] == PrintedParams(ps[1..]);
      assert ps == [ps[0]] + ps[1..];
    }
  }

  // ---------------------------------------------------------------------- substrings of a join

  lemma ContainsWithin(before: string, s: string, after: string, p: string)
    requires Contains(s, p)
    ensures Contains(before + s + after, p)
  {
    var i := Find(s, p, 0).value;
    var all := before + s + after;
    assert all[|before| + i..|before| + i + |p|] == s[i..i + |p|];
    ContainsAt(all, p, |before| + i);
  }

  lemma {:induction false} JoinContainsParts(parts: seq<string>, sep: string, k: nat, p: string)
    requires k < |parts| && Contains(parts[k], p)
    ensures Contains(Join(parts, sep), p)
  {
    hide Contains;
    if |parts| == 1 {
    } else {
      var tail := Join(parts[1..], sep);
      if k == 0 {
        ContainsWithin("", parts[0], sep + tail, p);
        assert "" + parts[0] + (sep + tail) == parts[0] + sep + tail;
      } else {
        JoinContainsParts(parts[1..], sep, k - 1, p);
        ContainsWithin(parts[0] + sep, tail, "", p);
        assert parts[0] + sep + tail + "" == parts[0] + sep + tail;
      }
    }
  }

  lemma TagShowsInPrint(ps: seq<Param>, k: nat)
    requires k < |ps|
    ensures HasRoleTag(ps[k].name) || HasRoleTag(ps[k].reason) ==> HasRoleTag(Print(ps))
  {
    hide Contains, Join;
    forall part: nat, tag | part < 2 && Contains(PartsOf(ps[k])[part], tag) ensures Contains(Print(ps), tag) {
      JoinContainsParts(PartsOf(ps[k]), ":", part, tag);
      JoinContainsParts(PrintedParams(ps), "|", k, tag);
    }
    assert PartsOf(ps[k])[0] == ps[k].name && PartsOf(ps[k])[1] == ps[k].reason;
  }

  // ------------------------------------------------------------------------------ whole answers

  lemma FindAt(s: string, p: string, from: nat, i: nat)
    requires from <= i && StartsAt(s, i, p) && forall k :: from <= k < i ==> !StartsAt(s, k, p)
    ensures Find(s, p, from) == Some(i)
  {
    var r := Find(s, p, from);
    assert r.Some?;
  }

  /** The header is followed by the printed list and then by the next field. */
  function Answer(before: string, list: string, after: string): string {
    before + "MISSING_PARAMS:" + " " + list + "\nRESPONSE" + after
  }

  lemma ListStarts(before: string, list: string, after: string)
    requires list != "" && !IsSpace(list[0])
    requires forall k :: 0 <= k < |before| ==> !StartsAt(Answer(before, list, after), k, HEADER)
    ensures var s := Answer(before, list, after); var start := |before| + |HEADER| + 1;
      && Find(s, HEADER, 0) == Some(|before|) && SkipSpaces(s, start - 1) == start
      && |s| >= start + |list| + |NEXT_FIELD|
      && s[start..start + |list|] == list && StartsAt(s, start + |list|, NEXT_FIELD)
  {
    var s := Answer(before, list, after);
    var i := |before|;
    var start := i + |HEADER| + 1;
    var end := start + |list|;
    assert s[i..i + |HEADER|] == HEADER;
    FindAt(s, HEADER, 0, i);
    assert s[start - 1] == ' ' && s[start] == list[0];
    assert SkipSpaces(s, start) == start;
    assert s[end..end + |NEXT_FIELD|] == NEXT_FIELD;
  }

  lemma SectionIsList(before: string, list: string, after: string)
    requires list != "" && !IsSpace(list[0]) && !Contains(list, NEXT_FIELD)
    requires forall k :: 0 <= k < |before| ==> !StartsAt(Answer(before, list, after), k, HEADER)
    ensures Section(Answer(before, list, after)) == Some(list)
  {
    hide Answer, IsSpace, Contains;
    var s := Answer(before, list, after);
    var start := |before| + |HEADER| + 1;
    ListStarts(before, list, after);
    assert s[start + |list|] == '\n' by { StartsAtChar(s, start + |list|, NEXT_FIELD, 0); }
    NextFieldNotInside(s, list, start);
    FindAt(s, NEXT_FIELD, start + 1, start + |list|);
  }

  lemma NextFieldShown(list: string) returns (k: nat)
    requires list != "" && !IsSpace(list[0]) && Contains(list, NEXT_FIELD)
    ensures 0 < k && k + |NEXT_FIELD| <= |list| && StartsAt(list, k, NEXT_FIELD)
  {
    k := Find(list, NEXT_FIELD, 0).value;
    StartsAtChar(list, 0, NEXT_FIELD, 0);
  }

  lemma FindNoLater(s: string, p: string, from: nat, k: nat)
    requires from <= k && StartsAt(s, k, p)
    ensures Find(s, p, from).Some? && Find(s, p, from).value <= k
  {
    hide StartsAt;
    assert Find(s, p, from).None? ==> !StartsAt(s, k, p);
  }

  /** A list that itself shows the next field is cut short. */
  lemma SectionIsShorter(before: string, list: string, after: string)
    requires list != "" && !IsSpace(list[0]) && Contains(list, NEXT_FIELD)
    requires forall k :: 0 <= k < |before| ==> !StartsAt(Answer(before, list, after), k, HEADER)
    ensures var r := Section(Answer(before, list, after)); r.Some? && |r.value| < |list|
  {
    hide Answer, Contains, IsSpace, StartsAt, Find, SkipSpaces;
    var s := Answer(before, list, after);
    var start := |before| + |HEADER| + 1;
    ListStarts(before, list, after);
    var k := NextFieldShown(list);
    StartsAtInSlice(s, start, start + |list|, start + k, NEXT_FIELD);
    FindNoLater(s, NEXT_FIELD, start + 1, start + k);
  }

  lemma NextFieldNotInside(s: string, list: string, start: nat)
    requires start + |list| < |s| && s[start..start + |list|] == list && s[start + |list|] == '\n'
    requires !Contains(list, NEXT_FIELD)
    ensures forall k :: start <= k < start + |list| ==> !StartsAt(s, k, NEXT_FIELD)
  {
    var end := start + |list|;
    forall k | start <= k < end ensures !StartsAt(s, k, NEXT_FIELD) {
      if k + |NEXT_FIELD| <= end {
        StartsAtInSlice(s, start, end, k, NEXT_FIELD);
        assert !StartsAt(list, k - start, NEXT_FIELD);
      } else {
        StartsAtChar(s, k, NEXT_FIELD, end - k);
      }
    }
  }

  lemma PrintIsText(ps: seq<Param>)
    requires ps != [] && forall i :: 0 <= i < |ps| ==> IsPrintable(ps[i])
    ensures Print(ps) != "" && IsTrimmed(Print(ps)) && !IsSpace(Print(ps)[0]) && ':' in Print(ps)
    ensures TrimmedParts(Split(Print(ps), '|')) == PrintedParams(ps)
  {
    hide Join, Split, TrimmedParts, PrintParam;
    var printed := PrintedParams(ps);
    forall i | 0 <= i < |ps| ensures printed[i] != "" && IsTrimmed(printed[i]) && '|' !in printed[i] {
      ParamReadsBackIff(ps[i]);
    }
    JoinIsTrimmed(printed, "|");
    SplitOfJoin(printed, '|');
    TrimmedPartsKept(printed);
    ColonInPrint(ps);
  }

  lemma ColonInPrint(ps: seq<Param>)
    requires ps != []
    ensures ':' in Print(ps)
  {
    var p := ps[0];
    var parts := PartsOf(p);
    var first := PrintParam(p);
    assert first == parts[0] + ":" + Join(parts[1..], ":");
    assert first[|parts[0]|] == ':';
    var printed := PrintedParams(ps);
    assert printed[0] == first;
    assert Print(ps)[|parts[0]|] == ':' by {
      if |ps| > 1 { assert Print(ps) == first + "|" + Join(printed[1..], "|"); }
    }
  }

  // ------------------------------------------------------------- nothing longer than the text

  lemma TrimShortens(s: string)
    ensures |Trim(s)| <= |s|
  {}

  lemma {:induction false} JoinOfSplit(s: string, c: char)
    ensures Join(Split(s, c), [c]) == s
    decreases |s|
  {
    var i := IndexOfChar(s, c);
    if i == |s| {
    } else {
      JoinOfSplit(s[i + 1..], c);
      assert Split(s, c)[1..] == Split(s[i + 1..], c);
      assert s == s[..i] + [c] + s[i + 1..];
    }
  }

  lemma JoinedLength(parts: seq<string>, sep: string)
    requires parts != []
    ensures |Join(parts, sep)| == |parts[0]| + if |parts| == 1 then 0 else |sep| + |Join(parts[1..], sep)|
  {}

  lemma {:induction false} TrimmedPartsShorten(parts: seq<string>, sep: string)
    ensures |Join(TrimmedParts(parts), sep)| <= |Join(parts, sep)|
  {
    if parts == [] {
    } else {
      hide Trim, Join;
      TrimmedPartsShorten(parts[1..], sep);
      TrimShortens(parts[0]);
      JoinedLength(parts, sep);
      var kept := TrimmedParts(parts[1..]);
      if Trim(parts[0]) != "" {
        assert ([Trim(parts[0])] + kept)[1..] == kept;
        JoinedLength([Trim(parts[0])] + kept, sep);
      } else {
        assert [] + kept == kept;
        EmptyJoin(sep);
        assert |parts| == 1 ==> parts[1..] == [];
      }
    }
  }

  lemma EmptyJoin(sep: string)
    ensures Join([], sep) == ""
  {}

  lemma {:induction false} BracketsShorten(examples: seq<string>, sep: string)
    ensures |Join(WithoutBrackets(examples), sep)| <= |Join(examples, sep)|
  {
    if examples == [] {
    } else {
      hide Join;
      BracketsShorten(examples[1..], sep);
      JoinedLength(examples, sep);
      var kept := WithoutBrackets(examples[1..]);
      if '[' !in examples[0] {
        assert ([examples[0]] + kept)[1..] == kept;
        JoinedLength([examples[0]] + kept, sep);
      } else {
        assert [] + kept == kept;
        EmptyJoin(sep);
        assert |examples| == 1 ==> examples[1..] == [];
      }
    }
  }

  lemma ExamplesShorten(text: string)
    ensures |Join(WithoutBrackets(TrimmedParts(Split(text, ','))), ",")| <= |text|
  {
    JoinOfSplit(text, ',');
    TrimmedPartsShorten(Split(text, ','), ",");
    BracketsShorten(TrimmedParts(Split(text, ',')), ",");
  }

  lemma ParamShortens(param: string)
    ensures ParseParam(param).Some? ==> |PrintParam(ParseParam(param).value)| <= |param|
  {
    if ParseParam(param).Some? {
      hide Trim, Split, Join, HasRoleTag, BadLabel, WithoutBrackets, TrimmedParts;
      var parts := Split(param, ':');
      var p := ParseParam(param).value;
      JoinOfSplit(param, ':');
      TrimShortens(parts[0]);
      TrimShortens(parts[1]);
      JoinedLength(parts, ":");
      JoinedLength(parts[1..], ":");
      JoinedLength(PartsOf(p), ":");
      JoinedLength(PartsOf(p)[1..], ":");
      if |parts| > 2 {
        ExamplesShorten(parts[2]);
        JoinedLength(parts[1..][1..], ":");
      }
      if p.examples.Some? { JoinedLength(PartsOf(p)[1..][1..], ":"); }
    }
  }

  lemma {:induction false} ParamsShorten(params: seq<string>)
    ensures |Print(ParseParams(params))| <= |Join(params, "|")|
  {
    if params == [] {
    } else {
      hide ParseParam, PrintParam, Join;
      ParamsShorten(params[1..]);
      ParamShortens(params[0]);
      JoinedLength(params, "|");
      var kept := ParseParams(params[1..]);
      EmptyJoin("|");
      assert |params| == 1 ==> params[1..] == [];
      if ParseParam(params[0]).Some? {
        var all := [ParseParam(params[0]).value] + kept;
        assert all[1..] == kept;
        assert PrintedParams(all)[1..] == PrintedParams(kept);
        JoinedLength(PrintedParams(all), "|");
      } else {
        assert [] + kept == kept;
      }
    }
  }

  /** Whatever is read from an answer prints no longer than the section it was read from. */
  lemma ReadPrintsNoLonger(response: string)
    ensures MissingParams(response).Some? ==>
      Section(response).Some? && |Print(MissingParams(response).value)| <= |Section(response).value|
  {
    hide Section, Ignored, Trim, Split, ParseParams, TrimmedParts, Print;
    if MissingParams(response).Some? {
      var captured := Section(response).value;
      var parts := Split(Trim(captured), '|');
      TrimShortens(captured);
      JoinOfSplit(Trim(captured), '|');
      TrimmedPartsShorten(parts, "|");
      ParamsShorten(TrimmedParts(parts));
    }
  }

  lemma RoleTagIff(s: string)
    ensures HasRoleTag(s) <==> Contains(s, "[LANDLORD]") || Contains(s, "[TENANT]") || Contains(s, "[GUEST]")
  {
    hide Contains;
  }

  /** Any non-empty list of printable parameters, printed in the prompt's format into an answer whose first
      header it follows, is recovered exactly if and only if the printed text holds no role tag, not the
      text "RESPONSE:", and no line that starts with RESPONSE. */
  lemma MissingParamsRoundTripIff(before: string, ps: seq<Param>, after: string)
    requires ps != [] && forall i :: 0 <= i < |ps| ==> IsPrintable(ps[i])
    requires forall k :: 0 <= k < |before| ==> !StartsAt(Answer(before, Print(ps), after), k, HEADER)
    ensures var text := Print(ps);
      MissingParams(Answer(before, text, after)) == Some(ps)
      <==> && !Contains(text, "[LANDLORD]") && !Contains(text, "[TENANT]") && !Contains(text, "[GUEST]")
           && !Contains(text, "RESPONSE:") && !Contains(text, "\nRESPONSE")
  {
    RoleTagIff(Print(ps));
    hide HasRoleTag, Contains, Print, Answer, Section, Trim, Split, IsPrintable, TrimmedParts;
    PrintIsText(ps);
    if Contains(Print(ps), NEXT_FIELD) {
      SectionIsShorter(before, Print(ps), after);
      hide MissingParams;
      ReadPrintsNoLonger(Answer(before, Print(ps), after));
    } else {
      SectionIsList(before, Print(ps), after);
      assert Print(ps) != "none" && Print(ps) != "null";
      if !HasRoleTag(Print(ps)) {
        forall i | 0 <= i < |ps| ensures !HasRoleTag(ps[i].name) && !HasRoleTag(ps[i].reason) {
          TagShowsInPrint(ps, i);
        }
        ParamsReadBack(ps);
      }
    }
  }

  /** On any text, what is returned is a non-empty list of parameters with non-empty, trimmed, tag-free names
      and reasons, and with trimmed, non-empty examples without brackets. */
  lemma ReturnedParamsAreClean(response: string)
    ensures MissingParams(response).Some? ==>
      MissingParams(response).value != [] && AllClean(MissingParams(response).value)
  {
    hide HasRoleTag, Trim, Section, Ignored, AllClean;
    if Section(response).Some? {
      ParsedAreClean(TrimmedParts(Split(Trim(Section(response).value), '|')));
    }
  }

  /** A name and a reason that are labels, and examples that are trimmed, not empty and without brackets. */
  predicate IsClean(p: Param) {
    && !BadLabel(p.name) && !BadLabel(p.reason) && IsTrimmed(p.name) && IsTrimmed(p.reason)
    && (p.examples.Some? ==> AllExamples(p.examples.value))
  }

  predicate AllExamples(xs: seq<string>) {
    forall i :: 0 <= i < |xs| ==> xs[i] != "" && IsTrimmed(xs[i]) && '[' !in xs[i]
  }

  predicate AllClean(ps: seq<Param>) {
    forall i :: 0 <= i < |ps| ==> IsClean(ps[i])
  }

  lemma {:induction false} BracketsGone(examples: seq<string>)
    requires forall i :: 0 <= i < |examples| ==> examples[i] != "" && IsTrimmed(examples[i])
    ensures AllExamples(WithoutBrackets(examples))
  {
    if examples == [] {
    } else {
      BracketsGone(examples[1..]);
    }
  }

  lemma ParamIsClean(param: string)
    ensures ParseParam(param).Some? ==> IsClean(ParseParam(param).value)
  {
    hide HasRoleTag, Trim, Split, BadLabel, AllExamples, WithoutBrackets, TrimmedParts;
    var parts := Split(param, ':');
    if |parts| > 2 { BracketsGone(TrimmedParts(Split(parts[2], ','))); }
  }

  lemma {:induction false} ParsedAreClean(params: seq<string>)
    ensures AllClean(ParseParams(params))
  {
    hide ParseParam, IsClean;
    if params == [] {
    } else {
      ParamIsClean(params[0]);
      ParsedAreClean(params[1..]);
    }
  }

  // --------------------------------------------------------------------------------- readiness

  /** The type named in the answer; a name not written in capitals equals none of the known ones. */
  datatype RequestType = Query | Greeting | Clarification | GeneralChat | Unrecognised

  datatype Decision = Decision(requestType: RequestType, readyForSql: bool, missing: Option<seq<Param>>)

  /** The type the answer names, whether it asks for personal data, whether the user is logged in, and the
      parameters it says are missing. */
  function Decide(named: RequestType, own: bool, loggedIn: bool, missing: Option<seq<Param>>): Decision {
    var requestType := if own && !loggedIn then Clarification else named;
    var none := missing.None? || missing.value == [];
    var ready := if own && !loggedIn then false else requestType == Query && none;
    Decision(requestType, ready, if ready || requestType != Query then None else missing)
  }

  /** A question is ready exactly when the answer names it a query, nothing is missing, and it is not personal or
      the user is logged in.  What is missing is handed on of a query that is not ready, and of nothing else. */
  lemma ReadyIff(named: RequestType, own: bool, loggedIn: bool, missing: Option<seq<Param>>)
    ensures var d := Decide(named, own, loggedIn, missing);
      && (d.readyForSql <==> named == Query && missing in {None, Some([])} && (own ==> loggedIn))
      && (d.requestType == Query <==> named == Query && (own ==> loggedIn))
      && d.missing == if d.requestType == Query && !d.readyForSql then missing else None
  {}

  /** A decided question is a query exactly when it is ready or some parameter is missing, never both; and
      personal data is never queried for a user who is not logged in. */
  lemma QueryIsReadyOrIncomplete(named: RequestType, own: bool, loggedIn: bool, missing: Option<seq<Param>>)
    ensures var d := Decide(named, own, loggedIn, missing);
      && (d.requestType == Query <==> d.readyForSql || (d.missing.Some? && d.missing.value != []))
      && !(d.readyForSql && d.missing.Some?)
      && (own && !loggedIn ==> !d.readyForSql && d.requestType == Clarification)
  {}
}
