/** The string operations the services use, written as direct functions: trimming, searching,
    splitting, joining, and collapsing white space.

    Where a function has a natural specification, its contract states it, so that the proofs elsewhere
    need not unfold it.

    Lower-casing is ASCII only.  That is exact wherever it is used here: the patterns are ASCII, and
    no other character folds into one of their letters. */
module Text {

  datatype Option<+T> = None | Some(value: T)

  /** White space as String.prototype.trim and the class \s of a regular expression know it. */
  predicate IsSpace(c: char) {
    var n := c as int;
    || 9 <= n <= 13 || n == 32 || n == 0xA0 || n == 0x1680 || 0x2000 <= n <= 0x200A
    || n == 0x2028 || n == 0x2029 || n == 0x202F || n == 0x205F || n == 0x3000 || n == 0xFEFF
  }

  /** The characters that a dot of a regular expression does not match. */
  predicate IsLineEnd(c: char) {
    var n := c as int;
    n == 10 || n == 13 || n == 0x2028 || n == 0x2029
  }

  predicate IsDigit(c: char) {
    '0' <= c <= '9'
  }

  /** The class \w. */
  predicate IsWord(c: char) {
    'a' <= c <= 'z' || 'A' <= c <= 'Z' || IsDigit(c) || c == '_'
  }

  predicate IsHex(c: char) {
    IsDigit(c) || 'a' <= c <= 'f' || 'A' <= c <= 'F'
  }

  /** Hexadecimal digits in groups of 8, 4, 4, 4 and 12. */
  predicate IsUuid(s: string) {
    |s| == 36 && forall k :: 0 <= k < 36 ==> if k in {8, 13, 18, 23} then s[k] == '-' else IsHex(s[k])
  }

  function LowerChar(c: char): char {
    if 'A' <= c <= 'Z' then (c as int + 32) as char else c
  }

  function Lower(s: string): (r: string)
    ensures |r| == |s|
    ensures forall i :: 0 <= i < |s| ==> r[i] == LowerChar(s[i])
  {
    if s == "" then "" else [LowerChar(s[0])] + Lower(s[1..])
  }

  // ------------------------------------------------------------------------------ trimming

  function TrimStart(s: string): (r: string)
    ensures |r| <= |s| && r == s[|s| - |r|..]
    ensures forall i :: 0 <= i < |s| - |r| ==> IsSpace(s[i])
    ensures r != "" ==> !IsSpace(r[0])
  {
    if s != "" && IsSpace(s[0]) then TrimStart(s[1..]) else s
  }

  function TrimEnd(s: string): (r: string)
    ensures r <= s
    ensures forall i :: |r| <= i < |s| ==> IsSpace(s[i])
    ensures r != "" ==> !IsSpace(r[|r| - 1])
  {
    if s != "" && IsSpace(s[|s| - 1]) then TrimEnd(s[..|s| - 1]) else s
  }

  predicate IsTrimmed(s: string) {
    s != "" ==> !IsSpace(s[0]) && !IsSpace(s[|s| - 1])
  }

  function Trim(s: string): (r: string)
    ensures IsTrimmed(r)
    ensures IsTrimmed(s) ==> r == s
  {
    TrimEnd(TrimStart(s))
  }

  lemma NothingToTrim(s: string)
    requires s != "" && !IsSpace(s[0])
    ensures TrimStart(s) == s
  {}

  lemma TrimKeepsNonblank(s: string)
    requires s != "" && !IsSpace(s[0])
    ensures Trim(s) != ""
  {
    assert TrimStart(s) == s;
    assert forall i :: |TrimEnd(s)| <= i < |s| ==> IsSpace(s[i]);
  }

  // ----------------------------------------------------------------------------- searching

  predicate StartsAt(s: string, i: nat, p: string) {
    i + |p| <= |s| && s[i..i + |p|] == p
  }

  predicate StartsWith(s: string, p: string) {
    p <= s
  }

  predicate EndsWith(s: string, p: string) {
    |p| <= |s| && s[|s| - |p|..] == p
  }

  /** The leftmost occurrence of p at or after `from`. */
  function Find(s: string, p: string, from: nat): (r: Option<nat>)
    ensures r.Some? ==> from <= r.value && StartsAt(s, r.value, p)
    ensures r.Some? ==> forall i :: from <= i < r.value ==> !StartsAt(s, i, p)
    ensures r.None? ==> forall i :: from <= i ==> !StartsAt(s, i, p)
    decreases |s| - from
  {
    if from + |p| > |s| then None
    else if StartsAt(s, from, p) then Some(from)
    else Find(s, p, from + 1)
  }

  predicate Contains(s: string, p: string) {
    Find(s, p, 0).Some?
  }

  lemma ContainsAt(s: string, p: string, i: nat)
    requires StartsAt(s, i, p)
    ensures Contains(s, p)
  {}

  lemma StartsAtChar(s: string, i: nat, p: string, k: nat)
    requires k < |p|
    ensures StartsAt(s, i, p) ==> s[i + k] == p[k]
  {
    if StartsAt(s, i, p) { assert s[i..i + |p|][k] == p[k]; }
  }

  lemma StartsAtInSlice(s: string, lo: nat, hi: nat, k: nat, p: string)
    requires lo <= k && k + |p| <= hi <= |s|
    ensures StartsAt(s, k, p) <==> StartsAt(s[lo..hi], k - lo, p)
  {
    var a, b := s[k..k + |p|], s[lo..hi][k - lo..k - lo + |p|];
    assert |a| == |b| && forall t :: 0 <= t < |a| ==> a[t] == s[k + t] && b[t] == s[k + t];
    assert a == b;
  }

  /** The first index at or after i where the property fails, or the end. */
  function SkipSpaces(s: string, i: nat): (r: nat)
    requires i <= |s|
    ensures i <= r <= |s|
    ensures forall k :: i <= k < r ==> IsSpace(s[k])
    ensures r < |s| ==> !IsSpace(s[r])
    decreases |s| - i
  {
    if i < |s| && IsSpace(s[i]) then SkipSpaces(s, i + 1) else i
  }

  // ----------------------------------------------------------------- splitting and joining

  function IndexOfChar(s: string, c: char): (r: nat)
    ensures r <= |s|
    ensures forall k :: 0 <= k < r ==> s[k] != c
    ensures r < |s| ==> s[r] == c
  {
    if s == "" || s[0] == c then 0 else 1 + IndexOfChar(s[1..], c)
  }

  /** String.prototype.split with a one-character separator. */
  function Split(s: string, c: char): (r: seq<string>)
    ensures r != []
    ensures forall i :: 0 <= i < |r| ==> c !in r[i]
    decreases |s|
  {
    var i := IndexOfChar(s, c);
    if i == |s| then [s] else [s[..i]] + Split(s[i + 1..], c)
  }

  function Join(parts: seq<string>, sep: string): string {
    if parts == [] then ""
    else if |parts| == 1 then parts[0]
    else parts[0] + sep + Join(parts[1..], sep)
  }

  lemma IndexOfCharAt(s: string, c: char, i: nat)
    requires i < |s| && s[i] == c && c !in s[..i]
    ensures IndexOfChar(s, c) == i
  {
    assert forall k :: 0 <= k < i ==> s[k] in s[..i];
  }

  lemma SplitHead(head: string, c: char, tail: string)
    requires c !in head
    ensures Split(head + [c] + tail, c) == [head] + Split(tail, c)
  {
    var s := head + [c] + tail;
    assert s[..|head|] == head && s[|head| + 1..] == tail;
    IndexOfCharAt(s, c, |head|);
  }

  lemma {:induction false} SplitOfJoin(parts: seq<string>, c: char)
    requires parts != [] && forall i :: 0 <= i < |parts| ==> c !in parts[i]
    ensures Split(Join(parts, [c]), c) == parts
  {
    if |parts| == 1 {
      assert IndexOfChar(parts[0], c) == |parts[0]|;
    } else {
      SplitHead(parts[0], c, Join(parts[1..], [c]));
      SplitOfJoin(parts[1..], c);
    }
  }

  // ------------------------------------------------------------------- collapsing white space

  /** Every run of white space becomes one blank: replace(/\s+/g, ' '). */
  function Squeeze(s: string): (r: string)
    ensures |r| <= |s|
    decreases |s|
  {
    if s == "" then ""
    else if !IsSpace(s[0]) then [s[0]] + Squeeze(s[1..])
    else [' '] + Squeeze(s[SkipSpaces(s, 1)..])
  }

  function Collapse(s: string): string {
    Trim(Squeeze(s))
  }

  // -------------------------------------------------------------------------------------- words

  /** How long the text goes on without a break. */
  function WordEnd(s: string, isBreak: char -> bool): (r: nat)
    ensures r <= |s|
    ensures forall k :: 0 <= k < r ==> !isBreak(s[k])
    ensures r < |s| ==> isBreak(s[r])
  {
    if s == "" || isBreak(s[0]) then 0 else 1 + WordEnd(s[1..], isBreak)
  }

  /** The maximal runs of characters without a break, in order. */
  function Words(s: string, isBreak: char -> bool): (words: seq<string>)
    ensures forall i :: 0 <= i < |words| ==>
      words[i] != "" && forall k :: 0 <= k < |words[i]| ==> !isBreak(words[i][k])
    decreases |s|
  {
    if s == "" then []
    else if isBreak(s[0]) then Words(s[1..], isBreak)
    else
      var n := WordEnd(s, isBreak);
      [s[..n]] + Words(s[n..], isBreak)
  }

  lemma {:induction false} SqueezeWord(word: string, rest: string)
    requires forall k :: 0 <= k < |word| ==> !IsSpace(word[k])
    ensures Squeeze(word + rest) == word + Squeeze(rest)
  {
    hide IsSpace;
    if word == "" {
      assert word + rest == rest;
    } else {
      assert (word + rest)[1..] == word[1..] + rest;
      SqueezeWord(word[1..], rest);
      assert word == [word[0]] + word[1..];
    }
  }

  lemma {:induction false} WordsSkip(s: string, n: nat)
    requires n <= |s| && forall k :: 0 <= k < n ==> IsSpace(s[k])
    ensures Words(s, IsSpace) == Words(s[n..], IsSpace)
  {
    hide IsSpace;
    if n == 0 {
      assert s[0..] == s;
    } else {
      WordsSkip(s[1..], n - 1);
      assert s[1..][n - 1..] == s[n..];
    }
  }

  lemma {:induction false} TrimEndKeepsFront(front: string, rest: string)
    requires TrimEnd(rest) != ""
    ensures TrimEnd(front + rest) == front + TrimEnd(rest)
    decreases |rest|
  {
    hide IsSpace;
    var all := front + rest;
    if IsSpace(rest[|rest| - 1]) {
      assert all[..|all| - 1] == front + rest[..|rest| - 1];
      TrimEndKeepsFront(front, rest[..|rest| - 1]);
    } else {
      assert TrimEnd(rest) == rest;
    }
  }

  lemma TrimEndOfWord(word: string)
    requires word != "" && forall k :: 0 <= k < |word| ==> !IsSpace(word[k])
    ensures TrimEnd(word) == TrimEnd(word + " ") == word
  {
    assert (word + " ")[..|word|] == word;
  }

  lemma JoinCons(word: string, rest: seq<string>)
    ensures Join([word] + rest, " ") == if rest == [] then word else word + " " + Join(rest, " ")
  {
    assert ([word] + rest)[1..] == rest;
  }

  lemma FirstOfWords(s: string, isBreak: char -> bool)
    requires s != "" && !isBreak(s[0])
    ensures var n := WordEnd(s, isBreak);
      && n > 0 && (n < |s| ==> isBreak(s[n])) && (forall k :: 0 <= k < n ==> !isBreak(s[k]))
      && Words(s, isBreak) == [s[..n]] + Words(s[n..], isBreak)
  {}

  lemma FirstWord(s: string) returns (word: string, rest: string)
    requires s != "" && !IsSpace(s[0])
    ensures s == word + rest && word != "" && (rest != "" ==> IsSpace(rest[0]))
    ensures forall k :: 0 <= k < |word| ==> !IsSpace(word[k])
    ensures Words(s, IsSpace) == [word] + Words(rest, IsSpace) && Squeeze(s) == word + Squeeze(rest)
  {
    hide IsSpace, Squeeze, Words, WordEnd;
    FirstOfWords(s, IsSpace);
    var n := WordEnd(s, IsSpace);
    word, rest := s[..n], s[n..];
    SqueezeWord(word, rest);
  }

  lemma FirstGap(s: string)
    requires s != "" && IsSpace(s[0])
    ensures var tail := s[SkipSpaces(s, 1)..];
      && |tail| < |s| && (tail != "" ==> !IsSpace(tail[0]))
      && Words(s, IsSpace) == Words(tail, IsSpace) && Squeeze(s) == " " + Squeeze(tail)
  {
    hide IsSpace, Words;
    WordsSkip(s, SkipSpaces(s, 1));
  }

  lemma NothingLeft()
    ensures Words("", IsSpace) == [] && Squeeze("") == "" && TrimEnd("") == "" && TrimEnd(" ") == ""
  {
    assert " "[..0] == "";
  }

  /** The blanks between two words of a text that starts with one. */
  lemma {:induction false} SqueezedWords(s: string)
    requires s != "" && !IsSpace(s[0])
    ensures Words(s, IsSpace) != [] && TrimEnd(Squeeze(s)) == Join(Words(s, IsSpace), " ") != ""
    decreases |s|
  {
    hide IsSpace, Join, TrimEnd, Squeeze, Words, WordEnd;
    var word, rest := FirstWord(s);
    NothingLeft();
    TrimEndOfWord(word);
    JoinCons(word, Words(rest, IsSpace));
    if rest == "" {
      assert word + "" == word;
    } else {
      FirstGap(rest);
      var tail := rest[SkipSpaces(rest, 1)..];
      if tail == "" {
        assert word + (" " + "") == word + " ";
      } else {
        SqueezedWords(tail);
        NextWords(word, Squeeze(tail));
      }
    }
  }

  lemma NextWords(word: string, tail: string)
    requires TrimEnd(tail) != ""
    ensures TrimEnd(word + (" " + tail)) == word + " " + TrimEnd(tail)
  {
    hide TrimEnd;
    assert word + (" " + tail) == word + " " + tail;
    TrimEndKeepsFront(word + " ", tail);
  }

  lemma TrimStartOfGap(s: string)
    requires s != "" ==> !IsSpace(s[0])
    ensures TrimStart(" " + s) == TrimStart(s) == s
  {
    assert (" " + s)[1..] == s;
  }

  /** Collapsing a text leaves its words, with single blanks between them. */
  lemma CollapseIsWords(s: string)
    ensures Collapse(s) == Join(Words(s, IsSpace), " ")
  {
    hide IsSpace, TrimStart, TrimEnd, Squeeze, Words, WordEnd;
    NothingLeft();
    if s == "" {
      TrimStartOfGap("");
    } else if !IsSpace(s[0]) {
      SqueezedWords(s);
      SqueezeStarts(s);
      TrimStartOfGap(Squeeze(s));
    } else {
      FirstGap(s);
      var tail := s[SkipSpaces(s, 1)..];
      if tail == "" {
        TrimStartOfGap("");
      } else {
        SqueezedWords(tail);
        SqueezeStarts(tail);
        TrimStartOfGap(Squeeze(tail));
      }
    }
  }

  lemma SqueezeStarts(s: string)
    requires s != "" && !IsSpace(s[0])
    ensures Squeeze(s) != "" && Squeeze(s)[0] == s[0]
  {}

  lemma BlankIsSpace()
    ensures IsSpace(' ')
  {}

  lemma NoBlankInWords(words: seq<string>)
    requires forall i :: 0 <= i < |words| ==> forall k :: 0 <= k < |words[i]| ==> !IsSpace(words[i][k])
    ensures forall i :: 0 <= i < |words| ==> ' ' !in words[i]
  {
    BlankIsSpace();
  }

  /** Words can be read off their joined text. */
  lemma JoinedWordsDiffer(a: seq<string>, b: seq<string>)
    requires forall i :: 0 <= i < |a| ==> a[i] != "" && ' ' !in a[i]
    requires forall i :: 0 <= i < |b| ==> b[i] != "" && ' ' !in b[i]
    ensures Join(a, " ") == Join(b, " ") <==> a == b
  {
    if a != [] && b != [] {
      SplitOfJoin(a, ' ');
      SplitOfJoin(b, ' ');
      assert [' '] == " ";
    }
  }

  /** So two texts collapse alike if and only if they have the same words. */
  lemma CollapseAlikeIff(a: string, b: string)
    ensures Collapse(a) == Collapse(b) <==> Words(a, IsSpace) == Words(b, IsSpace)
  {
    hide Collapse, Join;
    CollapseIsWords(a);
    CollapseIsWords(b);
    NoBlankInWords(Words(a, IsSpace));
    NoBlankInWords(Words(b, IsSpace));
    JoinedWordsDiffer(Words(a, IsSpace), Words(b, IsSpace));
  }
}
