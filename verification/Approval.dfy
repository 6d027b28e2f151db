/** Approving and rejecting pending questions, with the awaited database calls of any number of requests
    interleaved, and the save into the table of stored questions that an approval makes. */
module Approval {
  import opened Text

  // ------------------------------------------------------------------------ normalised questions

  predicate IsPunctuation(c: char) {
    c in {'.', ',', '!', '?', ';', ':'}
  }

  /** Punctuation becomes blank; the runs this leaves are squeezed afterwards. */
  function Blanked(s: string): (r: string)
    ensures |r| == |s| && forall i :: 0 <= i < |s| ==> r[i] == if IsPunctuation(s[i]) then ' ' else s[i]
  {
    if s == "" then "" else [if IsPunctuation(s[0]) then ' ' else s[0]] + Blanked(s[1..])
  }

  /** normalizeQuestion; `fold` stands for lower-casing followed by Unicode composition. */
  function Normalize(fold: string -> string, question: string): string {
    Collapse(Blanked(fold(question)))
  }

  /** Only single blanks, and none next to another. */
  ghost predicate Squeezed(s: string) {
    forall i :: 0 <= i < |s| && IsSpace(s[i]) ==> s[i] == ' ' && (i + 1 < |s| ==> !IsSpace(s[i + 1]))
  }

  lemma PrependSqueezed(head: char, tail: string)
    requires Squeezed(tail) && (IsSpace(head) ==> head == ' ' && (tail != "" ==> !IsSpace(tail[0])))
    ensures Squeezed([head] + tail)
  {
    hide IsSpace;
    var all := [head] + tail;
    assert forall i :: 0 < i < |all| ==> all[i] == tail[i - 1];
  }

  lemma {:induction false} SqueezeSqueezes(s: string)
    ensures Squeezed(Squeeze(s))
    ensures forall c :: c in Squeeze(s) ==> c == ' ' || c in s
    ensures s != "" ==> Squeeze(s) != "" && (IsSpace(Squeeze(s)[0]) ==> IsSpace(s[0]))
    decreases |s|
  {
    hide Squeezed;
    if s == "" {
      NothingSqueezed();
    } else {
      var n := if IsSpace(s[0]) then SkipSpaces(s, 1) else 1;
      var head := if IsSpace(s[0]) then ' ' else s[0];
      assert Squeeze(s) == [head] + Squeeze(s[n..]);
      SqueezeSqueezes(s[n..]);
      PrependSqueezed(head, Squeeze(s[n..]));
    }
  }

  lemma NothingSqueezed()
    ensures Squeezed("") && Squeeze("") == ""
  {}

  lemma {:induction false} SqueezeLeavesSqueezed(s: string)
    requires Squeezed(s)
    ensures Squeeze(s) == s
    decreases |s|
  {
    if s == "" {
    } else {
      assert Squeezed(s[1..]) by { assert forall i :: 0 <= i < |s| - 1 ==> s[1..][i] == s[i + 1]; }
      SqueezeLeavesSqueezed(s[1..]);
      assert SkipSpaces(s, 1) == 1 || !IsSpace(s[0]);
      assert s == [s[0]] + s[1..];
    }
  }

  lemma TrimIsSlice(s: string) returns (lo: nat, hi: nat)
    ensures lo <= hi <= |s| && Trim(s) == s[lo..hi]
  {
    var start := TrimStart(s);
    lo, hi := |s| - |start|, |s| - |start| + |TrimEnd(start)|;
  }

  /** A normalised question has no punctuation and no blank at its ends or next to another; so
      normalising it again, when folding leaves it alone, changes nothing. */
  lemma NormalizeIsStable(fold: string -> string, question: string)
    ensures var n := Normalize(fold, question);
      IsTrimmed(n) && Squeezed(n) && forall i :: 0 <= i < |n| ==> !IsPunctuation(n[i])
    ensures var n := Normalize(fold, question); fold(n) == n ==> Normalize(fold, n) == n
  {
    var blanked := Blanked(fold(question));
    var squeezed := Squeeze(blanked);
    SqueezeSqueezes(blanked);
    var lo, hi := TrimIsSlice(squeezed);
    var n := Trim(squeezed);
    hide Squeeze, Trim, Blanked;
    forall i | 0 <= i < |n| ensures !IsPunctuation(n[i]) { assert n[i] == squeezed[lo + i]; assert n[i] in squeezed; }
    assert forall i :: 0 <= i < |n| ==> n[i] == squeezed[lo + i];
    assert Squeezed(n);
    SqueezeLeavesSqueezed(n);
    assert Blanked(n) == n;
  }

  /** What separates the words of a question. */
  predicate IsBreak(c: char) {
    IsSpace(c) || c in {'.', ',', '!', '?', ';', ':'}
  }

  lemma BlankedAt(s: string, n: nat)
    requires n <= |s|
    ensures Blanked(s)[n..] == Blanked(s[n..])
    ensures (forall k :: 0 <= k < n ==> !IsBreak(s[k])) ==> Blanked(s)[..n] == s[..n]
  {
    hide IsSpace, Blanked;
    var a, b := Blanked(s)[n..], Blanked(s[n..]);
    assert |a| == |b| && forall k :: 0 <= k < |a| ==> a[k] == b[k];
    if forall k :: 0 <= k < n ==> !IsBreak(s[k]) {
      assert forall k :: 0 <= k < n ==> Blanked(s)[k] == s[k];
    }
  }

  lemma BlankedBreaks(s: string)
    ensures s != "" ==> (IsSpace(Blanked(s)[0]) <==> IsBreak(s[0]))
    ensures WordEnd(Blanked(s), IsSpace) == WordEnd(s, IsBreak)
  {
    var b := Blanked(s);
    var m, n := WordEnd(b, IsSpace), WordEnd(s, IsBreak);
    assert forall k :: 0 <= k < |s| ==> (IsSpace(b[k]) <==> IsBreak(s[k]));
  }

  lemma {:induction false} BlankedWords(s: string)
    ensures Words(Blanked(s), IsSpace) == Words(s, IsBreak)
    decreases |s|
  {
    hide IsSpace, IsBreak, Blanked;
    BlankedBreaks(s);
    if s == "" {
    } else if IsBreak(s[0]) {
      BlankedAt(s, 1);
      BlankedWords(s[1..]);
    } else {
      FirstOfWords(s, IsBreak);
      FirstOfWords(Blanked(s), IsSpace);
      var n := WordEnd(s, IsBreak);
      BlankedAt(s, n);
      BlankedWords(s[n..]);
    }
  }

  /** A normalised question is the words of the folded question with single blanks between them. */
  lemma NormalizeIsWords(fold: string -> string, question: string)
    ensures Normalize(fold, question) == Join(Words(fold(question), IsBreak), " ")
  {
    hide Collapse, Words, Blanked;
    CollapseIsWords(Blanked(fold(question)));
    BlankedWords(fold(question));
  }

  // ---------------------------------------------------------------------------------- the store

  // The table of stored questions is searched and written as the vector store does it: the newest row that
  // contains a text, a lookup by SQL template, and an upsert under two unique indexes.  Searches by embedding
  // may answer anything (`Oracle`).

  /** What the module takes from outside: lower-casing with Unicode composition, the database's ILIKE test of a
      question against a search term, and the normalised SQL template ("" when there is none). */
  datatype Host = Host(fold: string -> string, like: (string, string) -> bool, template: string -> string)

  /** A row of sql_qa; rows are listed in the order of their creation. */
  datatype Entry = Entry(question: string, sql: string, template: Option<string>)

  function NewEntry(host: Host, question: string, sql: string): Entry {
    Entry(question, sql, if host.template(sql) == "" then None else Some(host.template(sql)))
  }

  predicate Matches(host: Host, e: Entry, question: string) {
    Normalize(host.fold, e.question) == Normalize(host.fold, question)
  }

  /** An entry matches a question if and only if the two have the same folded words in the same order. */
  lemma MatchesIff(host: Host, e: Entry, question: string)
    ensures Matches(host, e, question)
      <==> Words(host.fold(e.question), IsBreak) == Words(host.fold(question), IsBreak)
  {
    hide Normalize, Words, Blanked, IsSpace, Join, Collapse;
    var a, b := host.fold(e.question), host.fold(question);
    CollapseAlikeIff(Blanked(a), Blanked(b));
    BlankedWords(a);
    BlankedWords(b);
    assert Matches(host, e, question) <==> Collapse(Blanked(a)) == Collapse(Blanked(b)) by {
      NormalizeIsCollapse(host.fold, e.question);
      NormalizeIsCollapse(host.fold, question);
    }
  }

  lemma NormalizeIsCollapse(fold: string -> string, question: string)
    ensures Normalize(fold, question) == Collapse(Blanked(fold(question)))
  {
    hide Collapse, Blanked;
  }

  predicate Hits(host: Host, e: Entry, term: string) {
    term == "" || host.like(e.question, term)
  }

  /** searchSqlQA with limit 1: the newest row that hits. */
  function Newest(host: Host, store: seq<Entry>, term: string): (r: Option<nat>)
    ensures r.Some? ==> r.value < |store|
  {
    if store == [] then None
    else if Hits(host, store[|store| - 1], term) then Some(|store| - 1)
    else Newest(host, store[..|store| - 1], term)
  }

  /** The exact search: the newest hit of the normalised question, if it normalises alike. */
  function FindExact(host: Host, store: seq<Entry>, question: string): (r: Option<nat>)
    ensures r.Some? ==> r.value < |store| && Matches(host, store[r.value], question)
  {
    var hit := Newest(host, store, Normalize(host.fold, question));
    if hit.Some? && Matches(host, store[hit.value], question) then hit else None
  }

  lemma {:induction false} NewestIff(host: Host, store: seq<Entry>, term: string, i: nat)
    ensures Newest(host, store, term) == Some(i)
      <==> i < |store| && Hits(host, store[i], term) && forall j :: i < j < |store| ==> !Hits(host, store[j], term)
  {
    if store == [] {
    } else {
      NewestIff(host, store[..|store| - 1], term, i);
    }
  }

  /** The exact search finds a row if and only if the row normalises alike, contains the normalised question, and
      no newer row contains it; a row with punctuation inside may therefore be missed. */
  lemma ExactFindsIff(host: Host, store: seq<Entry>, question: string, i: nat)
    ensures var term := Normalize(host.fold, question);
      FindExact(host, store, question) == Some(i)
      <==> i < |store| && Matches(host, store[i], question) && Hits(host, store[i], term)
           && forall j :: i < j < |store| ==> !Hits(host, store[j], term)
    ensures forall e, term :: Hits(host, e, term) <==> term == "" || host.like(e.question, term)
  {
    hide Normalize, Newest;
    NewestIff(host, store, Normalize(host.fold, question), i);
  }

  function FindTemplate(store: seq<Entry>, template: string): (r: Option<nat>)
    ensures r.Some? ==> r.value < |store| && store[r.value].template == Some(template)
    ensures r.None? ==> forall i :: 0 <= i < |store| ==> store[i].template != Some(template)
  {
    if store == [] then None
    else if store[|store| - 1].template == Some(template) then Some(|store| - 1)
    else FindTemplate(store[..|store| - 1], template)
  }

  function FindQuestion(store: seq<Entry>, question: string): (r: Option<nat>)
    ensures r.Some? ==> r.value < |store| && store[r.value].question == question
    ensures r.None? ==> forall i :: 0 <= i < |store| ==> store[i].question != question
  {
    if store == [] then None
    else if store[|store| - 1].question == question then Some(|store| - 1)
    else FindQuestion(store[..|store| - 1], question)
  }

  /** The two unique indexes of the table. */
  ghost predicate Indexed(store: seq<Entry>) {
    forall i, j :: 0 <= i < j < |store| ==>
      store[i].question != store[j].question && (store[i].template.Some? ==> store[i].template != store[j].template)
  }

  /** The row an upsert runs into: the one with the template, or, without a template, the one with the question. */
  function Target(host: Host, store: seq<Entry>, question: string, sql: string): (r: Option<nat>)
    ensures r.Some? ==> r.value < |store|
  {
    if host.template(sql) != "" then FindTemplate(store, host.template(sql)) else FindQuestion(store, question)
  }

  datatype Upserted = Upserted(store: seq<Entry>, entry: nat)

  predicate QuestionTaken(store: seq<Entry>, question: string, target: Option<nat>) {
    exists i :: 0 <= i < |store| && store[i].question == question && target != Some(i)
  }

  /** Insert, or overwrite the row in the way; None when another row already has the question. */
  function Upsert(host: Host, store: seq<Entry>, question: string, sql: string): (r: Option<Upserted>) {
    var target := Target(host, store, question, sql);
    var row := NewEntry(host, question, sql);
    if QuestionTaken(store, question, target) then None
    else match target
      case Some(i) => Some(Upserted(store[i := row], i))
      case None => Some(Upserted(store + [row], |store|))
  }

  /** An upsert that the database accepts leaves the new row at its place, touches no other, and keeps both
      indexes; it fails if and only if another row has the question. */
  lemma UpsertStores(host: Host, store: seq<Entry>, question: string, sql: string)
    ensures var r := Upsert(host, store, question, sql); var target := Target(host, store, question, sql);
      && (r.None? <==> QuestionTaken(store, question, target))
      && (r.Some? ==>
            && r.value.entry < |r.value.store| && r.value.store[r.value.entry] == NewEntry(host, question, sql)
            && |r.value.store| == |store| + (if target.Some? then 0 else 1)
            && (forall i :: 0 <= i < |store| && i != r.value.entry ==> r.value.store[i] == store[i])
            && (r.value.entry < |store| <==> target.Some?)
            && (r.value.entry < |store| ==> target == Some(r.value.entry))
            && (Indexed(store) ==> Indexed(r.value.store)))
  {}

  ghost predicate UniqueQuestions(host: Host, store: seq<Entry>) {
    forall i, j :: 0 <= i < j < |store| ==> !Matches(host, store[i], store[j].question)
  }

  /** An upsert keeps normalised questions unique if and only if no row but the one it overwrites matches. */
  lemma UpsertKeepsUniqueIff(host: Host, store: seq<Entry>, question: string, sql: string)
    requires UniqueQuestions(host, store) && Upsert(host, store, question, sql).Some?
    ensures var r := Upsert(host, store, question, sql).value;
      UniqueQuestions(host, r.store)
      <==> forall i :: 0 <= i < |store| && i != r.entry ==> !Matches(host, store[i], question)
  {
    hide Normalize, Upsert, Indexed;
    UpsertStores(host, store, question, sql);
    var r := Upsert(host, store, question, sql).value;
    if UniqueQuestions(host, r.store) {
      forall i | 0 <= i < |store| && i != r.entry ensures !Matches(host, store[i], question) {
        assert r.store[i] == store[i];
        assert if i < r.entry then !Matches(host, r.store[i], r.store[r.entry].question)
               else !Matches(host, r.store[r.entry], r.store[i].question);
      }
    }
  }

  /** The nearest stored question and its score; a score need not be a number. */
  datatype Top = Top(score: Option<real>, question: string)

  /** What the outside world answers in one step: whether the call throws, whether it comes back with an error
      that the code ignores, and the nearest question. */
  datatype Oracle = Oracle(throws: bool, ignoredError: bool, top: Option<Top>)

  // ---------------------------------------------------------------------------- the protocol

  datatype Status = Pending | Approved | Rejected

  /** A row under review; `question` is the canonical one when the row has it. */
  datatype Row = Row(question: string, sql: string, status: Status, approvedAt: nat)

  /** Why a store entry stands for the approved question. */
  datatype How =
    | SameQuestion
    | JudgedSimilar(score: Option<real>)
    | SameSql(score: Option<real>)
    | SameTemplate
    | Stored

  /** The entry an approval relies on, as it was when the approval settled on it. */
  datatype Backing = Backing(how: How, entry: nat, seen: Entry)

  datatype Phase =
    | Start
    | ExactSearch | ReuseSearch | ReuseLookup(score: Option<real>, near: string)
    | DuplicateSearch | DuplicateLookup(score: Option<real>, near: string)
    | TemplateLookup | UpsertRow
    | AddChunk(basis: Backing)
    | Commit(basis: Backing)
    | Done(basis: Backing)
    | RejectStart | RejectWrite(readAt: nat) | RejectDone
    | Failed

  /** One request about one row: where it stands and the question and SQL it has read. */
  datatype Actor = Actor(row: nat, phase: Phase, question: string, sql: string)

  datatype State = State(rows: map<nat, Row>, store: seq<Entry>, actors: seq<Actor>, clock: nat)

  datatype Event = Event(actor: nat, oracle: Oracle)

  function At(s: State, a: nat, phase: Phase): State
    requires a < |s.actors|
  {
    s.(actors := s.actors[a := s.actors[a].(phase := phase)])
  }

  predicate IsPending(s: State, id: nat) {
    id in s.rows && s.rows[id].status == Pending
  }

  function ReadForApproval(s: State, a: nat): State
    requires a < |s.actors|
  {
    var id := s.actors[a].row;
    if !IsPending(s, id) || s.rows[id].sql == "" then At(s, a, Failed)
    else s.(actors := s.actors[a := Actor(id, ExactSearch, s.rows[id].question, s.rows[id].sql)])
  }

  /** Is there a nearest question good enough to be looked up?  A score that is not a number passes the
      reuse test but not the duplicate test. */
  predicate NearEnough(top: Option<Top>, unscored: bool) {
    top.Some? && top.value.question != ""
    && (if top.value.score.None? then unscored else top.value.score.value >= 0.95)
  }

  /** After one call of a save: the store and what comes next. */
  datatype Move = Move(store: seq<Entry>, phase: Phase)

  function ToStore(host: Host, sql: string): Phase {
    if host.template(sql) == "" then UpsertRow else TemplateLookup
  }

  /** The saving of the question: from the exact search to the new chunk, one call at a time. */
  function SaveMove(host: Host, store: seq<Entry>, question: string, sql: string, phase: Phase, o: Oracle): Move {
    match phase
    case ExactSearch =>
      var hit := FindExact(host, store, question);
      Move(store, if o.throws then Failed
                  else if hit.Some? then Commit(Backing(SameQuestion, hit.value, store[hit.value]))
                  else ReuseSearch)
    case ReuseSearch =>
      Move(store, if o.throws then Failed
                  else if NearEnough(o.top, true) then ReuseLookup(o.top.value.score, o.top.value.question)
                  else DuplicateSearch)
    case ReuseLookup(score, near) =>
      var hit := Newest(host, store, near);
      Move(store, if o.throws then Failed
                  else if hit.Some? && store[hit.value].sql != "" then
                    Commit(Backing(JudgedSimilar(score), hit.value, store[hit.value]))
                  else DuplicateSearch)
    case DuplicateSearch =>
      Move(store, if !o.throws && NearEnough(o.top, false) then DuplicateLookup(o.top.value.score, o.top.value.question)
                  else ToStore(host, sql))
    case DuplicateLookup(score, near) =>
      var hit := Newest(host, store, near);
      Move(store, if !o.throws && hit.Some? && store[hit.value].sql == sql then
                    Commit(Backing(SameSql(score), hit.value, store[hit.value]))
                  else ToStore(host, sql))
    case TemplateLookup =>
      var hit := FindTemplate(store, host.template(sql));
      Move(store, if o.throws then Failed
                  else if !o.ignoredError && hit.Some? then AddChunk(Backing(SameTemplate, hit.value, store[hit.value]))
                  else UpsertRow)
    case UpsertRow =>
      (match Upsert(host, store, question, sql)
       case Some(r) =>
         if o.throws then Move(store, Failed)
         else Move(r.store, AddChunk(Backing(Stored, r.entry, NewEntry(host, question, sql))))
       case None => Move(store, Failed))
    case AddChunk(basis) => Move(store, if o.throws then Failed else Commit(basis))
    case _ => Move(store, phase)
  }

  function SaveStep(host: Host, s: State, a: nat, o: Oracle): State
    requires a < |s.actors|
  {
    var me := s.actors[a];
    var m := SaveMove(host, s.store, me.question, me.sql, me.phase, o);
    At(s.(store := m.store), a, m.phase)
  }

  /** The transaction: read the row again and approve it only if it is still pending. */
  function CommitStep(s: State, a: nat, o: Oracle): State
    requires a < |s.actors| && s.actors[a].phase.Commit?
  {
    var id := s.actors[a].row;
    if o.throws || !IsPending(s, id) then At(s, a, Failed)
    else
      var approved := s.rows[id].(status := Approved, approvedAt := s.clock);
      At(s.(rows := s.rows[id := approved]), a, Done(s.actors[a].phase.basis))
  }

  /** Rejecting reads first and then writes whatever the status has become. */
  function RejectStep(s: State, a: nat, o: Oracle): State
    requires a < |s.actors|
  {
    var id := s.actors[a].row;
    match s.actors[a].phase
    case RejectStart => At(s, a, if o.throws || !IsPending(s, id) then Failed else RejectWrite(s.clock))
    case RejectWrite(_) =>
      if o.throws || id !in s.rows then At(s, a, Failed)
      else At(s.(rows := s.rows[id := s.rows[id].(status := Rejected)]), a, RejectDone)
    case _ => s
  }

  function Step(host: Host, s: State, e: Event): State {
    if e.actor >= |s.actors| then s else
    var s1 := match s.actors[e.actor].phase
      case Start => if e.oracle.throws then At(s, e.actor, Failed) else ReadForApproval(s, e.actor)
      case Commit(_) => CommitStep(s, e.actor, e.oracle)
      case RejectStart | RejectWrite(_) => RejectStep(s, e.actor, e.oracle)
      case _ => SaveStep(host, s, e.actor, e.oracle);
    s1.(clock := s.clock + 1)
  }

  function Run(host: Host, s: State, events: seq<Event>): State
    decreases |events|
  {
    if events == [] then s else Run(host, Step(host, s, events[0]), events[1..])
  }

  /** Requests that have not begun yet, and rows nobody has decided. */
  ghost predicate Fresh(s: State) {
    && (forall id :: id in s.rows ==> s.rows[id].status == Pending)
    && forall a :: 0 <= a < |s.actors| ==> s.actors[a].phase in {Start, RejectStart}
  }

  // -------------------------------------------------------------------------- what runs keep

  predicate GoodScore(score: Option<real>) {
    score.Some? ==> score.value >= 0.95
  }

  predicate Saving(phase: Phase) {
    phase.ExactSearch? || phase.ReuseSearch? || phase.ReuseLookup? || phase.DuplicateSearch?
    || phase.DuplicateLookup? || phase.TemplateLookup? || phase.UpsertRow?
  }

  predicate Relies(phase: Phase) {
    phase.AddChunk? || phase.Commit? || phase.Done?
  }

  /** The entry stood for the question in the way claimed. */
  ghost predicate Backed(host: Host, question: string, sql: string, basis: Backing) {
    && sql != ""
    && match basis.how
       case SameQuestion => Matches(host, basis.seen, question)
       case JudgedSimilar(score) => basis.seen.sql != "" && GoodScore(score)
       case SameSql(score) => basis.seen.sql == sql && score.Some? && GoodScore(score)
       case SameTemplate => host.template(sql) != "" && basis.seen.template == Some(host.template(sql))
       case Stored => basis.seen == NewEntry(host, question, sql)
  }

  ghost predicate SavingSound(host: Host, store: seq<Entry>, question: string, sql: string, phase: Phase) {
    && (Saving(phase) ==> sql != "")
    && (phase.ReuseLookup? ==> GoodScore(phase.score))
    && (phase.DuplicateLookup? ==> phase.score.Some? && GoodScore(phase.score))
    && (phase.TemplateLookup? ==> host.template(sql) != "")
    && (Relies(phase) ==> Backed(host, question, sql, phase.basis) && phase.basis.entry < |store|)
  }

  ghost predicate ActorSound(host: Host, s: State, me: Actor) {
    && SavingSound(host, s.store, me.question, me.sql, me.phase)
    && (me.phase.Done? ==> me.row in s.rows && !IsPending(s, me.row))
    && (me.phase.RejectWrite? ==> me.phase.readAt < s.clock)
    && (me.phase.RejectWrite? && me.row in s.rows && s.rows[me.row].status == Approved ==>
          me.phase.readAt <= s.rows[me.row].approvedAt)
  }

  ghost predicate Invariant(host: Host, s: State) {
    && (forall a :: 0 <= a < |s.actors| ==> ActorSound(host, s, s.actors[a]))
    && (forall a, b :: 0 <= a < b < |s.actors| && s.actors[a].phase.Done? && s.actors[b].phase.Done? ==>
          s.actors[a].row != s.actors[b].row)
  }

  ghost predicate RowProgress(s: State, s': State, id: nat) {
    && (id in s.rows <==> id in s'.rows)
    && (!IsPending(s, id) ==> !IsPending(s', id))
    && (id in s'.rows && s'.rows[id].status == Approved ==>
          s.rows[id] == s'.rows[id] || (s'.rows[id].approvedAt == s.clock && IsPending(s, id)))
  }

  /** Someone else's step: no store entry disappears, the clock ticks, a status only leaves Pending, and an
      approval is stamped with the present. */
  ghost predicate Progress(s: State, s': State) {
    && |s.store| <= |s'.store| && s.clock < s'.clock
    && (forall id :: RowProgress(s, s', id))
  }

  lemma SoundUnderProgress(host: Host, s: State, s': State, me: Actor)
    requires ActorSound(host, s, me) && Progress(s, s')
    ensures ActorSound(host, s', me)
  {
    hide Backed, Normalize;
    assert RowProgress(s, s', me.row);
  }

  lemma SaveMoveGrows(host: Host, store: seq<Entry>, question: string, sql: string, phase: Phase, o: Oracle)
    ensures |store| <= |SaveMove(host, store, question, sql, phase, o).store|
  {
    hide FindExact, Newest, NearEnough, FindTemplate, Upsert, Indexed;
    UpsertStores(host, store, question, sql);
  }

  lemma StepProgresses(host: Host, s: State, e: Event)
    ensures e.actor < |s.actors| ==> Progress(s, Step(host, s, e))
    ensures |Step(host, s, e).actors| == |s.actors|
    ensures forall b :: 0 <= b < |s.actors| ==> Step(host, s, e).actors[b].row == s.actors[b].row
    ensures forall b :: 0 <= b < |s.actors| && b != e.actor ==> Step(host, s, e).actors[b] == s.actors[b]
  {
    hide SaveMove;
    if e.actor < |s.actors| {
      var me := s.actors[e.actor];
      SaveMoveGrows(host, s.store, me.question, me.sql, me.phase, e.oracle);
    }
  }

  lemma SearchKeepsSound(host: Host, store: seq<Entry>, question: string, sql: string, phase: Phase, o: Oracle)
    requires SavingSound(host, store, question, sql, phase)
    requires phase.ExactSearch? || phase.ReuseSearch? || phase.ReuseLookup?
          || phase.DuplicateSearch? || phase.DuplicateLookup?
    ensures var m := SaveMove(host, store, question, sql, phase, o);
      m.store == store && SavingSound(host, m.store, question, sql, m.phase)
  {
    hide Matches, Newest, FindExact, FindTemplate, Upsert, NewEntry, Normalize;
    match phase
    case ExactSearch =>
    case ReuseSearch =>
    case ReuseLookup(_, near) => assert Newest(host, store, near).Some? ==> Newest(host, store, near).value < |store|;
    case DuplicateSearch =>
    case _ =>
  }

  lemma StoringKeepsSound(host: Host, store: seq<Entry>, question: string, sql: string, phase: Phase, o: Oracle)
    requires SavingSound(host, store, question, sql, phase)
    requires phase.TemplateLookup? || phase.UpsertRow? || phase.AddChunk?
    ensures var m := SaveMove(host, store, question, sql, phase, o);
      SavingSound(host, m.store, question, sql, m.phase)
  {
    hide Matches, FindExact, Newest, NearEnough, FindTemplate, Upsert, Indexed, NewEntry;
    UpsertStores(host, store, question, sql);
  }

  lemma SaveMoveKeepsSound(host: Host, store: seq<Entry>, question: string, sql: string, phase: Phase, o: Oracle)
    requires SavingSound(host, store, question, sql, phase) && (Saving(phase) || phase.AddChunk?)
    ensures var m := SaveMove(host, store, question, sql, phase, o);
      SavingSound(host, m.store, question, sql, m.phase)
  {
    hide SaveMove, SavingSound;
    if phase.TemplateLookup? || phase.UpsertRow? || phase.AddChunk? {
      StoringKeepsSound(host, store, question, sql, phase, o);
    } else {
      SearchKeepsSound(host, store, question, sql, phase, o);
    }
  }

  lemma SaveKeepsActorSound(host: Host, s: State, a: nat, o: Oracle)
    requires a < |s.actors| && ActorSound(host, s, s.actors[a])
    requires Saving(s.actors[a].phase) || s.actors[a].phase.AddChunk?
    ensures ActorSound(host, SaveStep(host, s, a, o), SaveStep(host, s, a, o).actors[a])
    ensures SaveStep(host, s, a, o).clock == s.clock && SaveStep(host, s, a, o).rows == s.rows
  {
    var me := s.actors[a];
    SaveMoveKeepsSound(host, s.store, me.question, me.sql, me.phase, o);
    SaveMoveStaysSaving(host, s.store, me.question, me.sql, me.phase, o);
    hide SaveMove, SavingSound;
  }

  lemma SaveMoveStaysSaving(host: Host, store: seq<Entry>, question: string, sql: string, phase: Phase, o: Oracle)
    requires Saving(phase) || phase.AddChunk?
    ensures var next := SaveMove(host, store, question, sql, phase, o).phase;
      Saving(next) || next.AddChunk? || next.Commit? || next.Failed?
  {
    hide FindExact, Newest, FindTemplate, Upsert, NearEnough;
  }

  lemma DecisionKeepsActorSound(host: Host, s: State, a: nat, o: Oracle)
    requires a < |s.actors| && ActorSound(host, s, s.actors[a])
    ensures s.actors[a].phase.Commit? ==> ActorSound(host, CommitStep(s, a, o), CommitStep(s, a, o).actors[a])
    ensures s.actors[a].phase.RejectWrite? ==> ActorSound(host, RejectStep(s, a, o), RejectStep(s, a, o).actors[a])
  {
    hide Backed;
  }

  lemma StepKeepsActorSound(host: Host, s: State, e: Event)
    requires e.actor < |s.actors| && ActorSound(host, s, s.actors[e.actor])
    ensures ActorSound(host, Step(host, s, e), Step(host, s, e).actors[e.actor])
  {
    hide Backed, SaveStep;
    var phase := s.actors[e.actor].phase;
    if Saving(phase) || phase.AddChunk? {
      SaveKeepsActorSound(host, s, e.actor, e.oracle);
    } else {
      DecisionKeepsActorSound(host, s, e.actor, e.oracle);
      RestingStays(host, s, e.actor, e.oracle);
    }
  }

  /** A request that is not saving is not moved by a saving step. */
  lemma RestingStays(host: Host, s: State, a: nat, o: Oracle)
    requires a < |s.actors| && !Saving(s.actors[a].phase) && !s.actors[a].phase.AddChunk?
    ensures SaveStep(host, s, a, o) == s
  {}

  lemma StepCommitsOnlyPending(host: Host, s: State, e: Event)
    requires e.actor < |s.actors| && Step(host, s, e).actors[e.actor].phase.Done?
    ensures IsPending(s, s.actors[e.actor].row) || s.actors[e.actor].phase.Done?
  {
    hide SaveMove;
    var me := s.actors[e.actor];
    if Saving(me.phase) || me.phase.AddChunk? {
      SaveMoveStaysSaving(host, s.store, me.question, me.sql, me.phase, e.oracle);
    } else {
      RestingStays(host, s, e.actor, e.oracle);
    }
  }

  lemma StepKeepsInvariant(host: Host, s: State, e: Event)
    requires Invariant(host, s)
    ensures Invariant(host, Step(host, s, e))
  {
    if e.actor < |s.actors| {
      StepProgresses(host, s, e);
      StepKeepsActorSound(host, s, e);
      if Step(host, s, e).actors[e.actor].phase.Done? { StepCommitsOnlyPending(host, s, e); }
      hide Step, ActorSound, Progress;
      var s' := Step(host, s, e);
      forall b | 0 <= b < |s'.actors| ensures ActorSound(host, s', s'.actors[b]) {
        if b != e.actor { SoundUnderProgress(host, s, s', s.actors[b]); }
      }
      forall b | 0 <= b < |s.actors| && s.actors[b].phase.Done? ensures !IsPending(s, s.actors[b].row) {
        DoneIsDecided(host, s, b);
      }
    }
  }

  lemma DoneIsDecided(host: Host, s: State, b: nat)
    requires b < |s.actors| && ActorSound(host, s, s.actors[b]) && s.actors[b].phase.Done?
    ensures s.actors[b].row in s.rows && !IsPending(s, s.actors[b].row)
  {}

  lemma {:induction false} RunKeepsInvariant(host: Host, s: State, events: seq<Event>)
    requires Invariant(host, s)
    ensures Invariant(host, Run(host, s, events))
    ensures forall id :: !IsPending(s, id) ==> !IsPending(Run(host, s, events), id)
    ensures |s.store| <= |Run(host, s, events).store|
    decreases |events|
  {
    if events == [] {
    } else {
      var s' := Step(host, s, events[0]);
      StepKeepsInvariant(host, s, events[0]);
      StepProgresses(host, s, events[0]);
      forall id | !IsPending(s, id) ensures !IsPending(s', id) {
        if events[0].actor < |s.actors| { assert RowProgress(s, s', id); }
      }
      hide Step, Invariant;
      RunKeepsInvariant(host, s', events[1..]);
    }
  }

  lemma FreshIsInvariant(host: Host, s: State)
    requires Fresh(s)
    ensures Invariant(host, s)
  {}

  /** Over every interleaving of requests about any rows: at most one approval of a row succeeds.  It had
      non-empty SQL, and when it settled, the store held an entry for its question, one judged similar by its
      score, one with the same SQL, or merely one with the same SQL template. */
  lemma OneBackedApproval(host: Host, s: State, events: seq<Event>, a: nat)
    requires Fresh(s) && a < |Run(host, s, events).actors| && Run(host, s, events).actors[a].phase.Done?
    ensures var s' := Run(host, s, events); var me := s'.actors[a];
      && Backed(host, me.question, me.sql, me.phase.basis) && me.phase.basis.entry < |s'.store|
      && me.row in s'.rows && !IsPending(s', me.row)
      && forall b :: 0 <= b < |s'.actors| && s'.actors[b].phase.Done? && s'.actors[b].row == me.row ==> b == a
  {
    FreshIsInvariant(host, s);
    RunKeepsInvariant(host, s, events);
    hide Backed;
    var s' := Run(host, s, events);
    assert ActorSound(host, s', s'.actors[a]);
  }

  /** A decided row stays decided, for ever. */
  lemma NeverPendingAgain(host: Host, s: State, before: seq<Event>, after: seq<Event>, id: nat)
    requires Fresh(s) && !IsPending(Run(host, s, before), id)
    ensures !IsPending(Run(host, Run(host, s, before), after), id)
  {
    FreshIsInvariant(host, s);
    RunKeepsInvariant(host, s, before);
    RunKeepsInvariant(host, Run(host, s, before), after);
  }

  /** In every reachable state: a step turns an approved row rejected if and only if it is the successful write
      of a rejection of that row; such a rejection had read the row before the approval was committed.  No
      other step changes an approved row, and a rejected row stays rejected. */
  lemma OverturnedIff(host: Host, s: State, events: seq<Event>, e: Event, id: nat)
    requires Fresh(s) && id in Run(host, s, events).rows
    ensures var s1 := Run(host, s, events); var s2 := Step(host, s1, e);
      && id in s2.rows
      && (s1.rows[id].status == Approved ==>
            && (s2.rows[id].status == Rejected <==>
                  e.actor < |s1.actors| && s1.actors[e.actor].phase.RejectWrite? && s1.actors[e.actor].row == id
                  && !e.oracle.throws)
            && (s2.rows[id].status == Rejected ==> s1.actors[e.actor].phase.readAt <= s1.rows[id].approvedAt)
            && (s2.rows[id].status != Rejected ==> s2.rows[id] == s1.rows[id]))
      && (s1.rows[id].status == Rejected ==> s2.rows[id].status == Rejected)
  {
    FreshIsInvariant(host, s);
    RunKeepsInvariant(host, s, events);
    var s1 := Run(host, s, events);
    hide Run, SaveMove, SavingSound;
    if e.actor < |s1.actors| { assert ActorSound(host, s1, s1.actors[e.actor]); }
  }

  /** It does happen: a rejection that has read the row overturns an approval that is then committed. */
  lemma ApprovalCanBeOverturned(host: Host, question: string, sql: string, o: Oracle)
    requires sql != "" && !o.throws && host.like(question, Normalize(host.fold, question))
    ensures var entry := NewEntry(host, question, sql);
      var s := State(map[0 := Row(question, sql, Pending, 0)], [entry],
                     [Actor(0, Start, "", ""), Actor(0, RejectStart, "", "")], 0);
      var approved := Run(host, s, [Event(1, o), Event(0, o), Event(0, o), Event(0, o)]);
      && Fresh(s)
      && approved.actors
         == [Actor(0, Done(Backing(SameQuestion, 0, entry)), question, sql), Actor(0, RejectWrite(0), "", "")]
      && approved.rows == map[0 := Row(question, sql, Approved, 3)]
      && Step(host, approved, Event(1, o)).rows == map[0 := Row(question, sql, Rejected, 3)]
  {
    hide Normalize, NearEnough, Run, NewEntry;
    var entry := NewEntry(host, question, sql);
    var s := State(map[0 := Row(question, sql, Pending, 0)], [entry],
                   [Actor(0, Start, "", ""), Actor(0, RejectStart, "", "")], 0);
    assert entry.question == question by { EntryOf(host, question, sql); }
    var s1 := Step(host, s, Event(1, o));
    var s2 := Step(host, s1, Event(0, o));
    ExactFindsIff(host, [entry], question, 0);
    assert FindExact(host, s2.store, question) == Some(0);
    hide FindExact;
    var s3 := Step(host, s2, Event(0, o));
    assert s3.actors[0].phase == Commit(Backing(SameQuestion, 0, entry));
    var s4 := Step(host, s3, Event(0, o));
    assert s4.rows == map[0 := Row(question, sql, Approved, 3)];
    RunFour(host, s, Event(1, o), Event(0, o), Event(0, o), Event(0, o));
    assert Step(host, s4, Event(1, o)).rows == map[0 := Row(question, sql, Rejected, 3)];
  }

  lemma EntryOf(host: Host, question: string, sql: string)
    ensures NewEntry(host, question, sql).question == question && NewEntry(host, question, sql).sql == sql
  {}

  lemma RunCons(host: Host, s: State, e: Event, rest: seq<Event>)
    ensures Run(host, s, [e] + rest) == Run(host, Step(host, s, e), rest)
  {
    assert ([e] + rest)[1..] == rest;
  }

  lemma RunFour(host: Host, s: State, e0: Event, e1: Event, e2: Event, e3: Event)
    ensures Run(host, s, [e0, e1, e2, e3]) == Step(host, Step(host, Step(host, Step(host, s, e0), e1), e2), e3)
  {
    hide Step;
    var s1, s2 := Step(host, s, e0), Step(host, Step(host, s, e0), e1);
    var s3 := Step(host, s2, e2);
    assert [e0, e1, e2, e3] == [e0] + [e1, e2, e3];
    assert [e1, e2, e3] == [e1] + [e2, e3];
    assert [e2, e3] == [e2] + [e3];
    assert [e3] == [e3] + [];
    RunCons(host, s, e0, [e1, e2, e3]);
    RunCons(host, s1, e1, [e2, e3]);
    RunCons(host, s2, e2, [e3]);
    RunCons(host, s3, e3, []);
  }

  // ---------------------------------------------------------------- what happens to the store

  /** The next step of this actor is an upsert that the database carries out. */
  predicate Upserts(host: Host, s: State, e: Event) {
    e.actor < |s.actors| && s.actors[e.actor].phase.UpsertRow? && !e.oracle.throws
    && Upsert(host, s.store, s.actors[e.actor].question, s.actors[e.actor].sql).Some?
  }

  lemma StepStore(host: Host, s: State, e: Event)
    ensures Step(host, s, e).store
      == if Upserts(host, s, e) then
           Upsert(host, s.store, s.actors[e.actor].question, s.actors[e.actor].sql).value.store
         else s.store
  {
    hide Upsert, FindExact, Newest, FindTemplate;
  }

  /** Both unique indexes hold in every reachable state, whatever interleaves: no two entries ever have the
      same question or the same template, so two approvals of one row cannot store it twice. */
  lemma {:induction false} RunKeepsIndexes(host: Host, s: State, events: seq<Event>)
    requires Indexed(s.store)
    ensures Indexed(Run(host, s, events).store)
    decreases |events|
  {
    if events == [] {
    } else {
      StepStore(host, s, events[0]);
      if events[0].actor < |s.actors| {
        UpsertStores(host, s.store, s.actors[events[0].actor].question, s.actors[events[0].actor].sql);
      }
      hide Step, Upsert, Indexed;
      RunKeepsIndexes(host, Step(host, s, events[0]), events[1..]);
    }
  }

  /** A step overwrites an entry if and only if it carries out an upsert whose template, or else question, that
      entry has. */
  lemma OverwrittenIff(host: Host, s: State, e: Event, i: nat)
    requires i < |s.store|
    ensures i < |Step(host, s, e).store|
    ensures Step(host, s, e).store[i] != s.store[i]
      <==> && Upserts(host, s, e)
           && Target(host, s.store, s.actors[e.actor].question, s.actors[e.actor].sql) == Some(i)
           && s.store[i] != NewEntry(host, s.actors[e.actor].question, s.actors[e.actor].sql)
  {
    StepStore(host, s, e);
    if e.actor < |s.actors| { UpsertStores(host, s.store, s.actors[e.actor].question, s.actors[e.actor].sql); }
    hide Step, Upsert, Indexed, NewEntry, Target;
  }

  /** A step keeps the normalised questions unique if and only if it is no upsert, or one that finds no matching
      row but the one it overwrites. */
  lemma StepKeepsUniqueIff(host: Host, s: State, e: Event)
    requires UniqueQuestions(host, s.store)
    ensures UniqueQuestions(host, Step(host, s, e).store)
      <==> (Upserts(host, s, e) ==>
              var me := s.actors[e.actor]; var entry := Upsert(host, s.store, me.question, me.sql).value.entry;
              forall i :: 0 <= i < |s.store| && i != entry ==> !Matches(host, s.store[i], me.question))
  {
    StepStore(host, s, e);
    if Upserts(host, s, e) {
      UpsertKeepsUniqueIff(host, s.store, s.actors[e.actor].question, s.actors[e.actor].sql);
    }
    hide Step, Upsert, UniqueQuestions, Matches;
  }

  ghost predicate Templated(host: Host, s: State) {
    && (forall id :: id in s.rows ==> s.rows[id].sql == "" || host.template(s.rows[id].sql) != "")
    && (forall a :: 0 <= a < |s.actors| ==> Saving(s.actors[a].phase) ==> host.template(s.actors[a].sql) != "")
  }

  lemma UpsertKeepsTemplates(host: Host, store: seq<Entry>, question: string, sql: string)
    requires host.template(sql) != ""
    ensures Upsert(host, store, question, sql).Some? ==>
      var after := Upsert(host, store, question, sql).value.store;
      |store| <= |after| && forall i :: 0 <= i < |store| ==> after[i].template == store[i].template
  {
    hide Upsert, Indexed, FindTemplate;
    UpsertStores(host, store, question, sql);
  }

  lemma StepKeepsTemplated(host: Host, s: State, e: Event)
    requires Templated(host, s)
    ensures Templated(host, Step(host, s, e))
  {
    hide FindExact, Newest, NearEnough, FindTemplate, Upsert, Indexed;
  }

  lemma StepKeepsTemplates(host: Host, s: State, e: Event)
    requires Templated(host, s)
    ensures forall i :: 0 <= i < |s.store| ==>
      i < |Step(host, s, e).store| && Step(host, s, e).store[i].template == s.store[i].template
  {
    hide Step, Upsert;
    StepStore(host, s, e);
    if Upserts(host, s, e) {
      UpsertKeepsTemplates(host, s.store, s.actors[e.actor].question, s.actors[e.actor].sql);
    }
  }

  /** As long as every row under review has SQL with a template, the entries of the store keep their templates for
      ever: what an approval relied on may get another question, but not another kind of SQL. */
  lemma {:induction false} TemplatesAreKept(host: Host, s: State, events: seq<Event>, i: nat)
    requires Templated(host, s) && i < |s.store|
    ensures i < |Run(host, s, events).store| && Run(host, s, events).store[i].template == s.store[i].template
    decreases |events|
  {
    if events == [] {
    } else {
      StepKeepsTemplated(host, s, events[0]);
      StepKeepsTemplates(host, s, events[0]);
      hide Step, Templated;
      TemplatesAreKept(host, Step(host, s, events[0]), events[1..], i);
    }
  }

  /** Nobody but the actor itself moves it. */
  lemma {:induction false} StandsStill(host: Host, s: State, events: seq<Event>, a: nat)
    requires a < |s.actors| && forall k :: 0 <= k < |events| ==> events[k].actor != a
    ensures |Run(host, s, events).actors| == |s.actors| && Run(host, s, events).actors[a] == s.actors[a]
    decreases |events|
  {
    if events == [] {
    } else {
      StepProgresses(host, s, events[0]);
      hide Step;
      StandsStill(host, Step(host, s, events[0]), events[1..], a);
    }
  }

  /** A template lookup that leads to the upsert found nothing, unless its error was ignored. */
  lemma LookupMissed(host: Host, s: State, a: nat, o: Oracle)
    requires a < |s.actors| && s.actors[a].phase.TemplateLookup?
    requires Step(host, s, Event(a, o)).actors[a].phase.UpsertRow?
    ensures var s1 := Step(host, s, Event(a, o));
      s1.store == s.store && s1.actors == s.actors[a := s.actors[a].(phase := UpsertRow)]
    ensures !o.ignoredError ==>
      forall i :: 0 <= i < |s.store| ==> s.store[i].template != Some(host.template(s.actors[a].sql))
  {
    hide Upsert, FindTemplate, FindExact, Newest;
  }

  /** What an upsert overwrites.  Between an approval's template lookup and its upsert anything may happen: the
      upsert then overwrites an entry if and only if the database carries it out and the entry has its template and
      another question or SQL; and such an entry was stored after the lookup, unless the lookup ignored an error. */
  lemma OverwritesOnlyLater(host: Host, s: State, a: nat, lookup: Oracle, between: seq<Event>, upsert: Oracle, i: nat)
    requires Templated(host, s) && Indexed(s.store) && a < |s.actors| && s.actors[a].phase.TemplateLookup?
    requires Step(host, s, Event(a, lookup)).actors[a].phase.UpsertRow?
    requires forall k :: 0 <= k < |between| ==> between[k].actor != a
    requires i < |Run(host, Step(host, s, Event(a, lookup)), between).store|
    ensures var s1 := Run(host, Step(host, s, Event(a, lookup)), between);
      var s2 := Step(host, s1, Event(a, upsert));
      var question, sql := s.actors[a].question, s.actors[a].sql;
      && i < |s2.store|
      && (s2.store[i] != s1.store[i]
          <==> Upserts(host, s1, Event(a, upsert)) && s1.store[i].template == Some(host.template(sql))
               && s1.store[i] != NewEntry(host, question, sql))
      && (s2.store[i] != s1.store[i] ==> i >= |s.store| || lookup.ignoredError)
  {
    var s0 := Step(host, s, Event(a, lookup));
    LookupMissed(host, s, a, lookup);
    StepKeepsTemplated(host, s, Event(a, lookup));
    assert host.template(s.actors[a].sql) != "" by { assert Saving(s.actors[a].phase); }
    hide Step, Run, Upsert, Templated, Indexed, NewEntry, FindTemplate;
    StandsStill(host, s0, between, a);
    RunKeepsIndexes(host, s0, between);
    if i < |s.store| { TemplatesAreKept(host, s0, between, i); }
    var s1 := Run(host, s0, between);
    OverwrittenIff(host, s1, Event(a, upsert), i);
    TemplateFoundIff(s1.store, host.template(s.actors[a].sql), i);
  }

  lemma TemplateFoundIff(store: seq<Entry>, template: string, i: nat)
    requires Indexed(store) && i < |store|
    ensures FindTemplate(store, template) == Some(i) <==> store[i].template == Some(template)
  {
    hide FindTemplate;
    var hit := FindTemplate(store, template);
    var h := if hit.Some? then hit.value else i;
    assert h < i && store[h].template.Some? ==> store[h].template != store[i].template;
    assert i < h && store[i].template.Some? ==> store[i].template != store[h].template;
  }

  // ------------------------------------------------------------------ saves that go undisturbed

  /** What the outside world answers in one save, call by call. */
  datatype Answers = Answers(exact: Oracle, reuse: Oracle, reuseHit: Oracle, near: Oracle, nearHit: Oracle,
                             lookup: Oracle, upsert: Oracle, chunk: Oracle)

  function AnswerTo(answers: Answers, phase: Phase): Oracle {
    match phase
    case ReuseSearch => answers.reuse
    case ReuseLookup(_, _) => answers.reuseHit
    case DuplicateSearch => answers.near
    case DuplicateLookup(_, _) => answers.nearHit
    case TemplateLookup => answers.lookup
    case UpsertRow => answers.upsert
    case AddChunk(_) => answers.chunk
    case _ => answers.exact
  }

  /** Nothing throws, no error is ignored, and the search by embedding knows no near question. */
  predicate Quiet(o: Oracle) {
    !o.throws && !o.ignoredError && o.top.None?
  }

  predicate AllQuiet(answers: Answers) {
    && Quiet(answers.exact) && Quiet(answers.reuse) && Quiet(answers.near) && Quiet(answers.lookup)
    && Quiet(answers.upsert) && Quiet(answers.chunk)
  }

  /** At most n calls of one save, with nobody else at work. */
  function Undisturbed(host: Host, store: seq<Entry>, question: string, sql: string, phase: Phase, answers: Answers,
                       n: nat): Move
    decreases n
  {
    if n == 0 || !(Saving(phase) || phase.AddChunk?) then Move(store, phase)
    else
      var m := SaveMove(host, store, question, sql, phase, AnswerTo(answers, phase));
      Undisturbed(host, m.store, question, sql, m.phase, answers, n - 1)
  }

  predicate TemplateKnown(host: Host, store: seq<Entry>, sql: string) {
    host.template(sql) != "" && FindTemplate(store, host.template(sql)).Some?
  }

  /** A near question is found, and the newest row that contains it has SQL. */
  predicate Reuses(host: Host, store: seq<Entry>, answers: Answers) {
    && answers.reuse.top.Some? && answers.reuse.top.value.question != ""
    && (answers.reuse.top.value.score.Some? ==> answers.reuse.top.value.score.value >= 0.95)
    && var hit := Newest(host, store, answers.reuse.top.value.question);
    hit.Some? && store[hit.value].sql != ""
  }

  /** A near question is found, and the newest row that contains it has the very SQL. */
  predicate Duplicates(host: Host, store: seq<Entry>, sql: string, answers: Answers) {
    && !answers.near.throws && answers.near.top.Some? && answers.near.top.value.question != ""
    && answers.near.top.value.score.Some? && answers.near.top.value.score.value >= 0.95
    && !answers.nearHit.throws
    && var hit := Newest(host, store, answers.near.top.value.question);
    hit.Some? && store[hit.value].sql == sql
  }

  /** The template lookup finds a row and says so. */
  predicate TemplateAnswers(host: Host, store: seq<Entry>, sql: string, answers: Answers) {
    TemplateKnown(host, store, sql) && !answers.lookup.ignoredError
  }

  /** How the writing part ends: with a basis to add a chunk for, or with a failure. */
  function Written(host: Host, store: seq<Entry>, question: string, sql: string, answers: Answers): Move {
    if host.template(sql) != "" && answers.lookup.throws then Move(store, Failed)
    else if TemplateAnswers(host, store, sql, answers) then
      var i := FindTemplate(store, host.template(sql)).value;
      Move(store, AddChunk(Backing(SameTemplate, i, store[i])))
    else match Upsert(host, store, question, sql)
      case None => Move(store, Failed)
      case Some(r) =>
        if answers.upsert.throws then Move(store, Failed)
        else Move(r.store, AddChunk(Backing(Stored, r.entry, NewEntry(host, question, sql))))
  }

  function ReuseOf(host: Host, store: seq<Entry>, answers: Answers): Phase
    requires Reuses(host, store, answers)
  {
    var i := Newest(host, store, answers.reuse.top.value.question).value;
    Commit(Backing(JudgedSimilar(answers.reuse.top.value.score), i, store[i]))
  }

  function DuplicateOf(host: Host, store: seq<Entry>, answers: Answers): Phase
    requires NearEnough(answers.near.top, false) && Newest(host, store, answers.near.top.value.question).Some?
  {
    var i := Newest(host, store, answers.near.top.value.question).value;
    Commit(Backing(SameSql(answers.near.top.value.score), i, store[i]))
  }

  /** The chunk is added last. */
  function Chunked(m: Move, chunk: Oracle): Move {
    if m.phase.AddChunk? then Move(m.store, if chunk.throws then Failed else Commit(m.phase.basis)) else m
  }

  /** How a save ends that nobody disturbs. */
  function Saved(host: Host, store: seq<Entry>, question: string, sql: string, answers: Answers): Move {
    var hit := FindExact(host, store, question);
    if answers.exact.throws then Move(store, Failed)
    else if hit.Some? then Move(store, Commit(Backing(SameQuestion, hit.value, store[hit.value])))
    else if answers.reuse.throws || (NearEnough(answers.reuse.top, true) && answers.reuseHit.throws) then
      Move(store, Failed)
    else if Reuses(host, store, answers) then Move(store, ReuseOf(host, store, answers))
    else if Duplicates(host, store, sql, answers) then Move(store, DuplicateOf(host, store, answers))
    else Chunked(Written(host, store, question, sql, answers), answers.chunk)
  }

  lemma OneCall(host: Host, store: seq<Entry>, question: string, sql: string, phase: Phase, answers: Answers, n: nat)
    requires n > 0 && (Saving(phase) || phase.AddChunk?)
    ensures var m := SaveMove(host, store, question, sql, phase, AnswerTo(answers, phase));
      Undisturbed(host, store, question, sql, phase, answers, n)
      == Undisturbed(host, m.store, question, sql, m.phase, answers, n - 1)
  {
    hide SaveMove;
  }

  lemma NoMoreCalls(host: Host, m: Move, question: string, sql: string, answers: Answers, n: nat)
    requires !Saving(m.phase) && !m.phase.AddChunk?
    ensures Undisturbed(host, m.store, question, sql, m.phase, answers, n) == m
  {}

  lemma ChunkEnds(host: Host, m: Move, question: string, sql: string, answers: Answers, n: nat)
    requires n > 0 && !Saving(m.phase)
    ensures Undisturbed(host, m.store, question, sql, m.phase, answers, n) == Chunked(m, answers.chunk)
  {
    hide FindExact, FindTemplate, Newest, Upsert, Undisturbed;
    if m.phase.AddChunk? {
      OneCall(host, m.store, question, sql, m.phase, answers, n);
      NoMoreCalls(host, Chunked(m, answers.chunk), question, sql, answers, n - 1);
    } else {
      NoMoreCalls(host, m, question, sql, answers, n);
    }
  }

  lemma WritingEnds(host: Host, store: seq<Entry>, question: string, sql: string, answers: Answers, n: nat)
    requires n >= 3
    ensures Undisturbed(host, store, question, sql, ToStore(host, sql), answers, n)
      == Chunked(Written(host, store, question, sql, answers), answers.chunk)
  {
    hide FindExact, FindTemplate, Newest, Upsert, NewEntry, Undisturbed, Chunked;
    var m := SaveMove(host, store, question, sql, ToStore(host, sql), AnswerTo(answers, ToStore(host, sql)));
    OneCall(host, store, question, sql, ToStore(host, sql), answers, n);
    if m.phase.UpsertRow? {
      OneCall(host, store, question, sql, UpsertRow, answers, n - 1);
      ChunkEnds(host, Written(host, store, question, sql, answers), question, sql, answers, n - 2);
    } else {
      ChunkEnds(host, m, question, sql, answers, n - 1);
    }
  }

  lemma DuplicateSearchEnds(host: Host, store: seq<Entry>, question: string, sql: string, answers: Answers, n: nat)
    requires n >= 5
    ensures Undisturbed(host, store, question, sql, DuplicateSearch, answers, n)
      == if Duplicates(host, store, sql, answers) then Move(store, DuplicateOf(host, store, answers))
         else Chunked(Written(host, store, question, sql, answers), answers.chunk)
  {
    hide FindExact, FindTemplate, Newest, Upsert, NewEntry, Undisturbed, Chunked, Written;
    var m := SaveMove(host, store, question, sql, DuplicateSearch, answers.near);
    OneCall(host, store, question, sql, DuplicateSearch, answers, n);
    if m.phase.DuplicateLookup? {
      OneCall(host, store, question, sql, m.phase, answers, n - 1);
      if Duplicates(host, store, sql, answers) {
        NoMoreCalls(host, Move(store, DuplicateOf(host, store, answers)), question, sql, answers, n - 2);
      } else {
        WritingEnds(host, store, question, sql, answers, n - 2);
      }
    } else {
      WritingEnds(host, store, question, sql, answers, n - 1);
    }
  }

  lemma ReuseSearchEnds(host: Host, store: seq<Entry>, question: string, sql: string, answers: Answers, n: nat)
    requires n >= 7 && !answers.reuse.throws
    ensures Undisturbed(host, store, question, sql, ReuseSearch, answers, n)
      == if NearEnough(answers.reuse.top, true) && answers.reuseHit.throws then Move(store, Failed)
         else if Reuses(host, store, answers) then Move(store, ReuseOf(host, store, answers))
         else Undisturbed(host, store, question, sql, DuplicateSearch, answers, 5)
  {
    hide FindExact, FindTemplate, Newest, Upsert, NewEntry, Undisturbed, Chunked, Written, ToStore, Duplicates,
      DuplicateOf;
    var m := SaveMove(host, store, question, sql, ReuseSearch, answers.reuse);
    OneCall(host, store, question, sql, ReuseSearch, answers, n);
    DuplicateSearchEnds(host, store, question, sql, answers, n - 1);
    DuplicateSearchEnds(host, store, question, sql, answers, n - 2);
    DuplicateSearchEnds(host, store, question, sql, answers, 5);
    if m.phase.ReuseLookup? {
      OneCall(host, store, question, sql, m.phase, answers, n - 1);
      NoMoreCalls(host, Move(store, Failed), question, sql, answers, n - 2);
      if Reuses(host, store, answers) {
        NoMoreCalls(host, Move(store, ReuseOf(host, store, answers)), question, sql, answers, n - 2);
      }
    }
  }

  /** Eight calls finish an undisturbed save, and this is how it ends. */
  lemma SaveEnds(host: Host, store: seq<Entry>, question: string, sql: string, answers: Answers)
    ensures Undisturbed(host, store, question, sql, ExactSearch, answers, 8)
      == Saved(host, store, question, sql, answers)
  {
    hide FindExact, FindTemplate, Newest, Upsert, NewEntry, Undisturbed, Chunked, Written, ToStore, Duplicates,
      DuplicateOf, Reuses, ReuseOf, NearEnough;
    var m := SaveMove(host, store, question, sql, ExactSearch, answers.exact);
    OneCall(host, store, question, sql, ExactSearch, answers, 8);
    if m.phase.ReuseSearch? {
      if answers.reuse.throws {
        OneCall(host, store, question, sql, ReuseSearch, answers, 7);
        NoMoreCalls(host, Move(store, Failed), question, sql, answers, 6);
      } else {
        ReuseSearchEnds(host, store, question, sql, answers, 7);
        DuplicateSearchEnds(host, store, question, sql, answers, 5);
      }
    } else {
      NoMoreCalls(host, m, question, sql, answers, 7);
    }
  }

  /** The calls that search answer: none of those that are made and not caught throws. */
  predicate SearchesAnswer(host: Host, store: seq<Entry>, question: string, answers: Answers) {
    var near := answers.reuse.top;
    && !answers.exact.throws
    && (FindExact(host, store, question).None? ==>
          && !answers.reuse.throws
          && (near.Some? && near.value.question != "" && (near.value.score.Some? ==> near.value.score.value >= 0.95) ==>
                !answers.reuseHit.throws))
  }

  /** The calls that write succeed. */
  predicate WritesSucceed(host: Host, store: seq<Entry>, question: string, sql: string, answers: Answers) {
    && (host.template(sql) != "" ==> !answers.lookup.throws)
    && (!TemplateAnswers(host, store, sql, answers) ==>
          !QuestionTaken(store, question, Target(host, store, question, sql)) && !answers.upsert.throws)
    && !answers.chunk.throws
  }

  /** An undisturbed save settles if and only if its searches answer and either find something that stands for the
      question or its writes succeed; and it settles on the first thing found, in the order of the searches. */
  lemma SaveSettlesIff(host: Host, store: seq<Entry>, question: string, sql: string, answers: Answers)
    ensures var end := Undisturbed(host, store, question, sql, ExactSearch, answers, 8).phase;
      var exact := FindExact(host, store, question).Some?;
      var reuses, duplicates := Reuses(host, store, answers), Duplicates(host, store, sql, answers);
      && (end.Commit? <==>
            && SearchesAnswer(host, store, question, answers)
            && (exact || reuses || duplicates || WritesSucceed(host, store, question, sql, answers)))
      && (!end.Commit? ==> end.Failed?)
      && (end.Commit? ==>
            && (end.basis.how == SameQuestion <==> exact)
            && (end.basis.how.JudgedSimilar? <==> !exact && reuses)
            && (end.basis.how.SameSql? <==> !exact && !reuses && duplicates)
            && (end.basis.how == SameTemplate <==>
                  !exact && !reuses && !duplicates && TemplateAnswers(host, store, sql, answers)))
  {
    hide Undisturbed, Upsert, FindExact, FindTemplate, Normalize, Newest, Indexed, NewEntry, QuestionTaken, Target;
    SaveEnds(host, store, question, sql, answers);
    UpsertStores(host, store, question, sql);
  }

  /** A request that reaches its transaction approves its row if and only if the transaction succeeds and the row is
      still pending; and a rejection goes on to write if and only if it reads a pending row. */
  lemma DecidesIff(host: Host, s: State, e: Event)
    requires e.actor < |s.actors|
    ensures var me := s.actors[e.actor]; var s' := Step(host, s, e); var next := s'.actors[e.actor].phase;
      && (me.phase.Commit? ==>
            if !e.oracle.throws && IsPending(s, me.row) then
              && next == Done(me.phase.basis)
              && s'.rows == s.rows[me.row := s.rows[me.row].(status := Approved, approvedAt := s.clock)]
            else next.Failed? && s'.rows == s.rows)
      && (me.phase.RejectStart? ==>
            && s'.rows == s.rows
            && next == if !e.oracle.throws && IsPending(s, me.row) then RejectWrite(s.clock) else Failed)
      && (me.phase.Start? ==>
            && s'.rows == s.rows && s'.store == s.store
            && if !e.oracle.throws && IsPending(s, me.row) && s.rows[me.row].sql != "" then
                 s'.actors[e.actor] == Actor(me.row, ExactSearch, s.rows[me.row].question, s.rows[me.row].sql)
               else next.Failed?)
  {
    hide FindExact, Newest, FindTemplate, Upsert;
  }

  ghost predicate Known(host: Host, store: seq<Entry>, question: string) {
    exists i :: 0 <= i < |store| && Matches(host, store[i], question)
  }

  /** An undisturbed save that succeeds, whatever its calls answer, leaves its question in the store if and only if
      the question was there already or nothing else answers for it: no near question that is reused, no near
      question with the same SQL, and no row with the same template, whatever its question. */
  lemma QuestionStoredIff(host: Host, store: seq<Entry>, question: string, sql: string, answers: Answers)
    ensures var after := Undisturbed(host, store, question, sql, ExactSearch, answers, 8);
      after.phase.Commit? ==>
        (Known(host, after.store, question)
         <==> Known(host, store, question)
              || !(Reuses(host, store, answers) || Duplicates(host, store, sql, answers)
                   || TemplateAnswers(host, store, sql, answers)))
  {
    hide Undisturbed, Upsert, FindTemplate, Normalize, Newest, Indexed, Reuses, Duplicates, ReuseOf, DuplicateOf,
      TemplateAnswers, NearEnough;
    SaveEnds(host, store, question, sql, answers);
    UpsertKnows(host, store, question, sql);
  }

  lemma UpsertKnows(host: Host, store: seq<Entry>, question: string, sql: string)
    ensures Upsert(host, store, question, sql).Some? ==>
      Known(host, Upsert(host, store, question, sql).value.store, question)
  {
    hide Upsert, FindTemplate, Normalize, Indexed;
    UpsertStores(host, store, question, sql);
    var r := Upsert(host, store, question, sql);
    if r.Some? { assert Matches(host, r.value.store[r.value.entry], question); }
  }

  /** In a quiet save only the exact search, the template and the text of the question matter. */
  lemma QuietSaveWrites(host: Host, store: seq<Entry>, question: string, sql: string, answers: Answers)
    requires AllQuiet(answers)
    ensures Saved(host, store, question, sql, answers).store
      == if FindExact(host, store, question).Some? || TemplateKnown(host, store, sql) then store
         else match Upsert(host, store, question, sql)
           case Some(r) => r.store
           case None => store
  {
    hide FindExact, FindTemplate, Upsert, Newest, NewEntry;
  }

  /** An undisturbed save puts a twin of a normalised question into the store if and only if the question is known,
      the exact search misses it, and neither its template nor its very text is in the store. */
  lemma TwinStoredIff(host: Host, store: seq<Entry>, question: string, sql: string, answers: Answers)
    requires AllQuiet(answers) && UniqueQuestions(host, store)
    ensures !UniqueQuestions(host, Undisturbed(host, store, question, sql, ExactSearch, answers, 8).store)
      <==> && Known(host, store, question) && FindExact(host, store, question).None?
           && !TemplateKnown(host, store, sql) && FindQuestion(store, question).None?
  {
    hide Undisturbed, Upsert, FindExact, FindTemplate, FindQuestion, Normalize, Indexed, UniqueQuestions, AllQuiet,
      Saved;
    SaveEnds(host, store, question, sql, answers);
    QuietSaveWrites(host, store, question, sql, answers);
    if FindExact(host, store, question).None? && !TemplateKnown(host, store, sql) {
      FailsOnlyOnText(host, store, question, sql);
      if Upsert(host, store, question, sql).Some? {
        UpsertKeepsUniqueIff(host, store, question, sql);
        UpsertStores(host, store, question, sql);
        SameTextMatches(host, store, question);
      }
    }
  }

  lemma FailsOnlyOnText(host: Host, store: seq<Entry>, question: string, sql: string)
    requires !TemplateKnown(host, store, sql)
    ensures FindQuestion(store, question).None? ==>
      Upsert(host, store, question, sql).Some? && Target(host, store, question, sql) == None
    ensures FindQuestion(store, question).Some? && Upsert(host, store, question, sql).Some? ==>
      Target(host, store, question, sql) == FindQuestion(store, question)
  {
    hide FindTemplate, NewEntry;
  }

  lemma SameTextMatches(host: Host, store: seq<Entry>, question: string)
    requires UniqueQuestions(host, store)
    ensures var i := FindQuestion(store, question);
      i.Some? ==> forall k :: 0 <= k < |store| && k != i.value ==> !Matches(host, store[k], question)
  {
    hide Normalize;
    var i := FindQuestion(store, question);
    if i.Some? {
      forall k | 0 <= k < |store| && k != i.value ensures !Matches(host, store[k], question) {
        assert if k < i.value then !Matches(host, store[k], store[i.value].question)
               else !Matches(host, store[i.value], store[k].question);
      }
    }
  }

  // ------------------------------------------------------------------------- raced upserts

  function Copies(e: Event, n: nat): seq<Event> {
    if n == 0 then [] else [e] + Copies(e, n - 1)
  }

  function Times(host: Host, s: State, e: Event, n: nat): State
    decreases n
  {
    if n == 0 then s else Times(host, Step(host, s, e), e, n - 1)
  }

  lemma {:induction false} RunCopies(host: Host, s: State, e: Event, n: nat)
    ensures Run(host, s, Copies(e, n)) == Times(host, s, e, n)
    decreases n
  {
    if n == 0 {
    } else {
      hide Step;
      RunCons(host, s, e, Copies(e, n - 1));
      RunCopies(host, Step(host, s, e), e, n - 1);
    }
  }

  /** An approval that finds nothing comes to its upsert. */
  lemma ReachesUpsert(host: Host, s: State, a: nat, o: Oracle)
    requires a < |s.actors| && s.actors[a].phase == Start && s.store == [] && Quiet(o)
    requires IsPending(s, s.actors[a].row) && s.rows[s.actors[a].row].sql != ""
    requires host.template(s.rows[s.actors[a].row].sql) != ""
    ensures var s' := Run(host, s, Copies(Event(a, o), 5)); var id := s.actors[a].row;
      && s'.store == [] && s'.rows == s.rows && |s'.actors| == |s.actors|
      && s'.actors[a] == Actor(id, UpsertRow, s.rows[id].question, s.rows[id].sql)
      && forall b :: 0 <= b < |s.actors| && b != a ==> s'.actors[b] == s.actors[b]
  {
    hide Normalize, Run, Upsert;
    var e, id := Event(a, o), s.actors[a].row;
    RunCopies(host, s, e, 5);
    var s1 := Step(host, s, e);
    assert s1.actors[a] == Actor(id, ExactSearch, s.rows[id].question, s.rows[id].sql);
    var s2 := Step(host, s1, e);
    assert s2.actors[a].phase == ReuseSearch;
    var s3 := Step(host, s2, e);
    assert s3.actors[a].phase == DuplicateSearch;
    var s4 := Step(host, s3, e);
    assert s4.actors[a].phase == TemplateLookup;
    var s5 := Step(host, s4, e);
    hide Step;
    assert Times(host, s, e, 5) == Times(host, s1, e, 4) == Times(host, s2, e, 3);
    assert Times(host, s2, e, 3) == Times(host, s3, e, 2) == Times(host, s4, e, 1);
    assert Times(host, s4, e, 1) == Times(host, s5, e, 0);
  }

  /** From its upsert an approval that the database lets through goes on to be committed. */
  lemma UpsertsAndCommits(host: Host, s: State, a: nat, o: Oracle)
    requires a < |s.actors| && s.actors[a].phase == UpsertRow && Quiet(o) && IsPending(s, s.actors[a].row)
    requires Upsert(host, s.store, s.actors[a].question, s.actors[a].sql).Some?
    ensures var s' := Run(host, s, Copies(Event(a, o), 3)); var me := s.actors[a];
      var r := Upsert(host, s.store, me.question, me.sql).value;
      && s'.store == r.store && |s'.actors| == |s.actors|
      && s'.actors[a].phase == Done(Backing(Stored, r.entry, NewEntry(host, me.question, me.sql)))
      && s'.rows == s.rows[me.row := s.rows[me.row].(status := Approved, approvedAt := s.clock + 2)]
      && forall b :: 0 <= b < |s.actors| && b != a ==> s'.actors[b] == s.actors[b]
  {
    hide Upsert, NewEntry, Run;
    var e := Event(a, o);
    RunCopies(host, s, e, 3);
    var s1 := Step(host, s, e);
    assert s1.actors[a].phase.AddChunk? && s1.rows == s.rows;
    var s2 := Step(host, s1, e);
    assert s2.actors[a].phase.Commit? && s2.rows == s.rows && s2.store == s1.store;
    var s3 := Step(host, s2, e);
    hide Step;
    assert Times(host, s, e, 3) == Times(host, s1, e, 2) == Times(host, s2, e, 1) == Times(host, s3, e, 0);
  }

  lemma SecondOverwrites(host: Host, q1: string, s1: string, q2: string, s2: string)
    requires host.template(s1) == host.template(s2) != ""
    ensures Upsert(host, [], q1, s1) == Some(Upserted([NewEntry(host, q1, s1)], 0))
    ensures Upsert(host, [NewEntry(host, q1, s1)], q2, s2) == Some(Upserted([NewEntry(host, q2, s2)], 0))
  {
    assert FindTemplate([], host.template(s1)) == None;
    assert [] + [NewEntry(host, q1, s1)] == [NewEntry(host, q1, s1)];
    assert FindTemplate([NewEntry(host, q1, s1)], host.template(s2)) == Some(0);
    assert [NewEntry(host, q1, s1)][0 := NewEntry(host, q2, s2)] == [NewEntry(host, q2, s2)];
  }

  /** Two approvals of rows with one template that both look the template up before either writes are both
      successful, but the second overwrites the first: its question is no longer stored. */
  lemma RacedUpsertOverwrites(host: Host, q1: string, s1: string, q2: string, s2: string, o: Oracle)
    requires Quiet(o) && s1 != "" && s2 != "" && host.template(s1) == host.template(s2) != ""
    ensures var s := State(map[0 := Row(q1, s1, Pending, 0), 1 := Row(q2, s2, Pending, 0)], [],
                           [Actor(0, Start, "", ""), Actor(1, Start, "", "")], 0);
      var ready := Run(host, Run(host, s, Copies(Event(0, o), 5)), Copies(Event(1, o), 5));
      var done := Run(host, Run(host, ready, Copies(Event(0, o), 3)), Copies(Event(1, o), 3));
      && Fresh(s) && |done.actors| == 2 && done.store == [NewEntry(host, q2, s2)]
      && done.actors[0].phase == Done(Backing(Stored, 0, NewEntry(host, q1, s1)))
      && done.actors[1].phase == Done(Backing(Stored, 0, NewEntry(host, q2, s2)))
  {
    hide Run, Upsert, NewEntry, Copies;
    var s := State(map[0 := Row(q1, s1, Pending, 0), 1 := Row(q2, s2, Pending, 0)], [],
                   [Actor(0, Start, "", ""), Actor(1, Start, "", "")], 0);
    ReachesUpsert(host, s, 0, o);
    var one := Run(host, s, Copies(Event(0, o), 5));
    ReachesUpsert(host, one, 1, o);
    var ready := Run(host, one, Copies(Event(1, o), 5));
    SecondOverwrites(host, q1, s1, q2, s2);
    UpsertsAndCommits(host, ready, 0, o);
    var first := Run(host, ready, Copies(Event(0, o), 3));
    UpsertsAndCommits(host, first, 1, o);
  }

  // ------------------------------------------------------------------------------- the service

  /** The review service, one request at a time. */
  class PendingKnowledgeService {
    var row: Option<Row>
    var store: seq<Entry>

    constructor (row: Option<Row>, store: seq<Entry>)
      ensures this.row == row && this.store == store
    {
      this.row, this.store := row, store;
    }

    /** saveSqlQA of the vector store: an entry with the template is used as it is, otherwise the row is upserted. */
    method SaveSqlQA(host: Host, question: string, sql: string, answers: Answers) returns (r: Option<Backing>)
      requires sql != ""
      modifies this`store
      ensures store == old(store)
           || (Upsert(host, old(store), question, sql).Some?
               && store == Upsert(host, old(store), question, sql).value.store)
      ensures Written(host, old(store), question, sql, answers)
        == Move(store, if r.Some? then AddChunk(r.value) else Failed)
      ensures r.Some? ==> Backed(host, question, sql, r.value)
      ensures r.Some? ==> r.value.entry < |store| && store[r.value.entry] == r.value.seen
    {
      hide FindTemplate, Upsert, NewEntry, Indexed;
      if host.template(sql) != "" {
        if answers.lookup.throws { return None; }
        var existing := if answers.lookup.ignoredError then None else FindTemplate(store, host.template(sql));
        if existing.Some? { return Some(Backing(SameTemplate, existing.value, store[existing.value])); }
      }
      UpsertStores(host, store, question, sql);
      var written := Upsert(host, store, question, sql);
      if written.None? || answers.upsert.throws { return None; }
      store := written.value.store;
      r := Some(Backing(Stored, written.value.entry, NewEntry(host, question, sql)));
    }

    /** saveQAInteraction: reuse an entry that stands for the question, or store it.  The method is the undisturbed
        run of the protocol, whatever its calls answer. */
    method SaveQAInteraction(host: Host, question: string, sql: string, answers: Answers)
      returns (r: Option<Backing>)
      requires sql != ""
      modifies this`store
      ensures store == old(store)
           || (Upsert(host, old(store), question, sql).Some?
               && store == Upsert(host, old(store), question, sql).value.store)
      ensures Indexed(old(store)) ==> Indexed(store)
      ensures Undisturbed(host, old(store), question, sql, ExactSearch, answers, 8)
        == Move(store, if r.Some? then Commit(r.value) else Failed)
      ensures r.Some? ==> Backed(host, question, sql, r.value)
      ensures r.Some? ==> r.value.entry < |store| && store[r.value.entry] == r.value.seen
    {
      hide Normalize, FindExact, Newest, Upsert, FindTemplate, NewEntry, Indexed, Undisturbed, Written;
      SaveEnds(host, store, question, sql, answers);
      UpsertStores(host, store, question, sql);
      if answers.exact.throws { return None; }
      var exactHit := FindExact(host, store, question);
      if exactHit.Some? { return Some(Backing(SameQuestion, exactHit.value, store[exactHit.value])); }
      if answers.reuse.throws { return None; }
      if NearEnough(answers.reuse.top, true) {
        if answers.reuseHit.throws { return None; }
        var hit := Newest(host, store, answers.reuse.top.value.question);
        if hit.Some? && store[hit.value].sql != "" {
          return Some(Backing(JudgedSimilar(answers.reuse.top.value.score), hit.value, store[hit.value]));
        }
      }
      if !answers.near.throws && NearEnough(answers.near.top, false) && !answers.nearHit.throws {
        var hit := Newest(host, store, answers.near.top.value.question);
        if hit.Some? && store[hit.value].sql == sql {
          return Some(Backing(SameSql(answers.near.top.value.score), hit.value, store[hit.value]));
        }
      }
      r := SaveSqlQA(host, question, sql, answers);
      if answers.chunk.throws { r := None; }
    }

    /** approvePendingKnowledge: success approves a pending row with SQL that an entry of the store stands for;
        failure leaves the row alone, though an entry may already have been written. */
    method ApprovePendingKnowledge(host: Host, read: Oracle, answers: Answers, commit: Oracle, now: nat)
      returns (success: bool, ghost basis: Option<Backing>)
      modifies this
      ensures Indexed(old(store)) ==> Indexed(store)
      ensures success ==>
        && old(row).Some? && old(row).value.status == Pending && old(row).value.sql != ""
        && row == Some(old(row).value.(status := Approved, approvedAt := now))
        && basis.Some? && Backed(host, old(row).value.question, old(row).value.sql, basis.value)
        && basis.value.entry < |store| && store[basis.value.entry] == basis.value.seen
      ensures !success ==> row == old(row)
      ensures store == old(store)
           || (old(row).Some? && old(row).value.status == Pending
               && Upsert(host, old(store), old(row).value.question, old(row).value.sql).Some?
               && store == Upsert(host, old(store), old(row).value.question, old(row).value.sql).value.store)
      ensures store
        == if read.throws || old(row).None? || old(row).value.status != Pending || old(row).value.sql == ""
           then old(store)
           else var asked := old(row).value;
             Undisturbed(host, old(store), asked.question, asked.sql, ExactSearch, answers, 8).store
    {
      hide Indexed, Backed, Upsert, NewEntry, Undisturbed;
      success, basis := false, None;
      if read.throws || row.None? || row.value.status != Pending || row.value.sql == "" { return; }
      var saved := SaveQAInteraction(host, row.value.question, row.value.sql, answers);
      if saved.None? || commit.throws { return; }
      row := Some(row.value.(status := Approved, approvedAt := now));
      success, basis := true, saved;
    }

    method RejectPendingKnowledge(read: Oracle, write: Oracle) returns (success: bool)
      modifies this`row
      ensures success == (!read.throws && !write.throws && old(row).Some? && old(row).value.status == Pending)
      ensures row == if success then Some(old(row).value.(status := Rejected)) else old(row)
    {
      if read.throws || row.None? || row.value.status != Pending || write.throws { return false; }
      row := Some(row.value.(status := Rejected));
      success := true;
    }
  }
}
