/** The SQL agent: a guarded reuse of a stored canonical query, then a bounded self-correcting loop.

    The language model, the safety check and the database are arbitrary: they enter as functions, so
    everything proved here holds for every behaviour they may show. */
module SqlRetry {
  import opened Text
  import opened SqlText
  import opened SqlSafety

  const MAX_ATTEMPTS: nat := 5
  const MAX_CONSECUTIVE_SAME_ERROR: nat := 2

  const NON_SELECT := "Only SELECT queries are allowed for security reasons"
  const NON_SELECT_REUSE := "Only SELECT queries are allowed for canonical reuse"
  const UNCHANGED := "SQL unchanged from previous attempt; you must modify it to fix the error"
  const UNSAFE := "SQL safety validation failed: "

  datatype Tokens = Tokens(prompt: nat, completion: nat, total: nat)

  /** The usage record of one model call; a total of 0 is filled in from the parts. */
  datatype Usage = Usage(prompt: nat, completion: nat, total: nat)

  datatype Generation = Answer(text: string, usage: Option<Usage>) | ModelError(message: string)
  datatype Safety = Safety(isValid: bool, violations: seq<string>, enforced: Option<string>)
  datatype Database = Rows(count: nat) | DbError(message: string)
  datatype Intent = NoIntent | Search | Own | Stats

  datatype Canonical =
    | NoCanonical
    | HintOnly(sql: string)
    | Reuse(sql: string, preferred: bool)

  /** One call of the agent: what the session says, and the oracles it will meet.  Attempt 0 of the
      database is the canonical reuse. */
  datatype Env = Env(
    filtersHint: Option<string>,
    intent: Intent,
    userId: string,
    canonical: Canonical,
    model: nat -> Generation,
    safety: string -> Safety,
    database: nat -> Database)

  datatype Stage = Unknown | Generating | Validating | FilteringHint | Executing

  datatype AttemptLog = AttemptLog(
    attempt: nat, generatedSql: string, finalSql: string, usage: Option<Tokens>,
    error: Option<string>, errorKey: string, stage: Stage)

  /** A statement handed to the database, with the SQL recorded just before. */
  datatype Execution = Execution(attempt: nat, sql: string, recorded: string)

  datatype Loop = Loop(
    attempts: nat, lastSql: string, lastError: string, lastErrorKey: string, same: nat,
    logs: seq<AttemptLog>, executed: seq<Execution>, tokens: Option<Tokens>)

  datatype Outcome =
    | Returned(sql: string, count: nat, last: Loop)
    | StoppedEarly(last: Loop)
    | GaveUp(last: Loop)
    | FellThrough(last: Loop)

  // ------------------------------------------------------------------------------ one attempt

  datatype Result = Ok(count: nat) | Err(message: string)

  /** What one run of the try block leaves behind, whether it returned or threw. */
  datatype Tried = Tried(
    generated: string, final: string, usage: Option<Tokens>, stage: Stage, ran: bool, result: Result)

  function CountTokens(usage: Option<Usage>): (r: Option<Tokens>)
    ensures usage.Some? <==> r.Some?
    ensures r.Some? ==> r.value.prompt == usage.value.prompt && r.value.completion == usage.value.completion
    ensures r.Some? && usage.value.total != 0 ==> r.value.total == usage.value.total
    ensures r.Some? && usage.value.total == 0 ==> r.value.total == r.value.prompt + r.value.completion
  {
    match usage
    case None => None
    case Some(u) => Some(Tokens(u.prompt, u.completion, if u.total != 0 then u.total else u.prompt + u.completion))
  }

  function AddTokens(total: Option<Tokens>, more: Option<Tokens>): Option<Tokens> {
    match (total, more)
    case (_, None) => total
    case (None, Some(_)) => more
    case (Some(t), Some(m)) => Some(Tokens(t.prompt + m.prompt, t.completion + m.completion, t.total + m.total))
  }

  function Enforced(safety: Safety, sql: string): string {
    if safety.enforced.Some? && safety.enforced.value != "" then safety.enforced.value else sql
  }

  function FilterError(required: HintMatch): string {
    "FILTERS_HINT enforcement failed: expected " + required.column + "='" + required.literal + "' to appear in SQL"
  }

  predicate SameSql(a: string, b: string) {
    Collapse(a) == Collapse(b)
  }

  /** Two statements count as the same if and only if they have the same words, whatever white space stands between
      them. */
  lemma SameSqlIff(a: string, b: string)
    ensures SameSql(a, b) <==> Words(a, IsSpace) == Words(b, IsSpace)
  {
    hide Collapse, Words;
    CollapseAlikeIff(a, b);
  }

  function TryOnce(env: Env, attempt: nat, previous: string): Tried {
    match env.model(attempt)
    case ModelError(message) => Tried("", "", None, Generating, false, Err(message))
    case Answer(text, used) =>
      var usage := CountTokens(used);
      var sql := Clean(text);
      if !IsSelect(sql) then Tried(sql, "", usage, Validating, false, Err(NON_SELECT))
      else
        var check := env.safety(sql);
        if !check.isValid then
          Tried(sql, "", usage, Validating, false, Err(UNSAFE + Join(check.violations, ", ")))
        else
          var final := Enforced(check, sql);
          if attempt > 1 && previous != "" && SameSql(final, previous) then
            Tried(sql, final, usage, Validating, false, Err(UNCHANGED))
          else if !MeetsHint(env.filtersHint, final) then
            Tried(sql, final, usage, FilteringHint, false, Err(FilterError(Required(env.filtersHint).value)))
          else
            match env.database(attempt)
            case Rows(count) => Tried(sql, final, usage, Executing, true, Ok(count))
            case DbError(message) => Tried(sql, final, usage, Executing, true, Err(message))
  }

  // ---------------------------------------------------------------------------------- the loop

  datatype Next = Again(s: Loop) | Done(out: Outcome)

  function RecordedSql(t: Tried, lastSql: string): string {
    if t.final != "" then t.final else if t.generated != "" then t.generated else lastSql
  }

  function StageName(stage: Stage): string {
    match stage
    case Unknown => "unknown"
    case Generating => "generation"
    case Validating => "validation"
    case FilteringHint => "filters_hint"
    case Executing => "execution"
  }

  function Decorate(key: string, stage: Stage, error: string): string {
    "ERROR_KEY=" + key + "\nERROR_STAGE=" + StageName(stage) + "\n" + error
  }

  function Attempt(env: Env, s: Loop): Next {
    var n := s.attempts + 1;
    var t := TryOnce(env, n, s.lastSql);
    var executed := if t.ran then s.executed + [Execution(n, t.final, s.lastSql)] else s.executed;
    var tokens := AddTokens(s.tokens, t.usage);
    match t.result
    case Ok(count) =>
      var entry := AttemptLog(n, t.generated, t.final, t.usage, None, "", t.stage);
      Done(Returned(t.final, count, s.(attempts := n, lastSql := t.final, logs := s.logs + [entry],
                                       executed := executed, tokens := tokens)))
    case Err(message) =>
      var error := Describe(message);
      var key := ErrorKey(error);
      var entry := AttemptLog(n, t.generated, RecordedSql(t, s.lastSql), t.usage, Some(error), key, t.stage);
      AfterFailure(s, entry, executed, tokens, Decorate(key, t.stage, error))
  }

  /** The bookkeeping of the catch block, once the failure has been named and logged. */
  function AfterFailure(s: Loop, entry: AttemptLog, executed: seq<Execution>, tokens: Option<Tokens>,
                        decorated: string): Next
  {
    var same := if s.lastErrorKey != "" && entry.errorKey == s.lastErrorKey then s.same + 1 else 1;
    var s1 := s.(attempts := entry.attempt, lastSql := entry.finalSql, same := same, logs := s.logs + [entry],
                 executed := executed, tokens := tokens);
    if same >= MAX_CONSECUTIVE_SAME_ERROR then Done(StoppedEarly(s1))
    else
      var s2 := s1.(lastError := decorated, lastErrorKey := entry.errorKey);
      if entry.attempt >= MAX_ATTEMPTS then Done(GaveUp(s2)) else Again(s2)
  }

  function RunLoop(env: Env, s: Loop): Outcome
    decreases MAX_ATTEMPTS - s.attempts
  {
    if s.attempts >= MAX_ATTEMPTS then FellThrough(s)
    else match Attempt(env, s)
      case Done(out) => out
      case Again(s') => RunLoop(env, s')
  }

  const BEGIN := Loop(0, "", "", "", 0, [], [], None)

  // ------------------------------------------------------------------- what every run observes

  function SumUsage(logs: seq<AttemptLog>): Option<Tokens> {
    if logs == [] then None else AddTokens(SumUsage(logs[..|logs| - 1]), logs[|logs| - 1].usage)
  }

  lemma SumUsageSnoc(logs: seq<AttemptLog>, entry: AttemptLog)
    ensures SumUsage(logs + [entry]) == AddTokens(SumUsage(logs), entry.usage)
  {
    assert (logs + [entry])[..|logs|] == logs;
  }

  /** One part of all usage records, added up. */
  function TotalOf(logs: seq<AttemptLog>, part: Tokens -> nat): nat {
    if logs == [] then 0
    else (if logs[0].usage.Some? then part(logs[0].usage.value) else 0) + TotalOf(logs[1..], part)
  }

  function Totals(logs: seq<AttemptLog>): Tokens {
    Tokens(TotalOf(logs, (t: Tokens) => t.prompt), TotalOf(logs, (t: Tokens) => t.completion),
           TotalOf(logs, (t: Tokens) => t.total))
  }

  lemma {:induction false} TotalOfSnoc(logs: seq<AttemptLog>, entry: AttemptLog, part: Tokens -> nat)
    ensures TotalOf(logs + [entry], part)
      == TotalOf(logs, part) + if entry.usage.Some? then part(entry.usage.value) else 0
  {
    if logs == [] {
      assert ([] + [entry])[1..] == [];
    } else {
      assert (logs + [entry])[1..] == logs[1..] + [entry];
      TotalOfSnoc(logs[1..], entry, part);
    }
  }

  /** The accumulated total holds the sum of the prompt tokens, of the completion tokens and of the totals
      of all attempts; it is missing exactly when no attempt reported any. */
  lemma {:induction false} SumUsageAddsUp(logs: seq<AttemptLog>)
    ensures SumUsage(logs).None? <==> forall i :: 0 <= i < |logs| ==> logs[i].usage.None?
    ensures SumUsage(logs) == None || SumUsage(logs) == Some(Totals(logs))
    ensures SumUsage(logs) == None ==> Totals(logs) == Tokens(0, 0, 0)
  {
    if logs == [] {
    } else {
      var init, last := logs[..|logs| - 1], logs[|logs| - 1];
      SumUsageAddsUp(init);
      assert logs == init + [last];
      TotalOfSnoc(init, last, (t: Tokens) => t.prompt);
      TotalOfSnoc(init, last, (t: Tokens) => t.completion);
      TotalOfSnoc(init, last, (t: Tokens) => t.total);
    }
  }

  /** The entries are numbered from 1, each records a named failure, and no two neighbours have
      failed with the same key. */
  ghost predicate DistinctFailures(logs: seq<AttemptLog>) {
    && (forall i :: 0 <= i < |logs| ==> logs[i].attempt == i + 1 && logs[i].error.Some? && logs[i].errorKey != "")
    && (forall i :: 1 <= i < |logs| ==> logs[i].errorKey != logs[i - 1].errorKey)
  }

  /** Why a statement was allowed to run: the model's text is a select, it passed the safety check, it
      meets the filter hint, and it is not, up to white space, the SQL recorded before. */
  ghost predicate Justified(env: Env, e: Execution) {
    && env.model(e.attempt).Answer?
    && var sql := Clean(env.model(e.attempt).text);
    && IsSelect(sql)
    && env.safety(sql).isValid
    && e.sql == Enforced(env.safety(sql), sql)
    && MeetsHint(env.filtersHint, e.sql)
    && (e.attempt > 1 && e.recorded != "" ==> !SameSql(e.sql, e.recorded))
  }

  /** An execution is justified, belongs to one attempt, and compared itself with the SQL recorded by
      the attempt before. */
  ghost predicate SoundExecution(env: Env, e: Execution, logs: seq<AttemptLog>) {
    && Justified(env, e)
    && 1 <= e.attempt <= |logs|
    && e.sql == logs[e.attempt - 1].finalSql
    && e.recorded == if e.attempt == 1 then "" else logs[e.attempt - 2].finalSql
  }

  ghost predicate SoundExecutions(env: Env, executed: seq<Execution>, logs: seq<AttemptLog>) {
    && (forall i :: 0 <= i < |executed| ==> SoundExecution(env, executed[i], logs))
    && (forall i, j :: 0 <= i < j < |executed| ==> executed[i].attempt < executed[j].attempt)
  }

  /** What an attempt must bring along to be executed; `recorded` is the SQL recorded before it. */
  predicate Admissible(env: Env, attempt: nat, recorded: string) {
    match env.model(attempt)
    case ModelError(_) => false
    case Answer(text, _) =>
      var check := env.safety(Clean(text));
      var final := Enforced(check, Clean(text));
      IsSelect(Clean(text)) && check.isValid && MeetsHint(env.filtersHint, final)
      && !(attempt > 1 && recorded != "" && SameSql(final, recorded))
  }

  function Recorded(logs: seq<AttemptLog>, k: nat): string
    requires k <= |logs|
  {
    if k == 0 then "" else logs[k - 1].finalSql
  }

  predicate RanAt(executed: seq<Execution>, attempt: nat) {
    exists i :: 0 <= i < |executed| && executed[i].attempt == attempt
  }

  /** An attempt is executed if and only if it is admissible: nothing else runs, and nothing else is refused. */
  ghost predicate ExactExecutions(env: Env, executed: seq<Execution>, logs: seq<AttemptLog>) {
    forall k :: 0 <= k < |logs| ==> (RanAt(executed, k + 1) <==> Admissible(env, k + 1, Recorded(logs, k)))
  }

  function UsageOf(g: Generation): Option<Tokens> {
    match g
    case Answer(_, usage) => CountTokens(usage)
    case ModelError(_) => None
  }

  /** What stopped an attempt: the model's own error, the first test that refused its SQL, or the database. */
  ghost predicate StoppedBy(env: Env, attempt: nat, recorded: string, stage: Stage, message: string) {
    match env.model(attempt)
    case ModelError(text) => message == text && stage == Generating
    case Answer(text, _) =>
      var sql := Clean(text);
      var check := env.safety(sql);
      var final := Enforced(check, sql);
      var repeated := attempt > 1 && recorded != "" && SameSql(final, recorded);
      if !IsSelect(sql) then message == "Only SELECT queries are allowed for security reasons" && stage == Validating
      else if !check.isValid then
        message == "SQL safety validation failed: " + Join(check.violations, ", ") && stage == Validating
      else if repeated then
        message == "SQL unchanged from previous attempt; you must modify it to fix the error" && stage == Validating
      else if !MeetsHint(env.filtersHint, final) then
        && stage == FilteringHint
        && var asked := Required(env.filtersHint).value;
        message == "FILTERS_HINT enforcement failed: expected " + asked.column + "='" + asked.literal
                   + "' to appear in SQL"
      else env.database(attempt) == DbError(message) && stage == Executing
  }

  /** The SQL of an attempt as it is recorded: as enforced, else as generated, else what was recorded before. */
  function SqlAfter(env: Env, attempt: nat, recorded: string): string {
    match env.model(attempt)
    case ModelError(_) => recorded
    case Answer(text, _) =>
      if IsSelect(Clean(text)) && env.safety(Clean(text)).isValid then Enforced(env.safety(Clean(text)), Clean(text))
      else Clean(text)
  }

  /** An entry carries the tokens and the SQL of its own model call, and a failed one the described text of what
      stopped it, under the key of that text. */
  ghost predicate TrueEntry(env: Env, entry: AttemptLog, recorded: string) {
    && entry.usage == UsageOf(env.model(entry.attempt))
    && entry.generatedSql == (match env.model(entry.attempt) case Answer(text, _) => Clean(text) case _ => "")
    && entry.finalSql == SqlAfter(env, entry.attempt, recorded)
    && (entry.error.None? ==> Admissible(env, entry.attempt, recorded) && env.database(entry.attempt).Rows?)
    && (entry.error.Some? ==> entry.errorKey == ErrorKey(entry.error.value))
    && (entry.error.Some? ==> exists message ::
          StoppedBy(env, entry.attempt, recorded, entry.stage, message) && entry.error.value == Describe(message))
  }

  ghost predicate Metered(env: Env, logs: seq<AttemptLog>) {
    forall k :: 0 <= k < |logs| ==> logs[k].attempt == k + 1 && TrueEntry(env, logs[k], Recorded(logs, k))
  }

  /** The error of a failed attempt as it goes into the next prompt. */
  function Told(entry: AttemptLog): string {
    if entry.error.None? then "" else Decorate(entry.errorKey, entry.stage, entry.error.value)
  }

  lemma ToldText(entry: AttemptLog)
    requires entry.error.Some?
    ensures var stage := match entry.stage
        case Unknown => "unknown"
        case Generating => "generation"
        case Validating => "validation"
        case FilteringHint => "filters_hint"
        case Executing => "execution";
      Told(entry) == "ERROR_KEY=" + entry.errorKey + "\nERROR_STAGE=" + stage + "\n" + entry.error.value
  {}

  function ToldAfter(logs: seq<AttemptLog>): string {
    if logs == [] then "" else Told(logs[|logs| - 1])
  }

  /** What holds of the log, the executions and the tokens after every attempt. */
  ghost predicate Tracked(env: Env, s: Loop) {
    && |s.logs| == s.attempts
    && SoundExecutions(env, s.executed, s.logs)
    && ExactExecutions(env, s.executed, s.logs)
    && s.tokens == SumUsage(s.logs) && Metered(env, s.logs)
    && s.lastSql == Recorded(s.logs, s.attempts)
  }

  ghost predicate LoopInvariant(env: Env, s: Loop) {
    && Tracked(env, s)
    && DistinctFailures(s.logs)
    && s.same == (if s.attempts == 0 then 0 else 1)
    && s.lastErrorKey == (if s.attempts == 0 then "" else s.logs[s.attempts - 1].errorKey)
    && s.lastError == ToldAfter(s.logs)
  }

  ghost predicate Observed(env: Env, out: Outcome) {
    var s := out.last;
    && 1 <= s.attempts <= MAX_ATTEMPTS
    && Tracked(env, s)
    && DistinctFailures(s.logs[..s.attempts - 1])
    && s.lastError == ToldAfter(if out.GaveUp? then s.logs else s.logs[..s.attempts - 1])
    && match out
       case Returned(sql, count, _) =>
         && s.logs[s.attempts - 1].error.None?
         && s.executed != [] && s.executed[|s.executed| - 1].sql == sql
         && s.executed[|s.executed| - 1].attempt == s.attempts
         && env.database(s.attempts) == Rows(count)
       case StoppedEarly(_) =>
         s.attempts >= 2 && s.logs[s.attempts - 1].error.Some?
         && s.logs[s.attempts - 1].errorKey == s.logs[s.attempts - 2].errorKey
       case GaveUp(_) => s.attempts == MAX_ATTEMPTS && DistinctFailures(s.logs)
       case FellThrough(_) => false
  }

  function Grown(s: Loop, t: Tried): seq<Execution> {
    if t.ran then s.executed + [Execution(s.attempts + 1, t.final, s.lastSql)] else s.executed
  }

  lemma ExecutionsGrow(env: Env, s: Loop, t: Tried, entry: AttemptLog)
    requires LoopInvariant(env, s) && t == TryOnce(env, s.attempts + 1, s.lastSql)
    requires t.ran ==> entry.finalSql == t.final
    ensures SoundExecutions(env, Grown(s, t), s.logs + [entry])
  {
    hide TryOnce, Justified, ExactExecutions, Metered, DistinctFailures, SumUsage;
    var now := Execution(s.attempts + 1, t.final, s.lastSql);
    if t.ran {
      RanIsJustified(env, s.attempts + 1, s.lastSql);
      var logs, executed := s.logs + [entry], s.executed + [now];
      forall i | 0 <= i < |executed| ensures SoundExecution(env, executed[i], logs) {
        if i < |s.executed| { assert SoundExecution(env, s.executed[i], s.logs); }
      }
    } else {
      forall i | 0 <= i < |s.executed| ensures SoundExecution(env, s.executed[i], s.logs + [entry]) {
        assert SoundExecution(env, s.executed[i], s.logs);
      }
    }
  }

  lemma RanIsJustified(env: Env, attempt: nat, previous: string)
    requires TryOnce(env, attempt, previous).ran
    ensures Justified(env, Execution(attempt, TryOnce(env, attempt, previous).final, previous))
  {
    hide Clean, IsSelect, MeetsHint, SameSql, Join, FilterError;
  }

  lemma RanIffAdmissible(env: Env, attempt: nat, previous: string)
    ensures TryOnce(env, attempt, previous).ran <==> Admissible(env, attempt, previous)
    ensures TryOnce(env, attempt, previous).usage == UsageOf(env.model(attempt))
  {
    hide Clean, IsSelect, MeetsHint, SameSql, Join, FilterError, CountTokens;
  }

  lemma RanAtSnoc(executed: seq<Execution>, e: Execution, attempt: nat)
    ensures RanAt(executed + [e], attempt) <==> RanAt(executed, attempt) || e.attempt == attempt
  {
    var longer := executed + [e];
    assert longer[|executed|] == e && forall i :: 0 <= i < |executed| ==> longer[i] == executed[i];
  }

  lemma NotYetRan(env: Env, s: Loop)
    requires LoopInvariant(env, s)
    ensures !RanAt(s.executed, s.attempts + 1)
  {
    hide Justified, ExactExecutions, DistinctFailures, Metered, SumUsage;
    assert forall i :: 0 <= i < |s.executed| ==> SoundExecution(env, s.executed[i], s.logs);
  }

  lemma ExactGrows(env: Env, s: Loop, t: Tried, entry: AttemptLog)
    requires LoopInvariant(env, s) && t == TryOnce(env, s.attempts + 1, s.lastSql)
    ensures ExactExecutions(env, Grown(s, t), s.logs + [entry])
  {
    hide TryOnce, SoundExecutions, Admissible, DistinctFailures, Metered, RanAt, SumUsage;
    RanIffAdmissible(env, s.attempts + 1, s.lastSql);
    NotYetRan(env, s);
    var now := Execution(s.attempts + 1, t.final, s.lastSql);
    var logs := s.logs + [entry];
    var executed := if t.ran then s.executed + [now] else s.executed;
    forall k | 0 <= k < |logs| ensures RanAt(executed, k + 1) <==> Admissible(env, k + 1, Recorded(logs, k)) {
      RanAtSnoc(s.executed, now, k + 1);
      if k < |s.logs| { assert logs[k] == s.logs[k] && Recorded(logs, k) == Recorded(s.logs, k); }
    }
  }

  lemma RanHasFinal(env: Env, attempt: nat, previous: string)
    ensures var t := TryOnce(env, attempt, previous);
      (t.ran ==> t.final != "") && (t.result.Ok? ==> t.ran && env.database(attempt) == Rows(t.result.count))
  {
    hide Clean, IsSelect, MeetsHint, SameSql, Join, FilterError;
  }

  lemma DistinctGrows(logs: seq<AttemptLog>, entry: AttemptLog)
    requires DistinctFailures(logs)
    requires entry.attempt == |logs| + 1 && entry.error.Some? && entry.errorKey != ""
    ensures logs == [] || logs[|logs| - 1].errorKey != entry.errorKey ==> DistinctFailures(logs + [entry])
  {}

  lemma RecordedBefore(logs: seq<AttemptLog>, entry: AttemptLog, k: nat)
    requires k <= |logs|
    ensures Recorded(logs + [entry], k) == Recorded(logs, k)
  {}

  lemma MeteredGrows(env: Env, logs: seq<AttemptLog>, entry: AttemptLog)
    requires Metered(env, logs) && entry.attempt == |logs| + 1 && TrueEntry(env, entry, Recorded(logs, |logs|))
    ensures Metered(env, logs + [entry])
  {
    hide TrueEntry, Recorded;
    var more := logs + [entry];
    forall k | 0 <= k < |more| ensures more[k].attempt == k + 1 && TrueEntry(env, more[k], Recorded(more, k)) {
      RecordedBefore(logs, entry, k);
      if k < |logs| { assert more[k] == logs[k] && TrueEntry(env, logs[k], Recorded(logs, k)); }
    }
  }

  lemma LogsGrow(env: Env, s: Loop, entry: AttemptLog)
    requires LoopInvariant(env, s) && entry.attempt == s.attempts + 1 && TrueEntry(env, entry, s.lastSql)
    ensures Metered(env, s.logs + [entry]) && SumUsage(s.logs + [entry]) == AddTokens(s.tokens, entry.usage)
    ensures (s.logs + [entry])[..s.attempts] == s.logs
  {
    hide SoundExecutions, ExactExecutions, DistinctFailures, AddTokens, SumUsage, TrueEntry, ToldAfter, Metered;
    SumUsageSnoc(s.logs, entry);
    MeteredGrows(env, s.logs, entry);
  }

  function Succeeded(s: Loop, entry: AttemptLog, executed: seq<Execution>, tokens: Option<Tokens>): Loop {
    s.(attempts := entry.attempt, lastSql := entry.finalSql, logs := s.logs + [entry],
       executed := executed, tokens := tokens)
  }

  lemma AttemptIsTracked(env: Env, s: Loop, entry: AttemptLog, executed: seq<Execution>, tokens: Option<Tokens>)
    requires LoopInvariant(env, s) && entry.attempt == s.attempts + 1 && TrueEntry(env, entry, s.lastSql)
    requires SoundExecutions(env, executed, s.logs + [entry]) && ExactExecutions(env, executed, s.logs + [entry])
    requires tokens == AddTokens(s.tokens, entry.usage)
    ensures Tracked(env, Succeeded(s, entry, executed, tokens))
    ensures (s.logs + [entry])[..s.attempts] == s.logs
  {
    hide SoundExecutions, ExactExecutions, DistinctFailures, AddTokens, SumUsage, TrueEntry, Metered, ToldAfter;
    LogsGrow(env, s, entry);
  }

  lemma SuccessObserves(env: Env, s: Loop, entry: AttemptLog, executed: seq<Execution>, tokens: Option<Tokens>,
                        count: nat)
    requires LoopInvariant(env, s) && s.attempts < MAX_ATTEMPTS
    requires entry.attempt == s.attempts + 1 && entry.error.None? && env.database(entry.attempt) == Rows(count)
    requires SoundExecutions(env, executed, s.logs + [entry]) && ExactExecutions(env, executed, s.logs + [entry])
    requires executed != [] && executed[|executed| - 1].sql == entry.finalSql
    requires executed[|executed| - 1].attempt == entry.attempt
    requires tokens == AddTokens(s.tokens, entry.usage) && TrueEntry(env, entry, s.lastSql)
    ensures Observed(env, Returned(entry.finalSql, count, Succeeded(s, entry, executed, tokens)))
  {
    hide SoundExecutions, ExactExecutions, DistinctFailures, AddTokens, TrueEntry, Tracked, ToldAfter;
    AttemptIsTracked(env, s, entry, executed, tokens);
    TrackedCounts(env, s);
  }

  lemma TrackedCounts(env: Env, s: Loop)
    requires Tracked(env, s)
    ensures |s.logs| == s.attempts
  {
    hide SoundExecutions, ExactExecutions, Metered;
  }

  function SuccessEntry(s: Loop, t: Tried): AttemptLog {
    AttemptLog(s.attempts + 1, t.generated, t.final, t.usage, None, "", t.stage)
  }

  lemma AttemptIsDone(env: Env, s: Loop, t: Tried)
    requires t == TryOnce(env, s.attempts + 1, s.lastSql) && t.result.Ok? && t.ran
    ensures Attempt(env, s) == Done(Returned(t.final, t.result.count,
              Succeeded(s, SuccessEntry(s, t), s.executed + [Execution(s.attempts + 1, t.final, s.lastSql)],
                        AddTokens(s.tokens, t.usage))))
  {
    hide TryOnce, AddTokens, Describe, ErrorKey, Decorate, AfterFailure, RecordedSql;
  }

  lemma SuccessIsTrue(env: Env, s: Loop, t: Tried)
    requires t == TryOnce(env, s.attempts + 1, s.lastSql)
    ensures t.result.Ok? ==> TrueEntry(env, SuccessEntry(s, t), s.lastSql)
  {
    hide TryOnce, UsageOf, ErrorKey, SqlAfter, StoppedBy, Admissible;
    RanIffAdmissible(env, s.attempts + 1, s.lastSql);
    RanHasFinal(env, s.attempts + 1, s.lastSql);
    RecordsItsSql(env, s.attempts + 1, s.lastSql);
  }

  lemma RecordsItsSql(env: Env, attempt: nat, previous: string)
    ensures RecordedSql(TryOnce(env, attempt, previous), previous) == SqlAfter(env, attempt, previous)
    ensures TryOnce(env, attempt, previous).ran ==> TryOnce(env, attempt, previous).final != ""
    ensures TryOnce(env, attempt, previous).generated
      == match env.model(attempt) case Answer(text, _) => Clean(text) case _ => ""
  {
    hide Clean, IsSelect, MeetsHint, SameSql, Join, FilterError;
  }

  lemma FailureIsStopped(env: Env, attempt: nat, previous: string)
    ensures var t := TryOnce(env, attempt, previous);
      t.result.Err? ==> StoppedBy(env, attempt, previous, t.stage, t.result.message)
  {
    hide Clean, IsSelect, MeetsHint, SameSql, Join, Required;
  }

  lemma FailureIsTrue(env: Env, s: Loop, t: Tried)
    requires t == TryOnce(env, s.attempts + 1, s.lastSql) && t.result.Err?
    ensures TrueEntry(env, FailureEntry(s, t), s.lastSql)
  {
    hide TryOnce, UsageOf, ErrorKey, SqlAfter, StoppedBy, Admissible, Describe, RecordedSql;
    RanIffAdmissible(env, s.attempts + 1, s.lastSql);
    RecordsItsSql(env, s.attempts + 1, s.lastSql);
    FailureIsStopped(env, s.attempts + 1, s.lastSql);
  }

  lemma AttemptReturns(env: Env, s: Loop)
    requires LoopInvariant(env, s) && s.attempts < MAX_ATTEMPTS
    ensures TryOnce(env, s.attempts + 1, s.lastSql).result.Ok? ==>
      Attempt(env, s).Done? && Observed(env, Attempt(env, s).out)
  {
    hide TryOnce, SoundExecutions, ExactExecutions, AddTokens, LoopInvariant, Observed, Attempt, TrueEntry, Succeeded;
    var n := s.attempts + 1;
    var t := TryOnce(env, n, s.lastSql);
    RanHasFinal(env, n, s.lastSql);
    var entry := SuccessEntry(s, t);
    ExecutionsGrow(env, s, t, entry);
    ExactGrows(env, s, t, entry);
    if t.result.Ok? {
      SuccessIsTrue(env, s, t);
      AttemptIsDone(env, s, t);
      var executed := s.executed + [Execution(n, t.final, s.lastSql)];
      SuccessObserves(env, s, entry, executed, AddTokens(s.tokens, t.usage), t.result.count);
    }
  }

  lemma FailureObserves(env: Env, s: Loop, entry: AttemptLog, executed: seq<Execution>, tokens: Option<Tokens>,
                        decorated: string)
    requires LoopInvariant(env, s) && s.attempts < MAX_ATTEMPTS
    requires entry.attempt == s.attempts + 1 && entry.error.Some? && entry.errorKey != ""
    requires SoundExecutions(env, executed, s.logs + [entry]) && ExactExecutions(env, executed, s.logs + [entry])
    requires tokens == AddTokens(s.tokens, entry.usage) && TrueEntry(env, entry, s.lastSql)
    requires decorated == Told(entry)
    ensures match AfterFailure(s, entry, executed, tokens, decorated)
            case Again(s') => LoopInvariant(env, s') && s'.attempts == s.attempts + 1 < MAX_ATTEMPTS
            case Done(out) => Observed(env, out)
  {
    hide SoundExecutions, ExactExecutions, DistinctFailures, AddTokens, TrueEntry, Tracked, Told, ToldAfter;
    AttemptIsTracked(env, s, entry, executed, tokens);
    TrackedCounts(env, s);
    DistinctGrows(s.logs, entry);
    ToldLast(s.logs, entry);
    TrackedIgnores(env, Succeeded(s, entry, executed, tokens), decorated, entry.errorKey);
  }

  lemma ToldLast(logs: seq<AttemptLog>, entry: AttemptLog)
    ensures ToldAfter(logs + [entry]) == Told(entry)
    ensures (logs + [entry])[..|logs|] == logs && (logs + [entry])[..|logs| + 1] == logs + [entry]
  {
    hide Told;
  }

  lemma TrackedIgnores(env: Env, s: Loop, lastError: string, lastErrorKey: string)
    requires Tracked(env, s)
    ensures forall same: nat :: Tracked(env, s.(same := same))
    ensures forall same: nat ::
      Tracked(env, s.(same := same, lastError := lastError, lastErrorKey := lastErrorKey))
  {
    hide SoundExecutions, ExactExecutions, Metered, SumUsage;
  }

  function FailureEntry(s: Loop, t: Tried): AttemptLog
    requires t.result.Err?
  {
    var error := Describe(t.result.message);
    AttemptLog(s.attempts + 1, t.generated, RecordedSql(t, s.lastSql), t.usage, Some(error), ErrorKey(error), t.stage)
  }

  lemma AttemptIsFailure(env: Env, s: Loop, t: Tried) returns (decorated: string)
    requires t == TryOnce(env, s.attempts + 1, s.lastSql) && t.result.Err?
    ensures Attempt(env, s) == AfterFailure(s, FailureEntry(s, t),
              if t.ran then s.executed + [Execution(s.attempts + 1, t.final, s.lastSql)] else s.executed,
              AddTokens(s.tokens, t.usage), decorated)
    ensures decorated == Told(FailureEntry(s, t))
  {
    hide TryOnce, AddTokens, Describe, ErrorKey, Decorate, AfterFailure, RecordedSql;
    var error := Describe(t.result.message);
    decorated := Decorate(ErrorKey(error), t.stage, error);
  }

  lemma AttemptFails(env: Env, s: Loop)
    requires LoopInvariant(env, s) && s.attempts < MAX_ATTEMPTS
    requires TryOnce(env, s.attempts + 1, s.lastSql).result.Err?
    ensures match Attempt(env, s)
            case Again(s') => LoopInvariant(env, s') && s'.attempts == s.attempts + 1 < MAX_ATTEMPTS
            case Done(out) => Observed(env, out)
  {
    hide TryOnce, Describe, ErrorKey, SoundExecutions, ExactExecutions, AddTokens, LoopInvariant, Observed,
      AfterFailure, Attempt, UsageOf;
    var n := s.attempts + 1;
    var t := TryOnce(env, n, s.lastSql);
    RanHasFinal(env, n, s.lastSql);
    var entry := FailureEntry(s, t);
    ExecutionsGrow(env, s, t, entry);
    ExactGrows(env, s, t, entry);
    FailureIsTrue(env, s, t);
    var executed := if t.ran then s.executed + [Execution(n, t.final, s.lastSql)] else s.executed;
    var decorated := AttemptIsFailure(env, s, t);
    FailureObserves(env, s, entry, executed, AddTokens(s.tokens, t.usage), decorated);
  }

  lemma AttemptObserves(env: Env, s: Loop)
    requires LoopInvariant(env, s) && s.attempts < MAX_ATTEMPTS
    ensures match Attempt(env, s)
            case Again(s') => LoopInvariant(env, s') && s'.attempts == s.attempts + 1 < MAX_ATTEMPTS
            case Done(out) => Observed(env, out)
  {
    hide TryOnce, LoopInvariant, Observed;
    if TryOnce(env, s.attempts + 1, s.lastSql).result.Ok? {
      AttemptReturns(env, s);
    } else {
      AttemptFails(env, s);
    }
  }

  lemma {:induction false} LoopObserves(env: Env, s: Loop)
    requires LoopInvariant(env, s) && s.attempts < MAX_ATTEMPTS
    ensures Observed(env, RunLoop(env, s))
    decreases MAX_ATTEMPTS - s.attempts
  {
    AttemptObserves(env, s);
    match Attempt(env, s)
    case Done(_) =>
    case Again(s') => LoopObserves(env, s');
  }

  /** Every run of the loop returns or throws within five attempts; no two adjacent failures share a key
      except the last two of an early stop; every executed statement is justified, and every admissible
      attempt is executed; and the token total is the sum over all model calls. */
  lemma EveryRunIsObserved(env: Env)
    ensures Observed(env, RunLoop(env, BEGIN)) && 1 <= RunLoop(env, BEGIN).last.attempts <= 5
  {
    LoopObserves(env, BEGIN);
  }

  /** A run ends in an early stop if and only if its last two attempts failed with the same key. */
  lemma EarlyStopIff(env: Env, out: Outcome)
    requires Observed(env, out)
    ensures var n := out.last.attempts; var logs := out.last.logs;
      out.StoppedEarly? <==> n >= 2 && logs[n - 1].error.Some? && logs[n - 1].errorKey == logs[n - 2].errorKey
  {
    hide SoundExecutions, ExactExecutions, Metered, SumUsage, ToldAfter;
  }

  /** The database's own message is what a failed execution is remembered by. */
  lemma ExecutedFailureIsKeyed(env: Env, out: Outcome, k: nat, message: string)
    requires Observed(env, out) && 1 <= k <= out.last.attempts && RanAt(out.last.executed, k)
    requires env.database(k) == DbError(message)
    ensures var log := out.last.logs[k - 1];
      log.error == Some(Describe(message)) && log.errorKey == ErrorKey(Describe(message))
  {
    hide SoundExecutions, SumUsage, ToldAfter, Describe, ErrorKey, DistinctFailures, Clean, IsSelect, SameSql,
      MeetsHint, Join, FilterError, Required, RanAt;
    var logs := out.last.logs;
    assert TrueEntry(env, logs[k - 1], Recorded(logs, k - 1)) && logs[k - 1].attempt == k;
    assert Admissible(env, k - 1 + 1, Recorded(logs, k - 1));
  }

  /** So a run whose last two attempts were both executed, and both failed, stops early if and only if the two
      database messages have the same key: different database errors never stop it early. */
  lemma ExecutedFailuresStopIff(env: Env, m1: string, m2: string)
    requires var out := RunLoop(env, BEGIN); var n := out.last.attempts;
      && n >= 2 && RanAt(out.last.executed, n - 1) && RanAt(out.last.executed, n)
      && env.database(n - 1) == DbError(m1) && env.database(n) == DbError(m2)
    ensures RunLoop(env, BEGIN).StoppedEarly? <==> ErrorKey(Describe(m1)) == ErrorKey(Describe(m2))
  {
    hide RunLoop, RanAt, Describe, ErrorKey, Observed;
    EveryRunIsObserved(env);
    var out := RunLoop(env, BEGIN);
    EarlyStopIff(env, out);
    ExecutedFailureIsKeyed(env, out, out.last.attempts - 1, m1);
    ExecutedFailureIsKeyed(env, out, out.last.attempts, m2);
  }

  // ----------------------------------------------------------------------- a model that repeats

  lemma SameTextTriesAlike(env: Env, n: nat, previous: string)
    requires n > 1 && env.model(1).Answer? && env.model(n).Answer? && env.model(n).text == env.model(1).text
    ensures var first := TryOnce(env, 1, ""); var t := TryOnce(env, n, previous);
      && first.generated != "" && t.generated == first.generated && t.final == first.final
      && (first.final == "" ==> !first.ran && first.result.Err? && !t.ran && t.result == first.result)
      && (first.final != "" && previous == first.final ==> !t.ran && t.result == Err(UNCHANGED))
  {
    hide Clean, IsSelect, MeetsHint, Join, Collapse, FilterError;
  }

  /** A model that repeats one text is stopped by its third attempt, after at most one execution,
      whatever the safety check and the database answer; only a first attempt can succeed. */
  lemma RepeatedTextStopsByThird(env: Env, text: string)
    requires forall n :: env.model(n).Answer? && env.model(n).text == text
    ensures var out := RunLoop(env, BEGIN);
      && out.last.attempts <= 3 && |out.last.executed| <= 1
      && (if out.Returned? then out.last.attempts == 1 else out.StoppedEarly?)
  {
    hide TryOnce, Describe, ErrorKey, Decorate, AddTokens;
    var first := TryOnce(env, 1, "");
    if first.result.Err? {
      SameTextTriesAlike(env, 2, first.final);
      SameTextTriesAlike(env, 2, first.generated);
      SameTextTriesAlike(env, 3, first.final);
      var s1 := Attempt(env, BEGIN).s;
      assert s1.lastSql == if first.final != "" then first.final else first.generated;
      assert RunLoop(env, BEGIN) == RunLoop(env, s1);
      if Attempt(env, s1).Again? {
        var s2 := Attempt(env, s1).s;
        assert s2.lastSql == first.final && s2.lastErrorKey == ErrorKey(Describe(UNCHANGED));
        assert RunLoop(env, s1) == RunLoop(env, s2);
      }
    }
  }

  // --------------------------------------------------------------------------- canonical reuse

  predicate ReuseApplies(env: Env) {
    env.canonical.Reuse? && env.canonical.preferred && (env.filtersHint.None? || env.filtersHint.value == "")
  }

  function CanonicalText(env: Env): string
    requires env.canonical.Reuse?
  {
    StripFence(StripFence(env.canonical.sql, "```sql", true), "```", false)
  }

  datatype Guarded = Allowed(sql: string) | Refused(reason: string)

  predicate Mentions(ids: seq<string>, userId: string) {
    exists i :: 0 <= i < |ids| && Lower(ids[i]) == Lower(userId)
  }

  predicate MentionsOnly(ids: seq<string>, userId: string) {
    forall i :: 0 <= i < |ids| ==> Lower(ids[i]) == Lower(userId)
  }

  /** The guard of a personal question: the stored query must be scoped to this user and no other. */
  function GuardScope(env: Env): Guarded
    requires env.canonical.Reuse?
  {
    var sql := CanonicalText(env);
    if env.intent != Own then Allowed(sql)
    else if env.userId == "" then Refused("skip_reuse_no_user")
    else
      var ids := Uuids(sql, 0);
      var filled := if !Mentions(ids, env.userId) && Contains(sql, "USER_ID") then FillUserId(sql, env.userId) else sql;
      if !Mentions(ids, env.userId) && !Contains(filled, env.userId) then Refused("skip_reuse_missing_user_scope")
      else if !MentionsOnly(ids, env.userId) then Refused("skip_reuse_foreign_user_scope")
      else Allowed(filled)
  }

  function TryReuse(env: Env): Tried
    requires env.canonical.Reuse?
  {
    match GuardScope(env)
    case Refused(reason) => Tried("", "", None, Unknown, false, Err(reason))
    case Allowed(text) =>
      var sql := WithSemicolon(text);
      if !StartsWith(Lower(sql), "select") then Tried(sql, "", None, Unknown, false, Err(NON_SELECT_REUSE))
      else
        var check := env.safety(sql);
        if !check.isValid then
          Tried(sql, "", None, Unknown, false, Err(UNSAFE + Join(check.violations, ", ")))
        else
          match env.database(0)
          case Rows(count) => Tried(sql, Enforced(check, sql), None, Unknown, true, Ok(count))
          case DbError(message) => Tried(sql, Enforced(check, sql), None, Unknown, true, Err(message))
  }

  /** A stored query only runs when the session has no filter hint, and only if it is a safe select.  For a
      personal question the text handed to the safety check names the current user, and every UUID anywhere in
      it overlaps an occurrence of the user's id: there is none elsewhere, though one may be formed across its
      edge.  Whether that holds of the text that is run, too, is ExecutedReuseIsScopedIff. */
  lemma ReuseIsScoped(env: Env)
    requires ReuseApplies(env) && TryReuse(env).ran
    ensures Required(env.filtersHint).None?
    ensures var t := TryReuse(env);
      && StartsWith(Lower(t.generated), "select") && env.safety(t.generated).isValid
      && t.final == Enforced(env.safety(t.generated), t.generated)
    ensures env.intent == Own ==> env.userId != "" && ScopedTo(TryReuse(env).generated, env.userId)
  {
    hide CanonicalText, Lower, StartsWith, Uuids, Join, FillUserId, IsUuidAt, OverlapsId, NamesUser, Mentions,
      MentionsOnly, WithSemicolon, Contains;
    if env.intent == Own {
      var sql := GuardScope(env).sql;
      GuardedNamesUser(env);
      forall i | IsUuidAt(WithSemicolon(sql), i) ensures exists p :: OverlapsId(WithSemicolon(sql), i, env.userId, p) {
        UuidBeforeSemicolon(sql, i);
        var p := GuardedUuidOverlaps(env, i);
        OverlapBeforeSemicolon(sql, i, env.userId, p);
      }
      NamedBeforeSemicolon(sql, env.userId);
    }
    if env.filtersHint.Some? {
      assert Trim("") == "";
    }
  }

  /** Whether the stored text may stand for this user: no UUID of it is another's, and it holds the id or the
      placeholder. */
  predicate ScopeAllows(sql: string, userId: string) {
    && userId != ""
    && (forall i :: 0 <= i < |Uuids(sql, 0)| ==> Lower(Uuids(sql, 0)[i]) == Lower(userId))
    && (Uuids(sql, 0) != [] || Contains(sql, "USER_ID") || Contains(sql, userId))
  }

  /** The text that would be run: the placeholder is filled in only where no UUID names the user. */
  function ReusedText(env: Env): string
    requires env.canonical.Reuse?
  {
    var sql := CanonicalText(env);
    var fills := env.intent == Own && Uuids(sql, 0) == [] && Contains(sql, "USER_ID");
    WithSemicolon(if fills then FillUserId(sql, env.userId) else sql)
  }

  /** A stored query is run if and only if it may stand for the user, where that matters, and it is a safe select;
      then the database's answer is its result. */
  lemma ReuseRunsIff(env: Env)
    requires env.canonical.Reuse?
    ensures TryReuse(env).ran
      <==> && (env.intent == Own ==> ScopeAllows(CanonicalText(env), env.userId))
           && StartsWith(Lower(ReusedText(env)), "select") && env.safety(ReusedText(env)).isValid
    ensures TryReuse(env).ran ==> TryReuse(env).generated == ReusedText(env)
    ensures TryReuse(env).ran ==>
      TryReuse(env).result == match env.database(0) case Rows(count) => Ok(count) case DbError(text) => Err(text)
  {
    GuardAllowsIff(env);
    hide CanonicalText, Lower, StartsWith, Uuids, Join, FillUserId, Contains, GuardScope, ScopeAllows;
  }

  /** The guard refuses a personal query for the first thing that is wrong with it. */
  lemma GuardRefusesFor(env: Env)
    requires env.canonical.Reuse? && GuardScope(env).Refused?
    ensures var sql, ids := CanonicalText(env), Uuids(CanonicalText(env), 0);
      GuardScope(env).reason
        == if env.userId == "" then "skip_reuse_no_user"
           else if !Mentions(ids, env.userId) && !Contains(sql, "USER_ID") && !Contains(sql, env.userId) then
             "skip_reuse_missing_user_scope"
           else "skip_reuse_foreign_user_scope"
  {
    hide CanonicalText, Lower, Uuids, FillUserId, Contains, Mentions, MentionsOnly;
    var sql := CanonicalText(env);
    if Contains(sql, "USER_ID") { PlaceholderIsFilled(sql, env.userId); }
  }

  /** A stored query that is not run is refused by the guard, or is no select, or is not safe. */
  lemma ReuseRefusedFor(env: Env)
    requires env.canonical.Reuse? && !TryReuse(env).ran
    ensures var sql := TryReuse(env).generated;
      TryReuse(env).result
        == Err(if GuardScope(env).Refused? then GuardScope(env).reason
               else if !StartsWith(Lower(sql), "select") then "Only SELECT queries are allowed for canonical reuse"
               else "SQL safety validation failed: " + Join(env.safety(sql).violations, ", "))
  {
    hide GuardScope, Lower, StartsWith, Join, WithSemicolon;
  }

  lemma GuardAllowsIff(env: Env)
    requires env.canonical.Reuse?
    ensures GuardScope(env).Allowed? <==> (env.intent == Own ==> ScopeAllows(CanonicalText(env), env.userId))
    ensures GuardScope(env).Allowed? ==> ReusedText(env) == WithSemicolon(GuardScope(env).sql)
  {
    hide CanonicalText, Lower, Uuids, FillUserId, Contains, WithSemicolon;
    var sql := CanonicalText(env);
    var ids := Uuids(sql, 0);
    FirstIsUser(ids, env.userId);
    if Contains(sql, "USER_ID") { PlaceholderIsFilled(sql, env.userId); }
    if ids != [] && MentionsOnly(ids, env.userId) { assert Mentions(ids, env.userId); }
  }

  predicate Rewritten(check: Safety) {
    check.enforced.Some? && check.enforced.value != ""
  }

  /** If the safety check rewrites a statement, it takes the comment-free text and puts a limit at its end. */
  predicate RewritesAsCheck(check: Safety, sql: string) {
    Rewritten(check) ==> check.enforced.value == EnforceLimit(StripComments(sql))
  }

  /** The stored query that is run for a personal question keeps its scope if and only if the safety check does
      not rewrite it or it is scoped without its comments; so it does whenever it opens no comment. */
  lemma ExecutedReuseIsScopedIff(env: Env)
    requires ReuseApplies(env) && TryReuse(env).ran && env.intent == Own && IsPlainId(env.userId)
    requires RewritesAsCheck(env.safety(TryReuse(env).generated), TryReuse(env).generated)
    ensures var t := TryReuse(env);
      && ReuseExecuted(env) == [Execution(0, t.final, "")]
      && (ScopedTo(t.final, env.userId)
          <==> !Rewritten(env.safety(t.generated)) || ScopedTo(StripComments(t.generated), env.userId))
      && (!HasCommentMark(t.generated) ==> ScopedTo(t.final, env.userId))
  {
    hide TryReuse, StartsWith, ScopedTo, EnforceLimit, StripComments, HasCommentMark, IsPlainId, Required;
    var sql := TryReuse(env).generated;
    ReuseIsScoped(env);
    LimitKeepsScope(StripComments(sql), env.userId);
    if !HasCommentMark(sql) {
      ReusedIsTrimmed(env);
      NoCommentsToStrip(sql);
    }
  }

  lemma ReusedIsTrimmed(env: Env)
    requires env.canonical.Reuse? && TryReuse(env).ran
    ensures IsTrimmed(TryReuse(env).generated)
  {
    hide GuardScope, Lower, Join, StartsWith, EndsWith, IsTrimmed, WithSemicolon;
    SelectWithSemicolonIsTrimmed(TryReuse(env).generated);
  }

  lemma SelectWithSemicolonIsTrimmed(sql: string)
    requires StartsWith(Lower(sql), "select") && EndsWith(sql, ";")
    ensures IsTrimmed(sql)
  {
    hide Lower;
    assert Lower(sql)[0] == 's' && Lower(sql)[0] == LowerChar(sql[0]);
    assert sql[|sql| - 1..] == ";";
  }

  const COMMENTED := "select 1 -- USER_ID"

  /** A safety check that accepts every statement and enforces its limit. */
  function LimitAll(sql: string): Safety {
    Safety(true, [], Some(EnforceLimit(StripComments(sql))))
  }

  function CommentedEnv(userId: string, model: nat -> Generation, database: nat -> Database): Env {
    Env(None, Own, userId, Reuse(COMMENTED, true), model, LimitAll, database)
  }

  /** An id in a comment passes the guard and is gone from the text that is run. */
  lemma CommentHidesScope(userId: string, model: nat -> Generation, database: nat -> Database)
    requires |userId| == 36 && IsUuidAt(userId, 0)
    ensures ReuseExecuted(CommentedEnv(userId, model, database)) == [Execution(0, "select 1 LIMIT 50", "")]
    ensures !NamesUser("select 1 LIMIT 50", userId)
  {
    hide StripComments, EnforceLimit, IsUuidAt, TryReuse;
    CommentedRuns(CommentedEnv(userId, model, database));
    CommentIsDropped(userId);
    SelectIsLimited();
  }

  lemma CommentedIsAllowed(env: Env)
    requires env.canonical == Reuse(COMMENTED, true) && env.intent == Own && |env.userId| == 36
    ensures GuardScope(env) == Allowed("select 1 -- " + env.userId)
  {
    hide Uuids, FillUserId, Contains, StripFence, IsUuidAt;
    NoFence(COMMENTED, "```sql", true);
    NoFence(COMMENTED, "```", false);
    NoUuidYet(COMMENTED);
    UuidsAreFound(COMMENTED, 0);
    PlaceholderIsThere();
    CommentedIsFilled(env.userId);
  }

  lemma PlaceholderIsThere()
    ensures Contains(COMMENTED, "USER_ID")
  {
    hide Contains;
    assert COMMENTED[12..12 + |"USER_ID"|] == "USER_ID";
    ContainsAt(COMMENTED, "USER_ID", 12);
  }

  lemma CommentedIsFilled(userId: string)
    ensures var filled := "select 1 -- " + userId;
      FillUserId(COMMENTED, userId) == filled && Contains(filled, userId)
  {
    hide FillUserId, Contains;
    var front := "select 1 -- ";
    var filled := front + userId;
    assert COMMENTED == front + "USER_ID";
    FrontIsCopied(front, "USER_ID", userId);
    PlaceholderAlone(userId);
    assert filled[12..12 + |userId|] == userId;
    ContainsAt(filled, userId, 12);
  }

  lemma CommentedRuns(env: Env)
    requires env.canonical == Reuse(COMMENTED, true) && env.intent == Own
    requires |env.userId| == 36 && IsUuidAt(env.userId, 0)
    requires env.safety("select 1 -- " + env.userId + ";").isValid
    ensures var t := TryReuse(env); var sql := "select 1 -- " + env.userId + ";";
      t.ran && t.generated == sql && t.final == Enforced(env.safety(sql), sql)
  {
    hide GuardScope, Lower;
    CommentedIsAllowed(env);
    var text := "select 1 -- " + env.userId;
    assert IsHex(env.userId[35]);
    assert text[|text| - 1..] == [env.userId[35]];
    var sql := text + ";";
    assert WithSemicolon(text) == sql;
    var word := Lower(sql)[..6];
    assert forall k :: 0 <= k < 6 ==> word[k] == "select"[k] by {
      assert forall k :: 0 <= k < 6 ==> Lower(sql)[k] == LowerChar("select"[k]);
    }
    assert word == "select";
  }

  lemma CommentIsDropped(userId: string)
    requires |userId| == 36 && IsUuidAt(userId, 0)
    ensures StripComments("select 1 -- " + userId + ";") == "select 1"
  {
    hide StripLineComments, StripBlockComments, Trim, StartsAt;
    UuidIsPlain(userId);
    var rest := " " + userId + ";";
    assert '\n' !in userId by { assert IsSpace('\n'); }
    var front := "select 1 ";
    assert "select 1 -- " + userId + ";" == front + "--" + rest;
    LineIsCut(front, rest);
    NoMark(front, "/*");
    NoBlockComments(front);
    TrimDropsBlank();
  }

  lemma TrimDropsBlank()
    ensures Trim("select 1 ") == Trim("select 1") == "select 1"
  {
    assert TrimStart("select 1 ") == "select 1 ";
    assert "select 1 "[..8] == "select 1";
    assert TrimEnd("select 1") == "select 1";
  }

  lemma SelectIsLimited()
    ensures EnforceLimit("select 1") == "select 1 LIMIT 50"
  {
    hide Trim, WithoutLimit;
    TrimDropsBlank();
    NoLimitToCut("select 1", 0);
    assert "select 1"[7..] == "1";
    assert "select 1" + " LIMIT 50" + "" == "select 1 LIMIT 50";
  }

  lemma GuardedNamesUser(env: Env)
    requires env.canonical.Reuse? && env.intent == Own && GuardScope(env).Allowed?
    ensures env.userId != "" && NamesUser(GuardScope(env).sql, env.userId)
  {
    hide CanonicalText, Lower, Uuids, FillUserId, IsUuidAt, Find;
    var sql := CanonicalText(env);
    var ids := Uuids(sql, 0);
    UuidsAreFound(sql, 0);
    if Mentions(ids, env.userId) {
      var k :| 0 <= k < |ids| && Lower(ids[k]) == Lower(env.userId);
      assert Contains(sql, ids[k]);
      var p := Find(sql, ids[k], 0).value;
      assert sql[p..p + |env.userId|] == ids[k];
      assert IdStandsAt(sql, env.userId, p);
    } else {
      var text := GuardScope(env).sql;
      assert Contains(text, env.userId);
      var p := Find(text, env.userId, 0).value;
      assert text[p..p + |env.userId|] == env.userId;
      assert IdStandsAt(text, env.userId, p);
    }
  }

  lemma GuardedUuidOverlaps(env: Env, i: nat) returns (p: int)
    requires env.canonical.Reuse? && env.intent == Own && GuardScope(env).Allowed?
    requires IsUuidAt(GuardScope(env).sql, i)
    ensures OverlapsId(GuardScope(env).sql, i, env.userId, p)
  {
    hide CanonicalText, Lower, Uuids, FillUserId, IsUuidAt, Contains;
    var sql := CanonicalText(env);
    var ids := Uuids(sql, 0);
    if !Mentions(ids, env.userId) && Contains(sql, "USER_ID") {
      FirstIsUser(ids, env.userId);
      UuidsAreFound(sql, 0);
      p := FilledUuidOverlaps(sql, env.userId, i);
    } else {
      p := UuidsCover(sql, 0, i);
      UuidFits(sql, p);
      var k :| 0 <= k < |ids| && ids[k] == sql[p..p + 36];
      assert Lower(ids[k]) == Lower(env.userId);
    }
  }

  lemma FirstIsUser(ids: seq<string>, userId: string)
    ensures MentionsOnly(ids, userId) && ids != [] ==> Mentions(ids, userId)
  {
    hide Lower;
    if MentionsOnly(ids, userId) && ids != [] { assert Lower(ids[0]) == Lower(userId); }
  }

  lemma UuidBeforeSemicolon(sql: string, i: nat)
    ensures IsUuidAt(WithSemicolon(sql), i) ==> IsUuidAt(sql, i)
  {
    var all := WithSemicolon(sql);
    if IsUuidAt(all, i) && all != sql {
      assert all[|sql|] == ';' && forall k :: i <= k < i + 36 ==> all[k] != ';';
      assert i + 36 <= |sql|;
      assert forall k :: i <= k < i + 36 ==> all[k] == sql[k];
    }
  }

  lemma OverlapBeforeSemicolon(sql: string, i: nat, userId: string, p: int)
    requires OverlapsId(sql, i, userId, p)
    ensures OverlapsId(WithSemicolon(sql), i, userId, p)
  {
    hide Lower;
    assert WithSemicolon(sql)[p..p + |userId|] == sql[p..p + |userId|];
  }

  lemma NamedBeforeSemicolon(sql: string, userId: string)
    requires NamesUser(sql, userId)
    ensures NamesUser(WithSemicolon(sql), userId)
  {
    hide Lower;
    var p :| IdStandsAt(sql, userId, p);
    assert WithSemicolon(sql)[p..p + |userId|] == sql[p..p + |userId|];
    assert IdStandsAt(WithSemicolon(sql), userId, p);
  }

  lemma PlaceholderIsFilled(sql: string, userId: string)
    requires Contains(sql, "USER_ID")
    ensures Contains(FillUserId(sql, userId), userId)
  {
    hide Lower, FillUserId;
    var i := Find(sql, "USER_ID", 0).value;
    assert Lower("USER_ID") == "user_id" by {
      assert forall k :: 0 <= k < 7 ==> Lower("USER_ID")[k] == LowerChar("USER_ID"[k]);
    }
    FilledNamesUser(sql, userId, i);
  }

  /** A stored personal query with the placeholder is never refused for not naming the user. */
  lemma PlaceholderIsEnough(env: Env)
    requires env.canonical.Reuse? && Contains(CanonicalText(env), "USER_ID")
    ensures GuardScope(env) != Refused("skip_reuse_missing_user_scope")
  {
    hide CanonicalText, Lower, Uuids, FillUserId;
    PlaceholderIsFilled(CanonicalText(env), env.userId);
  }

  // -------------------------------------------------------------------------- the whole agent

  datatype Report =
    | Success(
        sql: string, count: nat, attempts: nat, tokens: Option<Tokens>, logs: seq<AttemptLog>,
        executed: seq<Execution>)
    | Failure(attempts: nat, logs: seq<AttemptLog>, executed: seq<Execution>)

  function ReuseLog(env: Env): seq<AttemptLog> {
    if !ReuseApplies(env) then []
    else
      var t := TryReuse(env);
      match t.result
      case Ok(_) => [AttemptLog(0, "", t.final, None, None, "", Unknown)]
      case Err(message) => [AttemptLog(0, "", env.canonical.sql, None, Some(Describe(message)), "", Unknown)]
  }

  function ReuseExecuted(env: Env): seq<Execution> {
    if ReuseApplies(env) && TryReuse(env).ran then [Execution(0, TryReuse(env).final, "")] else []
  }

  function Conclude(env: Env, out: Outcome): Report {
    var logs := ReuseLog(env) + out.last.logs;
    var executed := ReuseExecuted(env) + out.last.executed;
    match out
    case Returned(sql, count, last) => Success(sql, count, last.attempts, last.tokens, logs, executed)
    case _ => Failure(out.last.attempts, logs, executed)
  }

  function Process(env: Env): Report {
    if ReuseApplies(env) && TryReuse(env).result.Ok? then
      Success(TryReuse(env).final, TryReuse(env).result.count, 1, None, ReuseLog(env), ReuseExecuted(env))
    else Conclude(env, RunLoop(env, BEGIN))
  }

  lemma {:induction false} SumUsageSkipsUnmetered(first: AttemptLog, logs: seq<AttemptLog>)
    requires first.usage == None
    ensures SumUsage([first] + logs) == SumUsage(logs)
  {
    var all := [first] + logs;
    if logs == [] {
      assert all[..0] == [];
    } else {
      assert all[..|all| - 1] == [first] + logs[..|logs| - 1];
      SumUsageSkipsUnmetered(first, logs[..|logs| - 1]);
    }
  }

  /** A stored query that runs and is answered is the whole call; otherwise the loop runs, and the report is that of
      the reuse followed by that of the loop. */
  lemma ProcessReports(env: Env)
    ensures var r := Process(env); var out := RunLoop(env, BEGIN); var reused := ReuseApplies(env);
      if reused && TryReuse(env).result.Ok? then
        && r.Success? && r.sql == TryReuse(env).final && r.tokens == None && r.attempts == 1
        && env.database(0) == Rows(r.count)
        && r.executed == [Execution(0, r.sql, "")] && |r.logs| == 1 && r.logs[0].error == None
      else
        && (r.Success? <==> out.Returned?) && r.attempts == out.last.attempts
        && (r.Success? ==> r.sql == out.sql && r.count == out.count && r.tokens == out.last.tokens)
        && r.logs == (if reused then [ReuseLog(env)[0]] else []) + out.last.logs
        && (reused ==> ReuseLog(env)[0].error == Some(Describe(TryReuse(env).result.message)))
        && r.executed
           == (if reused && TryReuse(env).ran then [Execution(0, TryReuse(env).final, "")] else []) + out.last.executed
  {
    hide RunLoop, Describe, Lower, StartsWith, Join, GuardScope;
  }

  /** The agent reports exactly the tokens of its attempts, and asks the database at most six times:
      once for the stored query and at most once per attempt. */
  lemma ProcessAccounts(env: Env)
    ensures var r := Process(env);
      && (r.Success? ==> r.tokens == SumUsage(r.logs))
      && |r.executed| <= 6
      && (r.Success? ==> r.executed != [] && r.executed[|r.executed| - 1].sql == r.sql)
  {
    hide TryReuse, Describe, RunLoop, SumUsage, ReuseLog, Observed;
    EveryRunIsObserved(env);
    var out := RunLoop(env, BEGIN);
    ObservedAccounts(env, out);
    ReuseLogIsFree(env, out.last.logs);
    if ReuseApplies(env) { ReuseOkRan(env); }
  }

  lemma ObservedAccounts(env: Env, out: Outcome)
    requires Observed(env, out)
    ensures out.last.tokens == SumUsage(out.last.logs) && |out.last.executed| <= 5
    ensures out.Returned? ==> out.last.executed != [] && out.last.executed[|out.last.executed| - 1].sql == out.sql
  {
    hide Justified, DistinctFailures, ExactExecutions, Metered, SumUsage, ToldAfter;
    ExecutionsFitAttempts(out.last.executed, out.last.attempts);
  }

  /** The log entry of a reuse carries no tokens. */
  lemma ReuseLogIsFree(env: Env, logs: seq<AttemptLog>)
    ensures SumUsage(ReuseLog(env) + logs) == SumUsage(logs)
    ensures SumUsage(ReuseLog(env)) == None
  {
    hide TryReuse, Describe;
    if ReuseApplies(env) {
      SumUsageSkipsUnmetered(ReuseLog(env)[0], logs);
      SumUsageSkipsUnmetered(ReuseLog(env)[0], []);
      assert ReuseLog(env) == [ReuseLog(env)[0]] + [];
    } else {
      assert [] + logs == logs;
    }
  }

  lemma LoopMeetsHint(env: Env)
    ensures var own := RunLoop(env, BEGIN).last.executed;
      forall i :: 0 <= i < |own| ==> own[i].attempt >= 1 && MeetsHint(env.filtersHint, own[i].sql)
  {
    hide RunLoop, MeetsHint, DistinctFailures, ExactExecutions, Metered, SumUsage, SoundExecution;
    EveryRunIsObserved(env);
    var out := RunLoop(env, BEGIN);
    forall i | 0 <= i < |out.last.executed|
      ensures out.last.executed[i].attempt >= 1 && MeetsHint(env.filtersHint, out.last.executed[i].sql)
    {
      SoundMeetsHint(env, out.last.executed[i], out.last.logs);
    }
  }

  lemma SoundMeetsHint(env: Env, e: Execution, logs: seq<AttemptLog>)
    ensures SoundExecution(env, e, logs) ==> e.attempt >= 1 && MeetsHint(env.filtersHint, e.sql)
  {
    hide MeetsHint, Clean, IsSelect, SameSql;
  }

  lemma ProcessExecutes(env: Env)
    ensures Process(env).executed == ReuseExecuted(env)
         || Process(env).executed == ReuseExecuted(env) + RunLoop(env, BEGIN).last.executed
  {
    hide TryReuse, RunLoop, ReuseLog, ReuseExecuted, ReuseApplies;
  }

  /** Every statement of a call is either the stored query, which needs a session without a filter hint, or
      meets the filter hint. */
  lemma ExecutedMeetsHint(env: Env)
    ensures forall i :: 0 <= i < |Process(env).executed| ==>
      var e := Process(env).executed[i];
      if e.attempt == 0 then ReuseApplies(env) else MeetsHint(env.filtersHint, e.sql)
  {
    hide TryReuse, RunLoop, MeetsHint, ReuseLog, Process, ReuseApplies;
    ProcessExecutes(env);
    LoopMeetsHint(env);
  }

  lemma ReuseOkRan(env: Env)
    requires env.canonical.Reuse?
    ensures TryReuse(env).result.Ok? ==> TryReuse(env).ran
  {
    hide GuardScope, Lower, Join, StartsWith;
  }

  lemma ReuseHasSql(env: Env)
    requires env.canonical.Reuse?
    ensures TryReuse(env).ran ==> TryReuse(env).final != ""
  {
    hide GuardScope, Lower, Join, StartsWith;
  }

  lemma {:induction false} LoopHasSql(env: Env, s: Loop)
    ensures RunLoop(env, s).Returned? ==> RunLoop(env, s).sql != ""
    decreases MAX_ATTEMPTS - s.attempts
  {
    hide TryOnce, Describe, ErrorKey, Decorate, AddTokens, RecordedSql;
    if s.attempts >= MAX_ATTEMPTS {
    } else {
      RanHasFinal(env, s.attempts + 1, s.lastSql);
      match Attempt(env, s)
      case Done(_) =>
      case Again(s') => LoopHasSql(env, s');
    }
  }

  /** A success always names the statement it ran. */
  lemma SuccessHasSql(env: Env)
    ensures Process(env).Success? ==> Process(env).sql != ""
  {
    hide TryReuse, RunLoop, ReuseLog, ReuseExecuted;
    LoopHasSql(env, BEGIN);
    if ReuseApplies(env) {
      ReuseOkRan(env);
      ReuseHasSql(env);
    }
  }

  lemma {:induction false} ExecutionsFitAttempts(executed: seq<Execution>, attempts: nat)
    requires forall i :: 0 <= i < |executed| ==> 1 <= executed[i].attempt <= attempts
    requires forall i, j :: 0 <= i < j < |executed| ==> executed[i].attempt < executed[j].attempt
    ensures |executed| <= attempts
  {
    if executed == [] {
    } else {
      var last := executed[|executed| - 1];
      ExecutionsFitAttempts(executed[..|executed| - 1], last.attempt - 1);
    }
  }

  // ------------------------------------------------------------------------------- the method

  /** The loop as the agent runs it, one variable at a time. */
  method GenerateWithRetries(env: Env) returns (out: Outcome)
    ensures out == RunLoop(env, BEGIN)
  {
    hide TryOnce, Describe, ErrorKey, Decorate, AddTokens;
    var attempts: nat, consecutiveSameError: nat := 0, 0;
    var lastSql, lastError, lastErrorKey := "", "", "";
    var attemptLogs, executed := [], [];
    var totalTokenUsage: Option<Tokens> := None;
    while attempts < MAX_ATTEMPTS
      invariant RunLoop(env, Loop(attempts, lastSql, lastError, lastErrorKey, consecutiveSameError,
                                  attemptLogs, executed, totalTokenUsage)) == RunLoop(env, BEGIN)
    {
      ghost var s := Loop(attempts, lastSql, lastError, lastErrorKey, consecutiveSameError,
                          attemptLogs, executed, totalTokenUsage);
      attempts := attempts + 1;
      var t := TryOnce(env, attempts, lastSql);
      totalTokenUsage := AddTokens(totalTokenUsage, t.usage);
      if t.ran {
        executed := executed + [Execution(attempts, t.final, lastSql)];
      }
      if t.result.Ok? {
        lastSql := t.final;
        attemptLogs := attemptLogs + [AttemptLog(attempts, t.generated, t.final, t.usage, None, "", t.stage)];
        return Returned(t.final, t.result.count,
                        Loop(attempts, lastSql, lastError, lastErrorKey, consecutiveSameError,
                             attemptLogs, executed, totalTokenUsage));
      }
      var currentError := Describe(t.result.message);
      var currentErrorKey := ErrorKey(currentError);
      if lastErrorKey != "" && currentErrorKey == lastErrorKey {
        consecutiveSameError := consecutiveSameError + 1;
      } else {
        consecutiveSameError := 1;
      }
      if t.final != "" {
        lastSql := t.final;
      } else if t.generated != "" {
        lastSql := t.generated;
      }
      attemptLogs := attemptLogs
        + [AttemptLog(attempts, t.generated, lastSql, t.usage, Some(currentError), currentErrorKey, t.stage)];
      if consecutiveSameError >= MAX_CONSECUTIVE_SAME_ERROR {
        return StoppedEarly(Loop(attempts, lastSql, lastError, lastErrorKey, consecutiveSameError,
                                 attemptLogs, executed, totalTokenUsage));
      }
      lastError := Decorate(currentErrorKey, t.stage, currentError);
      lastErrorKey := currentErrorKey;
      if attempts >= MAX_ATTEMPTS {
        return GaveUp(Loop(attempts, lastSql, lastError, lastErrorKey, consecutiveSameError,
                           attemptLogs, executed, totalTokenUsage));
      }
      assert Attempt(env, s) == Again(Loop(attempts, lastSql, lastError, lastErrorKey, consecutiveSameError,
                                           attemptLogs, executed, totalTokenUsage));
    }
    out := FellThrough(Loop(attempts, lastSql, lastError, lastErrorKey, consecutiveSameError,
                            attemptLogs, executed, totalTokenUsage));
  }
}
