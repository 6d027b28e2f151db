/** One chat turn from end to end: the user's message, the agents, the reply and the processing log.  Any
    agent may throw; writing messages and logs succeeds. */
module ChatRun {
  import opened Text
  import opened Session
  import opened SqlRetry
  import Orchestrator
  import IntentHints
  import PageContext
  import SqlText

  datatype Orchestrated =
    | OrchestratorThrew(error: string)
    | Answered(decision: Orchestrator.Decision, hints: IntentHints.Hints, message: string, tokens: Option<Tokens>)

  datatype Reply = ReplyThrew(error: string) | ReplyText(message: string, tokens: Option<Tokens>)
  datatype Verdict = VerdictThrew(error: string) | Judged(tokens: Option<Tokens>)

  /** What the agents and the outside world answer in one turn.  The SQL agent is the real one, with its
      oracles; it may also fail before it starts. */
  datatype World = World(
    page: string,
    orchestrator: Orchestrated,
    agentError: Option<string>,
    userId: string,
    canonical: Canonical,
    model: nat -> Generation,
    safety: string -> Safety,
    database: nat -> Database,
    generator: Reply,
    validator: Verdict,
    assemblyError: Option<string>)

  datatype Status = Completed | Partial | Failed

  datatype Log = Log(status: Status, response: string, tokens: Option<Tokens>, attempts: seq<AttemptLog>)

  // --------------------------------------------------------------------------- the SQL request

  function IntentOf(action: Option<IntentHints.Action>): Intent {
    match action
    case None => NoIntent
    case Some(Search) => Intent.Search
    case Some(Own) => Intent.Own
    case Some(Stats) => Intent.Stats
  }

  /** The SQL agent reads its hints back from the session. */
  function SqlEnv(w: World, session: seq<Message>): Env {
    Env(IntentHints.ReadHint(session, IntentHints.FILTERS), IntentOf(IntentHints.ReadAction(session)),
        w.userId, w.canonical, w.model, w.safety, w.database)
  }

  /** A failure before the first attempt is logged as an attempt with number 0. */
  function RunSql(w: World, session: seq<Message>): Report {
    match w.agentError
    case Some(error) => Failure(0, [AttemptLog(0, "", "", None, Some(error), "", Unknown)], [])
    case None => Process(SqlEnv(w, session))
  }

  /** Every statement the SQL agent runs in a turn obeys the filter hint the orchestrator gave in that very
      turn, whatever hints earlier turns left in the session; and a stored query is not run at all when
      there is such a hint. */
  lemma ExecutedSqlObeysCurrentHint(w: World, session: seq<Message>, hints: IntentHints.Hints)
    ensures var executed := RunSql(w, IntentHints.SetIntents(session, hints)).executed;
      var filters := IntentHints.NormalizedFilters(hints);
      forall i :: 0 <= i < |executed| ==>
        if executed[i].attempt == 0 then filters.None?
        else SqlText.MeetsHint(IntentHints.ReadValue(filters), executed[i].sql)
  {
    hide SqlText.MeetsHint, IntentHints.NormalizedFilters, IntentHints.SetIntents, IntentHints.ReadHint,
      IntentHints.ReadAction, IntentHints.ReadValue, Process;
    var filters := IntentHints.NormalizedFilters(hints);
    FilterIsCurrent(session, hints);
    ExecutedMeetsHint(SqlEnv(w, IntentHints.SetIntents(session, hints)));
    IntentHints.NormalizedIsTrimmed(hints);
    if filters.Some? { IntentHints.TrimmedValueNotEmpty(filters.value); }
  }

  /** The action the orchestrator gives in this very turn is the intent of the SQL agent, whatever earlier turns
      left in the session. */
  lemma IntentIsCurrent(w: World, session: seq<Message>, hints: IntentHints.Hints)
    ensures var intent := SqlEnv(w, IntentHints.SetIntents(session, hints)).intent;
      && (intent == Own <==> hints.action == Some(IntentHints.Action.Own))
      && (intent == Intent.Search <==> hints.action == Some(IntentHints.Action.Search))
      && (intent == Intent.Stats <==> hints.action == Some(IntentHints.Action.Stats))
      && (intent == NoIntent <==> hints.action.None?)
  {
    hide IntentHints.SetIntents, IntentHints.ReadHint, IntentHints.ReadAction, IntentHints.NormalizedFilters;
    ActionIsCurrent(session, hints);
  }

  lemma ActionIsCurrent(session: seq<Message>, hints: IntentHints.Hints)
    ensures IntentHints.ReadAction(IntentHints.SetIntents(session, hints)) == hints.action
  {
    hide IntentHints.SetIntents, IntentHints.ReadHint, IntentHints.ReadAction, IntentHints.NormalizedFilters;
    IntentHints.ActionReads(session, hints);
  }

  /** So a stored query that is run for a personal question has passed the guard: the text handed to the safety check
      is scoped to the user, and there is a user. */
  lemma PersonalReuseIsGuarded(w: World, session: seq<Message>, hints: IntentHints.Hints)
    requires hints.action == Some(IntentHints.Action.Own)
    requires var env := SqlEnv(w, IntentHints.SetIntents(session, hints)); ReuseApplies(env) && TryReuse(env).ran
    ensures w.userId != ""
    ensures SqlText.ScopedTo(TryReuse(SqlEnv(w, IntentHints.SetIntents(session, hints))).generated, w.userId)
  {
    hide IntentHints.SetIntents, IntentHints.ReadHint, IntentHints.ReadAction, TryReuse, SqlText.ScopedTo;
    IntentIsCurrent(w, session, hints);
    ReuseIsScoped(SqlEnv(w, IntentHints.SetIntents(session, hints)));
  }

  lemma FilterIsCurrent(session: seq<Message>, hints: IntentHints.Hints)
    ensures IntentHints.ReadHint(IntentHints.SetIntents(session, hints), IntentHints.FILTERS)
      == IntentHints.ReadValue(IntentHints.NormalizedFilters(hints))
  {
    hide IntentHints.NormalizedFilters, IntentHints.SetIntents, IntentHints.LastWith, IntentHints.ReadHint;
    IntentHints.ReadersFindTheirs(session, hints);
    IntentHints.NormalizedIsTrimmed(hints);
    IntentHints.TrimmedHintIsRead(IntentHints.SetIntents(session, hints), IntentHints.FILTERS,
                                  IntentHints.NormalizedFilters(hints));
  }

  /** The owner filter of a personal question is written out for the SQL agent, in whatever spelling of
      owner_id it came, but it holds no slug or id filter, so the agent's check lets every query pass. */
  lemma OwnerHintIsNotEnforced(hints: IntentHints.Hints)
    requires hints.action == Some(IntentHints.Action.Own) && hints.filters.Some?
    requires IntentHints.OwnerId(Trim(hints.filters.value)).Some?
    ensures var id := IntentHints.OwnerId(Trim(hints.filters.value)).value;
      && IsUuid(id) && EndsWith(Trim(hints.filters.value), id)
      && IntentHints.NormalizedFilters(hints) == Some("buildings.owner_id='" + id + "'")
    ensures forall sql :: SqlText.MeetsHint(IntentHints.NormalizedFilters(hints), sql)
  {
    hide Trim, IsUuid, SqlText.MeetsHint, SqlText.Required, SqlText.FilterAt, Contains, Lower;
    var given := Trim(hints.filters.value);
    var id := IntentHints.OwnerId(given).value;
    var hint := "buildings.owner_id='" + id + "'";
    assert Trim(hint) == hint by { assert IsTrimmed(hint); }
    NoDotInUuid(id);
    assert forall i :: 20 <= i < |hint| - 1 ==> hint[i] == id[i - 20];
    assert forall i :: 0 <= i < |hint| - 1 && hint[i] == '.' ==> hint[i + 1] == 'o';
    forall k | 0 <= k < |hint| ensures SqlText.FilterAt(hint, k).None? { OnlyOwnerAfterDot(hint, k); }
    SqlText.HintEnforcedIff(hint);
  }

  lemma NoDotInUuid(id: string)
    requires IsUuid(id)
    ensures forall i :: 0 <= i < |id| ==> id[i] != '.'
  {}

  lemma OnlyOwnerAfterDot(s: string, k: nat)
    requires forall i :: 0 <= i < |s| - 1 && s[i] == '.' ==> s[i + 1] == 'o'
    ensures SqlText.FilterAt(s, k).None?
  {
    hide SqlText.QuotedAfterEquals, Lower;
    StartsAtChar(Lower(s), k, ".slug", 0);
    StartsAtChar(Lower(s), k, ".slug", 1);
    StartsAtChar(Lower(s), k, ".id", 0);
    StartsAtChar(Lower(s), k, ".id", 1);
  }

  // ------------------------------------------------------------------------------- the try block

  function TokensOr0(t: Option<Tokens>): Tokens {
    if t.Some? then t.value else Tokens(0, 0, 0)
  }

  function Add(a: Tokens, b: Tokens): Tokens {
    Tokens(a.prompt + b.prompt, a.completion + b.completion, a.total + b.total)
  }

  /** Tokens of orchestrator, SQL attempts, validator and response generator together. */
  function AllTokens(orchestrator: Option<Tokens>, sql: Option<Tokens>, validator: Option<Tokens>,
                     generator: Option<Tokens>): Tokens
  {
    Add(Add(Add(TokensOr0(orchestrator), TokensOr0(sql)), TokensOr0(validator)), TokensOr0(generator))
  }

  /** How the try block ends: with a reply and its log, or by throwing after some SQL attempts. */
  datatype Ended = Replied(text: string, log: Log) | Threw(error: string, attempts: seq<AttemptLog>)

  const SQL_FAILED := "SQL generation failed"

  function DataPath(w: World, answer: Orchestrated, session: seq<Message>): Ended
    requires answer.Answered?
  {
    var report := RunSql(w, IntentHints.SetIntents(session, answer.hints));
    if report.Failure? || report.sql == "" then
      Replied(SQL_FAILED, Log(Failed, SQL_FAILED, answer.tokens, report.logs))
    else if w.generator.ReplyThrew? then Threw(w.generator.error, report.logs)
    else if w.validator.VerdictThrew? then Threw(w.validator.error, report.logs)
    else if w.assemblyError.Some? then Threw(w.assemblyError.value, report.logs)
    else
      Replied(w.generator.message,
              Log(Completed, w.generator.message,
                  Some(AllTokens(answer.tokens, report.tokens, w.validator.tokens, w.generator.tokens)), report.logs))
  }

  function TryBlock(w: World, session: seq<Message>): Ended {
    match w.orchestrator
    case OrchestratorThrew(error) => Threw(error, [])
    case Answered(decision, _, message, tokens) =>
      if decision.requestType != Orchestrator.Query || (decision.missing.Some? && decision.missing.value != []) then
        Replied(message, Log(Completed, message, tokens, []))
      else if decision.readyForSql then DataPath(w, w.orchestrator, session)
      else Replied(message, Log(Partial, message, tokens, []))
  }

  /** The reply and the log of a turn; a throw is turned into an apology with a failed log. */
  function Turn(w: World, session: seq<Message>): (string, Log) {
    match TryBlock(w, session)
    case Replied(text, log) => (text, log)
    case Threw(error, attempts) => (error, Log(Failed, error, None, attempts))
  }

  function SessionWithQuestion(w: World, session: seq<Message>, question: string): seq<Message> {
    (if w.page == "" then session else PageContext.PushContext(session, w.page)) + [Message(User, question)]
  }

  /** The orchestrator reads the page of this very turn, whatever the question says; a turn without a readable
      page still sees the page of an earlier turn, if the session remembers one. */
  lemma OrchestratorSeesPage(w: World, session: seq<Message>, question: string)
    ensures PageContext.ReadContext(SessionWithQuestion(w, session, question))
      == match PageContext.ParsePageContext(w.page)
         case Some(c) => PageContext.ReadMessage(PageContext.PrintContext(c))
         case None => PageContext.ReadContext(session)
  {
    hide PageContext.ParsePageContext, PageContext.ReadMessage, PageContext.PrintContext, PageContext.PushContext,
      PageContext.IsContextMessage, PageContext.ReadContext;
    var before := if w.page == "" then session else PageContext.PushContext(session, w.page);
    QuestionIsNoContext(before, question);
    PushedPageIsRead(session, w.page);
    EmptyPageIsUnread();
  }

  lemma QuestionIsNoContext(messages: seq<Message>, question: string)
    ensures PageContext.ReadContext(messages + [Message(User, question)]) == PageContext.ReadContext(messages)
  {
    hide PageContext.ReadMessage;
    assert (messages + [Message(User, question)])[..|messages|] == messages;
  }

  lemma PushedPageIsRead(session: seq<Message>, page: string)
    ensures PageContext.ReadContext(PageContext.PushContext(session, page))
      == match PageContext.ParsePageContext(page)
         case Some(c) => PageContext.ReadMessage(PageContext.PrintContext(c))
         case None => PageContext.ReadContext(session)
  {
    hide PageContext.ParsePageContext, PageContext.ReadMessage, PageContext.PrintContext, PageContext.ReadContext;
    match PageContext.ParsePageContext(page)
    case None =>
    case Some(c) => PageContext.PushedContextIsRead(session, page, c);
  }

  lemma EmptyPageIsUnread()
    ensures PageContext.ParsePageContext("") == None
  {}

  /** A completed turn on the data path logs exactly the tokens of the orchestrator, of every logged SQL attempt,
      of the validator and of the response generator. */
  lemma DataPathCountsAllTokens(w: World, session: seq<Message>)
    requires w.orchestrator.Answered? && w.orchestrator.decision.readyForSql
    requires w.orchestrator.decision.requestType == Orchestrator.Query && w.orchestrator.decision.missing.None?
    ensures var log := Turn(w, session).1;
      log.status == Completed ==>
        && w.generator.ReplyText? && w.validator.Judged?
        && log.tokens == Some(AllTokens(w.orchestrator.tokens, SumUsage(log.attempts), w.validator.tokens,
                                        w.generator.tokens))
  {
    hide Process, IntentHints.SetIntents, SumUsage, AllTokens, SqlEnv;
    ProcessAccounts(SqlEnv(w, IntentHints.SetIntents(session, w.orchestrator.hints)));
  }

  /** What a turn has used once its SQL succeeded: the response generator and the validator run side by side, and
      one that throws reports nothing. */
  function SpentAfterSql(w: World, attempts: seq<AttemptLog>): Tokens
    requires w.orchestrator.Answered?
  {
    AllTokens(w.orchestrator.tokens, SumUsage(attempts), if w.validator.Judged? then w.validator.tokens else None,
              if w.generator.ReplyText? then w.generator.tokens else None)
  }

  /** Once the SQL succeeded, the logged total is all that was used if and only if neither of the two agents nor
      the assembly of the reply throws, or nothing was used at all: a throw loses every token of the turn. */
  lemma ServedSqlCountsAllIff(w: World, session: seq<Message>)
    requires w.orchestrator.Answered? && w.orchestrator.decision.readyForSql
    requires w.orchestrator.decision.requestType == Orchestrator.Query && w.orchestrator.decision.missing.None?
    ensures var log := Turn(w, session).1; var spent := SpentAfterSql(w, log.attempts);
      var nothingThrown := w.generator.ReplyText? && w.validator.Judged? && w.assemblyError.None?;
      RunSql(w, IntentHints.SetIntents(session, w.orchestrator.hints)).Success? ==>
        (TokensOr0(log.tokens) == spent <==> nothingThrown || spent == Tokens(0, 0, 0))
  {
    hide Process, IntentHints.SetIntents, SumUsage, AllTokens, SqlEnv;
    var env := SqlEnv(w, IntentHints.SetIntents(session, w.orchestrator.hints));
    ProcessAccounts(env);
    SuccessHasSql(env);
  }

  lemma AddNothingIff(a: Tokens, b: Tokens)
    ensures Add(a, b) == a <==> b == Tokens(0, 0, 0)
  {
    assert b == Tokens(b.prompt, b.completion, b.total);
  }

  lemma UnspentIff(orchestrator: Option<Tokens>, sql: Option<Tokens>)
    ensures TokensOr0(orchestrator) == AllTokens(orchestrator, sql, None, None) <==> TokensOr0(sql) == Tokens(0, 0, 0)
  {
    hide Add;
    assert TokensOr0(None) == Tokens(0, 0, 0);
    var o, s := TokensOr0(orchestrator), TokensOr0(sql);
    AddNothingIff(o, s);
    AddNothingIff(Add(o, s), TokensOr0(None));
    AddNothingIff(Add(Add(o, s), TokensOr0(None)), TokensOr0(None));
  }

  /** When SQL generation fails, the tokens of its attempts are not in the logged total: it is the full sum if and
      only if the attempts used none. */
  lemma FailedSqlForgetsTokens(w: World, session: seq<Message>)
    requires w.orchestrator.Answered? && w.orchestrator.decision.readyForSql
    requires w.orchestrator.decision.requestType == Orchestrator.Query && w.orchestrator.decision.missing.None?
    requires RunSql(w, IntentHints.SetIntents(session, w.orchestrator.hints)).Failure?
    ensures var log := Turn(w, session).1;
      && log.status == Failed && log.tokens == w.orchestrator.tokens
      && (TokensOr0(log.tokens) == AllTokens(w.orchestrator.tokens, SumUsage(log.attempts), None, None)
          <==> TokensOr0(SumUsage(log.attempts)) == Tokens(0, 0, 0))
  {
    hide RunSql, IntentHints.SetIntents, SumUsage, AllTokens, TokensOr0;
    UnspentIff(w.orchestrator.tokens, SumUsage(Turn(w, session).1.attempts));
  }

  /** A turn runs the SQL agent if and only if the question is ready by the orchestrator's rule: then the log holds the
      agent's attempts, and otherwise the reply is the orchestrator's own message. */
  lemma TurnRunsSqlIff(w: World, session: seq<Message>, named: Orchestrator.RequestType, own: bool, loggedIn: bool,
                       missing: Option<seq<Orchestrator.Param>>)
    requires w.orchestrator.Answered? && w.orchestrator.decision == Orchestrator.Decide(named, own, loggedIn, missing)
    ensures var turn := Turn(w, session);
      if named == Orchestrator.Query && missing in {None, Some([])} && (own ==> loggedIn) then
        turn.1.attempts == RunSql(w, IntentHints.SetIntents(session, w.orchestrator.hints)).logs
      else
        turn == (w.orchestrator.message, Log(Completed, w.orchestrator.message, w.orchestrator.tokens, []))
  {
    hide RunSql, AllTokens, IntentHints.SetIntents;
    Orchestrator.ReadyIff(named, own, loggedIn, missing);
  }

  /** If the SQL agent fails before it starts, nothing is run, the failure is the only attempt of the log, and it has
      the number 0. */
  lemma AgentFailureIsLogged(w: World, session: seq<Message>, error: string)
    requires w.orchestrator.Answered? && w.orchestrator.decision.readyForSql && w.agentError == Some(error)
    requires w.orchestrator.decision.requestType == Orchestrator.Query && w.orchestrator.decision.missing.None?
    ensures RunSql(w, IntentHints.SetIntents(session, w.orchestrator.hints)).executed == []
    ensures var log := Turn(w, session).1;
      log.status == Failed && log.tokens == w.orchestrator.tokens && |log.attempts| == 1
      && log.attempts[0].attempt == 0 && log.attempts[0].error == Some(error) && log.attempts[0].usage == None
  {
    hide IntentHints.SetIntents, Process;
  }

  /** A served turn replies with the response generator's text; any other turn that ran SQL with the error. */
  lemma TurnRepliesIff(w: World, session: seq<Message>)
    requires w.orchestrator.Answered? && w.orchestrator.decision.readyForSql
    requires w.orchestrator.decision.requestType == Orchestrator.Query && w.orchestrator.decision.missing.None?
    ensures var turn := Turn(w, session);
      var report := RunSql(w, IntentHints.SetIntents(session, w.orchestrator.hints));
      && turn.1.response == turn.0
      && turn.1.status == (if report.Success? && w.generator.ReplyText? && w.validator.Judged? && w.assemblyError.None?
                           then Completed else Failed)
      && turn.0 == (if report.Failure? then "SQL generation failed"
                    else if w.generator.ReplyThrew? then w.generator.error
                    else if w.validator.VerdictThrew? then w.validator.error
                    else if w.assemblyError.Some? then w.assemblyError.value
                    else w.generator.message)
  {
    hide Process, IntentHints.SetIntents, AllTokens, SqlEnv;
    SuccessHasSql(SqlEnv(w, IntentHints.SetIntents(session, w.orchestrator.hints)));
  }

  /** A decision of the orchestrator never leads to the log status "partial": a query is ready or incomplete. */
  lemma PartialNeverHappens(w: World, session: seq<Message>, named: Orchestrator.RequestType, own: bool, loggedIn: bool,
                            missing: Option<seq<Orchestrator.Param>>)
    requires w.orchestrator.Answered? && w.orchestrator.decision == Orchestrator.Decide(named, own, loggedIn, missing)
    ensures Turn(w, session).1.status != Partial
  {
    hide RunSql, AllTokens;
    Orchestrator.QueryIsReadyOrIncomplete(named, own, loggedIn, missing);
  }

  /** A personal question of a user who is not logged in runs no SQL, whatever the model answers. */
  lemma AnonymousPersonalQuestionRunsNoSql(w: World, session: seq<Message>, named: Orchestrator.RequestType,
                                           missing: Option<seq<Orchestrator.Param>>)
    requires w.orchestrator.Answered? && w.orchestrator.decision == Orchestrator.Decide(named, true, false, missing)
    ensures Turn(w, session)
      == (w.orchestrator.message, Log(Completed, w.orchestrator.message, w.orchestrator.tokens, []))
  {
    hide DataPath;
  }

  // ------------------------------------------------------------------------------- the service

  datatype Outcome = Returned(text: string) | Thrown(error: string)

  /** `session` is the in-memory session, `saved` the persisted messages, `logs` the processing logs;
      `attempts` is the part of the log under construction that survives a throw. */
  class AiService {
    var session: seq<Message>
    var saved: seq<Message>
    var logs: seq<Log>
    var attempts: seq<AttemptLog>

    constructor (session: seq<Message>)
      ensures this.session == session && saved == [] && logs == []
    {
      this.session, saved, logs, attempts := session, [], [], [];
    }

    method AddMessageToSession(role: Role, content: string)
      modifies this`session, this`saved
      ensures session == old(session) + [Message(role, content)]
      ensures saved == old(saved) + [Message(role, content)]
    {
      saved := saved + [Message(role, content)];
      session := session + [Message(role, content)];
    }

    method SaveLog(log: Log)
      modifies this`logs
      ensures logs == old(logs) + [log]
    {
      logs := logs + [log];
    }

    method ReplyWith(text: string, log: Log) returns (r: Outcome)
      modifies this`session, this`saved, this`logs
      ensures r == Outcome.Returned(text)
      ensures saved == old(saved) + [Message(Assistant, text)] && logs == old(logs) + [log]
    {
      AddMessageToSession(Assistant, text);
      SaveLog(log);
      r := Outcome.Returned(text);
    }

    /** Either exactly one reply and one log are written, or nothing is. */
    method Process(w: World) returns (r: Outcome)
      modifies this
      ensures match TryBlock(w, old(session))
        case Replied(text, log) =>
          r == Outcome.Returned(text) && saved == old(saved) + [Message(Assistant, text)] && logs == old(logs) + [log]
        case Threw(error, tried) =>
          r == Thrown(error) && saved == old(saved) && logs == old(logs) && attempts == tried
    {
      hide RunSql, AllTokens, IntentHints.SetIntents;
      ghost var before := session;
      attempts := [];
      if w.orchestrator.OrchestratorThrew? { return Thrown(w.orchestrator.error); }
      var answer := w.orchestrator;
      session := IntentHints.SetIntents(session, answer.hints);
      if answer.decision.requestType != Orchestrator.Query {
        r := ReplyWith(answer.message, Log(Completed, answer.message, answer.tokens, []));
        return;
      }
      if answer.decision.missing.Some? && answer.decision.missing.value != [] {
        r := ReplyWith(answer.message, Log(Completed, answer.message, answer.tokens, []));
        return;
      }
      if !answer.decision.readyForSql {
        r := ReplyWith(answer.message, Log(Partial, answer.message, answer.tokens, []));
        return;
      }
      var report := RunSql(w, session);
      attempts := report.logs;
      if report.Failure? || report.sql == "" {
        r := ReplyWith(SQL_FAILED, Log(Failed, SQL_FAILED, answer.tokens, attempts));
        return;
      }
      if w.generator.ReplyThrew? { return Thrown(w.generator.error); }
      if w.validator.VerdictThrew? { return Thrown(w.validator.error); }
      if w.assemblyError.Some? { return Thrown(w.assemblyError.value); }
      var tokens := AllTokens(answer.tokens, report.tokens, w.validator.tokens, w.generator.tokens);
      r := ReplyWith(w.generator.message, Log(Completed, w.generator.message, Some(tokens), attempts));
    }

    /** Whatever the agents answer or throw: one turn saves exactly the question and one reply, and exactly one
        processing log. */
    method ProcessChatQuery(question: string, w: World) returns (text: string)
      modifies this
      ensures var turn := Turn(w, SessionWithQuestion(w, old(session), question));
        && text == turn.0
        && saved == old(saved) + [Message(User, question), Message(Assistant, turn.0)]
        && logs == old(logs) + [turn.1]
    {
      hide TryBlock, PageContext.PushContext;
      ghost var start := session;
      if w.page != "" {
        session := PageContext.PushContext(session, w.page);
      }
      AddMessageToSession(User, question);
      assert session == SessionWithQuestion(w, start, question);
      ghost var withQuestion := saved;
      var outcome := Process(w);
      match outcome
      case Returned(reply) => text := reply;
      case Thrown(error) =>
        text := error;
        AddMessageToSession(Assistant, error);
        SaveLog(Log(Failed, error, None, attempts));
    }
  }
}
