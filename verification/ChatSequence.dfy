/** Messages of one chat session: how they are numbered and counted, and when the title and summary jobs
    are queued.  First one call at a time, then with the database calls of several adds interleaved. */
module ChatSequence {

  import opened Session

  datatype StoredMessage = StoredMessage(sequenceNumber: nat, role: Role, content: string)

  /** `titles` and `summaries` count the jobs queued since the session was last cleared. */
  datatype Chat = Chat(messages: seq<StoredMessage>, messageCount: int, titles: nat, summaries: nat)

  const EMPTY := Chat([], 0, 0, 0)
  const AUTO_TITLE_MESSAGE_COUNT := 2
  const SUMMARY_THRESHOLD := 10
  const WINDOW: nat := 10

  // ------------------------------------------------------------------------- one call at a time

  function AddMessage(s: Chat, role: Role, content: string): Chat {
    s.(messages := s.messages + [StoredMessage(|s.messages| + 1, role, content)], messageCount := s.messageCount + 1)
  }

  function ClearMessages(s: Chat): Chat {
    EMPTY
  }

  function Reversed(s: seq<StoredMessage>): (r: seq<StoredMessage>)
    ensures |r| == |s|
    ensures forall i :: 0 <= i < |s| ==> r[i] == s[|s| - 1 - i]
  {
    if s == [] then [] else Reversed(s[1..]) + [s[0]]
  }

  /** Sequence numbers are exactly 1..n in order of creation, and the counter says n. */
  predicate Numbered(s: Chat) {
    && s.messageCount == |s.messages|
    && forall i :: 0 <= i < |s.messages| ==> s.messages[i].sequenceNumber == i + 1
  }

  function Latest(s: Chat, limit: nat): seq<StoredMessage> {
    if |s.messages| <= limit then s.messages else s.messages[|s.messages| - limit..]
  }

  /** findMany ordered by falling sequence number, at most `limit` rows. */
  function Recent(s: Chat, limit: nat): seq<StoredMessage> {
    Reversed(Latest(s, limit))
  }

  /** In a numbered session, that is what the database returns: strictly falling numbers, and nothing
      newer left out. */
  lemma RecentIsNewest(s: Chat, limit: nat)
    requires Numbered(s)
    ensures var r := Recent(s, limit);
      && |r| == (if |s.messages| <= limit then |s.messages| else limit)
      && (forall i, j :: 0 <= i < j < |r| ==> r[i].sequenceNumber > r[j].sequenceNumber)
      && (forall m, i :: m in s.messages && 0 <= i < |r| && m.sequenceNumber > r[i].sequenceNumber ==> m in r)
  {
    var r, latest := Recent(s, limit), Latest(s, limit);
    var skipped := |s.messages| - |latest|;
    assert forall i :: 0 <= i < |r| ==> r[i] == s.messages[|s.messages| - 1 - i];
    forall m, i | m in s.messages && 0 <= i < |r| && m.sequenceNumber > r[i].sequenceNumber ensures m in r {
      var k :| 0 <= k < |s.messages| && s.messages[k] == m;
      assert r[|s.messages| - 1 - k] == m;
    }
  }

  function Spoken(messages: seq<StoredMessage>): seq<StoredMessage> {
    if messages == [] then []
    else (if messages[0].role.System? then [] else [messages[0]]) + Spoken(messages[1..])
  }

  /** The content of the first user message, "" when there is none. */
  function FirstUserContent(messages: seq<StoredMessage>): string {
    if messages == [] then ""
    else if messages[0].role.User? then messages[0].content
    else FirstUserContent(messages[1..])
  }

  predicate TitleDue(s: Chat) {
    |Spoken(Recent(s, WINDOW))| == AUTO_TITLE_MESSAGE_COUNT && FirstUserContent(Reversed(Recent(s, WINDOW))) != ""
  }

  function TriggerBackgroundJobs(s: Chat): Chat {
    s.(titles := if TitleDue(s) then s.titles + 1 else s.titles,
       summaries := if s.messageCount > SUMMARY_THRESHOLD then s.summaries + 1 else s.summaries)
  }

  /** addMessageToSession: an assistant message also triggers the jobs. */
  function AddToSession(s: Chat, role: Role, content: string): Chat {
    var s1 := AddMessage(s, role, content);
    if role.Assistant? then TriggerBackgroundJobs(s1) else s1
  }

  datatype Op = DoAdd(role: Role, content: string) | DoClear

  function Apply(s: Chat, op: Op): Chat {
    match op
    case DoAdd(role, content) => AddToSession(s, role, content)
    case DoClear => ClearMessages(s)
  }

  function Run(s: Chat, ops: seq<Op>): Chat
    decreases |ops|
  {
    if ops == [] then s else Run(Apply(s, ops[0]), ops[1..])
  }

  lemma {:induction false} SpokenAll(messages: seq<StoredMessage>)
    requires forall i :: 0 <= i < |messages| ==> !messages[i].role.System?
    ensures Spoken(messages) == messages
  {
    if messages == [] {
    } else {
      SpokenAll(messages[1..]);
      assert messages == [messages[0]] + messages[1..];
    }
  }

  lemma ReversedTwice(s: seq<StoredMessage>)
    ensures Reversed(Reversed(s)) == s
  {}

  ghost predicate NoSystem(s: Chat) {
    forall i :: 0 <= i < |s.messages| ==> !s.messages[i].role.System?
  }

  /** Without system messages a title is due exactly when the session holds two messages of which
      the first user message is not empty. */
  lemma TitleDueIff(s: Chat)
    requires NoSystem(s)
    ensures TitleDue(s) <==> |s.messages| == 2 && FirstUserContent(s.messages) != ""
  {
    SpokenAll(Recent(s, WINDOW));
    ReversedTwice(Latest(s, WINDOW));
  }

  ghost predicate SessionInvariant(s: Chat) {
    Numbered(s) && NoSystem(s) && s.titles <= 1 && (s.titles == 1 ==> |s.messages| >= 2)
  }

  predicate Persistable(op: Op) {
    op.DoAdd? ==> !op.role.System?
  }

  lemma {:induction false} RunKeepsNumbered(s: Chat, ops: seq<Op>)
    requires Numbered(s)
    ensures Numbered(Run(s, ops))
    decreases |ops|
  {
    if ops == [] {
    } else {
      RunKeepsNumbered(Apply(s, ops[0]), ops[1..]);
    }
  }

  lemma AddKeepsInvariant(s: Chat, role: Role, content: string)
    requires SessionInvariant(s) && !role.System?
    ensures SessionInvariant(AddToSession(s, role, content))
  {
    hide TitleDue;
    TitleDueIff(AddMessage(s, role, content));
  }

  lemma {:induction false} RunKeepsInvariant(s: Chat, ops: seq<Op>)
    requires SessionInvariant(s)
    requires forall i :: 0 <= i < |ops| ==> Persistable(ops[i])
    ensures SessionInvariant(Run(s, ops))
    decreases |ops|
  {
    if ops == [] {
    } else {
      hide AddToSession;
      if ops[0].DoAdd? { AddKeepsInvariant(s, ops[0].role, ops[0].content); }
      RunKeepsInvariant(Apply(s, ops[0]), ops[1..]);
    }
  }

  /** Run one call at a time, adds and clears keep the sequence numbers exactly 1..n and the counter at
      n; and as long as only user and assistant messages are stored, the title job is queued at most
      once between two clears. */
  lemma SequentialRuns(ops: seq<Op>)
    ensures Numbered(Run(EMPTY, ops))
    ensures (forall i :: 0 <= i < |ops| ==> Persistable(ops[i])) ==> Run(EMPTY, ops).titles <= 1
  {
    RunKeepsNumbered(EMPTY, ops);
    if forall i :: 0 <= i < |ops| ==> Persistable(ops[i]) { RunKeepsInvariant(EMPTY, ops); }
  }

  /** What has been added since the last clear, in order. */
  function Kept(ops: seq<Op>): seq<Op> {
    if ops == [] then []
    else
      var last := ops[|ops| - 1];
      if last.DoClear? then [] else Kept(ops[..|ops| - 1]) + [last]
  }

  /** The assistant's messages that came after at least ten others. */
  function LateAnswers(adds: seq<Op>): nat {
    if adds == [] then 0
    else
      var last := adds[|adds| - 1];
      LateAnswers(adds[..|adds| - 1]) + if last.DoAdd? && last.role.Assistant? && |adds| > 10 then 1 else 0
  }

  predicate FirstExchange(adds: seq<Op>) {
    |adds| >= 2 && adds[0].DoAdd? && adds[0].role.User? && adds[0].content != ""
    && adds[1].DoAdd? && adds[1].role.Assistant?
  }

  ghost predicate Holds(s: Chat, adds: seq<Op>) {
    && |s.messages| == |adds| && s.messageCount == |adds| && s.summaries == LateAnswers(adds)
    && forall i :: 0 <= i < |adds| ==>
         adds[i].DoAdd? && s.messages[i] == StoredMessage(i + 1, adds[i].role, adds[i].content)
  }

  lemma AddHolds(s: Chat, adds: seq<Op>, op: Op)
    requires Holds(s, adds) && op.DoAdd?
    ensures Holds(Apply(s, op), adds + [op])
  {
    hide TitleDue;
    assert (adds + [op])[..|adds|] == adds;
  }

  lemma FirstUserOfTwo(messages: seq<StoredMessage>)
    requires |messages| == 2 && !messages[1].role.User?
    ensures FirstUserContent(messages) == if messages[0].role.User? then messages[0].content else ""
  {
    assert messages[1..][1..] == [] && messages[1..][0] == messages[1];
    assert FirstUserContent(messages[1..]) == FirstUserContent(messages[1..][1..]) == "";
  }

  /** An add queues a title exactly when it completes the first exchange. */
  lemma AddTitles(s: Chat, adds: seq<Op>, op: Op)
    requires Holds(s, adds) && op.DoAdd? && forall i :: 0 <= i < |adds + [op]| ==> Persistable((adds + [op])[i])
    requires s.titles == if FirstExchange(adds) then 1 else 0
    ensures Apply(s, op).titles == if FirstExchange(adds + [op]) then 1 else 0
  {
    var more := adds + [op];
    assert forall i :: 0 <= i < |adds| ==> more[i] == adds[i];
    assert more[|adds|] == op;
    var s1 := AddMessage(s, op.role, op.content);
    assert NoSystem(s1);
    TitleDueIff(s1);
    if op.role.Assistant? && |s1.messages| == 2 { FirstUserOfTwo(s1.messages); }
    hide TitleDue, FirstUserContent;
  }

  lemma {:induction false} RunSnoc(s: Chat, ops: seq<Op>, op: Op)
    ensures Run(s, ops + [op]) == Apply(Run(s, ops), op)
    decreases |ops|
  {
    hide Apply;
    if ops == [] {
      assert ([] + [op])[1..] == [] && Run(Apply(s, op), []) == Apply(s, op);
    } else {
      assert (ops + [op])[1..] == ops[1..] + [op];
      RunSnoc(Apply(s, ops[0]), ops[1..], op);
    }
  }

  /** Run one call at a time, the session holds exactly what was added since the last clear, numbered from 1, and
      counts it; the summary job has been queued for every assistant message after the tenth; and without system
      messages the title job has been queued once, if the session began with a question that is not empty and its
      answer. */
  lemma {:induction false} SessionHoldsAdds(ops: seq<Op>)
    ensures Holds(Run(EMPTY, ops), Kept(ops))
    ensures (forall i :: 0 <= i < |Kept(ops)| ==> Persistable(Kept(ops)[i])) ==>
      Run(EMPTY, ops).titles == if FirstExchange(Kept(ops)) then 1 else 0
  {
    if ops == [] {
    } else {
      var init, last := ops[..|ops| - 1], ops[|ops| - 1];
      assert ops == init + [last];
      SessionHoldsAdds(init);
      RunSnoc(EMPTY, init, last);
      hide Holds, FirstExchange, TitleDue;
      if last.DoClear? {
        ClearedHoldsNothing();
      } else {
        var kept := Kept(init) + [last];
        assert forall i :: 0 <= i < |Kept(init)| ==> kept[i] == Kept(init)[i];
        AddHolds(Run(EMPTY, init), Kept(init), last);
        if forall i :: 0 <= i < |kept| ==> Persistable(kept[i]) { AddTitles(Run(EMPTY, init), Kept(init), last); }
      }
    }
  }

  lemma ClearedHoldsNothing()
    ensures Holds(EMPTY, []) && !FirstExchange([])
  {}

  lemma {:induction false} SpokenSkipsSystem(messages: seq<StoredMessage>, tail: seq<StoredMessage>)
    requires forall i :: 0 <= i < |tail| ==> tail[i].role.System?
    ensures Spoken(messages + tail) == Spoken(messages)
    decreases messages, tail
  {
    if messages != [] {
      assert (messages + tail)[1..] == messages[1..] + tail;
      SpokenSkipsSystem(messages[1..], tail);
    } else if tail != [] {
      assert messages + tail == tail;
      assert [] + tail[1..] == tail[1..];
      SpokenSkipsSystem([], tail[1..]);
    }
  }

  /** Stored system messages would break that: eight of them hide the earlier conversation from the
      window, and the next exchange queues a title again, however many were queued before.  No caller stores
      one today. */
  lemma SystemMessagesRetitle(s: Chat, question: string, answer: string)
    requires |s.messages| >= 8 && question != ""
    requires forall i :: |s.messages| - 8 <= i < |s.messages| ==> s.messages[i].role.System?
    ensures AddToSession(AddToSession(s, User, question), Assistant, answer).titles == s.titles + 1
  {
    hide Recent, Spoken, FirstUserContent;
    var s1 := AddMessage(s, User, question);
    var s2 := AddMessage(s1, Assistant, answer);
    var n := |s.messages|;
    WindowAfterExchange(s.messages[n - 8..], StoredMessage(n + 1, User, question),
                        StoredMessage(n + 2, Assistant, answer));
    LastTen(s, s2);
  }

  lemma LastTen(s: Chat, s2: Chat)
    requires |s.messages| >= 8 && |s2.messages| == |s.messages| + 2 && s2.messages[..|s.messages|] == s.messages
    ensures var n := |s.messages|;
      Recent(s2, WINDOW) == Reversed(s.messages[n - 8..] + [s2.messages[n], s2.messages[n + 1]])
  {
    var n := |s.messages|;
    assert Latest(s2, WINDOW) == s.messages[n - 8..] + [s2.messages[n], s2.messages[n + 1]];
  }

  lemma WindowAfterExchange(hidden: seq<StoredMessage>, asked: StoredMessage, answered: StoredMessage)
    requires forall i :: 0 <= i < |hidden| ==> hidden[i].role.System?
    requires asked.role.User? && answered.role.Assistant?
    ensures var recent := Reversed(hidden + [asked, answered]);
      |Spoken(recent)| == 2 && FirstUserContent(Reversed(recent)) == asked.content
  {
    var window := hidden + [asked, answered];
    var recent := Reversed(window);
    assert recent == [answered, asked] + recent[2..];
    SpokenSkipsSystem([answered, asked], recent[2..]);
    SpokenAll([answered, asked]);
    ReversedTwice(window);
    FirstUserAfterSystem(hidden, [asked, answered]);
  }

  lemma {:induction false} FirstUserAfterSystem(hidden: seq<StoredMessage>, rest: seq<StoredMessage>)
    requires forall i :: 0 <= i < |hidden| ==> hidden[i].role.System?
    ensures FirstUserContent(hidden + rest) == FirstUserContent(rest)
  {
    if hidden == [] {
      assert [] + rest == rest;
    } else {
      assert (hidden + rest)[1..] == hidden[1..] + rest;
      FirstUserAfterSystem(hidden[1..], rest);
    }
  }

  // -------------------------------------------------------------- database calls interleaved

  /** One addMessage call. */
  type Call = nat

  datatype Row = Row(sequenceNumber: nat, call: Call)

  /** `counted` holds what each call has read and not yet used; `uncounted` the calls whose row exists but
      whose increment is still to come. */
  datatype Shared = Shared(rows: seq<Row>, messageCount: int, counted: map<Call, nat>, uncounted: set<Call>)

  datatype Event =
    | CountRows(call: Call)
    | CreateRow(call: Call)
    | BumpCount(call: Call)
    | DeleteRows
    | ResetCount

  predicate Enabled(s: Shared, e: Event) {
    match e
    case CountRows(c) => c !in s.counted && c !in s.uncounted
    case CreateRow(c) => c in s.counted && c !in s.uncounted
    case BumpCount(c) => c in s.uncounted
    case DeleteRows | ResetCount => true
  }

  function Step(s: Shared, e: Event): Shared
    requires Enabled(s, e)
  {
    match e
    case CountRows(c) => s.(counted := s.counted[c := |s.rows|])
    case CreateRow(c) =>
      s.(rows := s.rows + [Row(s.counted[c] + 1, c)], counted := s.counted - {c}, uncounted := s.uncounted + {c})
    case BumpCount(c) => s.(messageCount := s.messageCount + 1, uncounted := s.uncounted - {c})
    case DeleteRows => s.(rows := [])
    case ResetCount => s.(messageCount := 0)
  }

  ghost predicate Possible(s: Shared, events: seq<Event>)
    decreases |events|, 0
  {
    events == [] ||
    (Possible(s, events[..|events| - 1]) && Enabled(After(s, events[..|events| - 1]), events[|events| - 1]))
  }

  ghost function After(s: Shared, events: seq<Event>): Shared
    requires Possible(s, events)
    decreases |events|, 1
  {
    if events == [] then s else Step(After(s, events[..|events| - 1]), events[|events| - 1])
  }

  /** One call counts, creates and increments once each, in this order. */
  lemma CallsGoOnceThrough(s: Shared, c: Call)
    requires Enabled(s, CountRows(c))
    ensures var s1 := Step(s, CountRows(c));
      && !Enabled(s, CreateRow(c)) && !Enabled(s, BumpCount(c)) && Enabled(s1, CreateRow(c))
      && var s2 := Step(s1, CreateRow(c));
      && !Enabled(s2, CreateRow(c)) && Enabled(s2, BumpCount(c)) && !Enabled(s2, CountRows(c))
      && var s3 := Step(s2, BumpCount(c));
      && !Enabled(s3, CreateRow(c)) && !Enabled(s3, BumpCount(c))
  {}

  /** Only adds: no clear takes part. */
  predicate OnlyAdds(events: seq<Event>) {
    forall i :: 0 <= i < |events| ==> !events[i].DeleteRows? && !events[i].ResetCount?
  }

  ghost predicate Quiet(s: Shared) {
    s.messageCount == |s.rows| && s.counted == map[] && s.uncounted == {}
  }

  /** The counter knows every row but those still to be counted. */
  ghost predicate CountRight(s: Shared) {
    s.messageCount + |s.uncounted| == |s.rows|
  }

  /** However the calls of several adds interleave, the counter plus the rows created but not yet counted
      is the number of rows. */
  lemma {:induction false} CounterAccountsForRows(s: Shared, events: seq<Event>)
    requires Quiet(s) && Possible(s, events) && OnlyAdds(events)
    ensures CountRight(After(s, events))
  {
    if events == [] {
    } else {
      CounterAccountsForRows(s, events[..|events| - 1]);
    }
  }

  function Creates(events: seq<Event>): nat {
    if events == [] then 0
    else Creates(events[..|events| - 1]) + if events[|events| - 1].CreateRow? then 1 else 0
  }

  lemma {:induction false} PrefixPossible(s: Shared, events: seq<Event>, i: nat)
    requires Possible(s, events) && i <= |events|
    ensures Possible(s, events[..i])
  {
    if i == |events| {
      assert events[..i] == events;
    } else {
      assert events[..|events| - 1][..i] == events[..i];
      PrefixPossible(s, events[..|events| - 1], i);
    }
  }

  lemma StepKeepsCounted(s: Shared, e: Event, c: Call)
    requires Enabled(s, e) && !e.DeleteRows? && !e.ResetCount? && e != CreateRow(c) && c in s.counted
    ensures c in Step(s, e).counted && Step(s, e).counted[c] == s.counted[c]
    ensures |Step(s, e).rows| == |s.rows| + if e.CreateRow? then 1 else 0
  {}

  lemma PrefixStep(s: Shared, events: seq<Event>, j: nat)
    requires Possible(s, events) && 0 < j <= |events|
    ensures Possible(s, events[..j - 1]) && Possible(s, events[..j])
    ensures Enabled(After(s, events[..j - 1]), events[j - 1])
    ensures After(s, events[..j]) == Step(After(s, events[..j - 1]), events[j - 1])
  {
    PrefixPossible(s, events, j - 1);
    PrefixPossible(s, events, j);
    assert events[..j][..j - 1] == events[..j - 1];
  }

  lemma CreatesSnoc(events: seq<Event>, e: Event)
    ensures Creates(events + [e]) == Creates(events) + if e.CreateRow? then 1 else 0
  {
    assert (events + [e])[..|events|] == events;
  }

  /** Between its count and its create a call keeps what it has read, and the table grows by the creates in
      between. */
  lemma {:induction false} CountIsKept(s: Shared, events: seq<Event>, i: nat, j: nat)
    requires Possible(s, events) && OnlyAdds(events) && i < j <= |events| && events[i].CountRows?
    requires forall m :: i < m < j ==> events[m] != CreateRow(events[i].call)
    requires Possible(s, events[..i]) && Possible(s, events[..j])
    ensures var c := events[i].call;
      && c in After(s, events[..j]).counted
      && After(s, events[..j]).counted[c] == |After(s, events[..i]).rows|
      && |After(s, events[..j]).rows| == |After(s, events[..i]).rows| + Creates(events[i + 1..j])
    decreases j
  {
    hide After, Possible;
    PrefixStep(s, events, j);
    if j == i + 1 {
      assert events[i + 1..j] == [];
    } else {
      hide Step, Enabled;
      CountIsKept(s, events, i, j - 1);
      StepKeepsCounted(After(s, events[..j - 1]), events[j - 1], events[i].call);
      assert events[i + 1..j] == events[i + 1..j - 1] + [events[j - 1]];
      CreatesSnoc(events[i + 1..j - 1], events[j - 1]);
    }
  }

  /** The k-th row to be created carries the number k minus the creates of others that fell between its
      count and its create: never more than k, and exactly k when there were none. */
  lemma NumberLagsByCreatesBetween(s: Shared, events: seq<Event>, i: nat, j: nat)
    requires Possible(s, events) && OnlyAdds(events)
    requires i < j < |events| && events[i].CountRows? && events[j] == CreateRow(events[i].call)
    requires forall m :: i < m < j ==> events[m] != CreateRow(events[i].call)
    ensures Possible(s, events[..j]) && Possible(s, events[..j + 1])
    ensures var k := |After(s, events[..j]).rows| + 1;
      && |After(s, events[..j + 1]).rows| == k
      && After(s, events[..j + 1]).rows[k - 1].sequenceNumber == k - Creates(events[i + 1..j])
  {
    PrefixPossible(s, events, i);
    PrefixPossible(s, events, j);
    PrefixPossible(s, events, j + 1);
    assert events[..j + 1][..j] == events[..j];
    CountIsKept(s, events, i, j);
  }

  function Bumps(events: seq<Event>): nat {
    if events == [] then 0
    else Bumps(events[..|events| - 1]) + if events[|events| - 1].BumpCount? then 1 else 0
  }

  lemma {:induction false} BumpsJoin(a: seq<Event>, b: seq<Event>)
    ensures Bumps(a + b) == Bumps(a) + Bumps(b)
  {
    if b == [] {
      assert a + b == a;
    } else {
      BumpsJoin(a, b[..|b| - 1]);
      assert (a + b)[..|a + b| - 1] == a + b[..|b| - 1];
    }
  }

  /** Since a deletion the rows are the creates, and the uncounted rows change by creates less increments. */
  lemma {:induction false} SinceDeletion(s: Shared, events: seq<Event>, d: nat)
    requires Possible(s, events) && d < |events| && events[d].DeleteRows?
    requires forall i :: d < i < |events| ==> !events[i].DeleteRows?
    requires Possible(s, events[..d])
    ensures |After(s, events).rows| == Creates(events[d + 1..])
    ensures |After(s, events).uncounted| + Bumps(events[d + 1..])
            == |After(s, events[..d]).uncounted| + Creates(events[d + 1..])
    decreases |events|
  {
    var init := events[..|events| - 1];
    if d == |init| {
      assert events[d + 1..] == [];
    } else {
      assert init[..d] == events[..d];
      SinceDeletion(s, init, d);
      assert events[d + 1..][..|events| - d - 2] == init[d + 1..];
    }
  }

  /** Since a reset the counter is the number of increments. */
  lemma {:induction false} SinceReset(s: Shared, events: seq<Event>, r: nat)
    requires Possible(s, events) && r < |events| && events[r].ResetCount?
    requires forall i :: r < i < |events| ==> !events[i].ResetCount?
    ensures After(s, events).messageCount == Bumps(events[r + 1..])
    decreases |events|
  {
    var init := events[..|events| - 1];
    if r == |init| {
      assert events[r + 1..] == [];
    } else {
      SinceReset(s, init, r);
      assert events[r + 1..][..|events| - r - 2] == init[r + 1..];
    }
  }

  /** For every interleaving of adds and clears from any state: let d be the last deletion and r, after it, the
      last reset.  The counter accounts for the rows if and only if exactly as many increments fall
      between the two as there were uncounted rows at the deletion. */
  lemma ClearKeepsCountIff(s: Shared, events: seq<Event>, d: nat, r: nat)
    requires Possible(s, events) && d < r < |events| && events[d].DeleteRows? && events[r].ResetCount?
    requires forall i :: d < i < |events| ==> !events[i].DeleteRows?
    requires forall i :: r < i < |events| ==> !events[i].ResetCount?
    ensures Possible(s, events[..d])
    ensures CountRight(After(s, events)) <==> Bumps(events[d + 1..r]) == |After(s, events[..d]).uncounted|
  {
    PrefixPossible(s, events, d);
    SinceDeletion(s, events, d);
    SinceReset(s, events, r);
    hide After, Possible, Bumps;
    assert events[d + 1..] == events[d + 1..r] + [events[r]] + events[r + 1..];
    BumpsJoin(events[d + 1..r] + [events[r]], events[r + 1..]);
    BumpsJoin(events[d + 1..r], [events[r]]);
    ResetIsNoBump(events[r]);
  }

  lemma ResetIsNoBump(e: Event)
    requires !e.BumpCount?
    ensures Bumps([e]) == 0
  {
    assert [e][..0] == [];
    assert Bumps([]) == 0;
  }

  /** From a quiet state, the uncounted rows are the creates less the increments, whatever is cleared. */
  lemma {:induction false} UncountedBalance(s: Shared, events: seq<Event>)
    requires Quiet(s) && Possible(s, events)
    ensures |After(s, events).uncounted| + Bumps(events) == Creates(events)
  {
    if events == [] {
    } else {
      UncountedBalance(s, events[..|events| - 1]);
    }
  }

  lemma {:induction false} OneCreateIn(events: seq<Event>, k: nat, hi: nat)
    requires hi <= |events| && forall i :: 0 <= i < |events| ==> (events[i].CreateRow? <==> i == k)
    ensures Creates(events[..hi]) == if k < hi then 1 else 0
  {
    if hi == 0 {
    } else {
      OneCreateIn(events, k, hi - 1);
      assert events[..hi][..hi - 1] == events[..hi - 1];
    }
  }

  lemma {:induction false} OneBumpIn(events: seq<Event>, b: nat, lo: nat, hi: nat)
    requires lo <= hi <= |events| && forall i :: 0 <= i < |events| ==> (events[i].BumpCount? <==> i == b)
    ensures Bumps(events[lo..hi]) == if lo <= b < hi then 1 else 0
  {
    if hi == lo {
    } else {
      OneBumpIn(events, b, lo, hi - 1);
      assert events[lo..hi][..hi - 1 - lo] == events[lo..hi - 1];
    }
  }

  /** Which orders of one add and one clear are safe: the row is created before the deletion if and only if it
      is counted before the reset. */
  lemma OneAddOneClear(s: Shared, events: seq<Event>, k: nat, b: nat, d: nat, r: nat)
    requires Quiet(s) && Possible(s, events) && k < b < |events| && d < r < |events|
    requires forall i :: 0 <= i < |events| ==> (events[i].CreateRow? <==> i == k) && (events[i].BumpCount? <==> i == b)
    requires forall i :: 0 <= i < |events| ==>
      (events[i].DeleteRows? <==> i == d) && (events[i].ResetCount? <==> i == r)
    ensures CountRight(After(s, events)) <==> (k < d <==> b < r)
  {
    ClearKeepsCountIff(s, events, d, r);
    UncountedBalance(s, events[..d]);
    hide After, Possible, Bumps, Creates;
    OneCreateIn(events, k, d);
    OneBumpIn(events, b, 0, d);
    OneBumpIn(events, b, d + 1, r);
    assert events[0..d] == events[..d];
  }

  /** So a clear that overlaps an add can leave a row that the counter does not know. */
  lemma OverlappingClearLosesCount(s: Shared, c: Call)
    requires Quiet(s)
    ensures var events := [CountRows(c), DeleteRows, CreateRow(c), BumpCount(c), ResetCount];
      && Possible(s, events)
      && After(s, events).uncounted == {} && |After(s, events).rows| == 1 && After(s, events).messageCount == 0
  {
    var events := [CountRows(c), DeleteRows, CreateRow(c), BumpCount(c), ResetCount];
    var s1 := Step(s, CountRows(c));
    var s2 := Step(s1, DeleteRows);
    var s3 := Step(s2, CreateRow(c));
    var s4 := Step(s3, BumpCount(c));
    assert events[..0] == [] && events[..1] == [] + [CountRows(c)] && events[..2] == events[..1] + [DeleteRows];
    assert events[..3] == events[..2] + [CreateRow(c)] && events[..4] == events[..3] + [BumpCount(c)];
    assert events == events[..4] + [ResetCount];
    AfterSnoc(s, events[..0], CountRows(c));
    AfterSnoc(s, events[..1], DeleteRows);
    AfterSnoc(s, events[..2], CreateRow(c));
    AfterSnoc(s, events[..3], BumpCount(c));
    AfterSnoc(s, events[..4], ResetCount);
    assert After(s, events) == Step(s4, ResetCount);
  }

  lemma AfterSnoc(s: Shared, events: seq<Event>, e: Event)
    requires Possible(s, events) && Enabled(After(s, events), e)
    ensures Possible(s, events + [e]) && After(s, events + [e]) == Step(After(s, events), e)
  {
    assert (events + [e])[..|events + [e]| - 1] == events;
  }

  // ------------------------------------------------------------------------------- the service

  class ChatSessionService {
    var messages: seq<StoredMessage>
    var messageCount: int
    ghost var titles: nat
    ghost var summaries: nat

    ghost function View(): Chat
      reads this
    {
      Chat(messages, messageCount, titles, summaries)
    }

    constructor ()
      ensures View() == EMPTY
    {
      messages, messageCount, titles, summaries := [], 0, 0, 0;
    }

    method Add(role: Role, content: string) returns (message: StoredMessage)
      modifies this`messages, this`messageCount
      ensures View() == AddMessage(old(View()), role, content)
      ensures message == messages[|messages| - 1]
    {
      var currentCount := |messages|;
      var sequenceNumber := currentCount + 1;
      message := StoredMessage(sequenceNumber, role, content);
      messages := messages + [message];
      messageCount := messageCount + 1;
    }

    method Clear()
      modifies this
      ensures View() == ClearMessages(old(View()))
    {
      messages := [];
      messageCount := 0;
      titles, summaries := 0, 0;
    }

    method GetRecentMessages(limit: nat) returns (recent: seq<StoredMessage>)
      ensures recent == Recent(View(), limit)
    {
      var skip := if |messages| <= limit then 0 else |messages| - limit;
      assert messages[0..] == messages;
      recent := Reversed(messages[skip..]);
    }

    method TriggerJobs()
      modifies this`titles, this`summaries
      ensures View() == TriggerBackgroundJobs(old(View()))
    {
      var allMessages := GetRecentMessages(WINDOW);
      if |Spoken(allMessages)| == AUTO_TITLE_MESSAGE_COUNT {
        if FirstUserContent(Reversed(allMessages)) != "" {
          titles := titles + 1;
        }
      }
      if messageCount > SUMMARY_THRESHOLD {
        summaries := summaries + 1;
      }
    }

    method AddMessageToSession(role: Role, content: string)
      modifies this
      ensures View() == AddToSession(old(View()), role, content)
    {
      var _ := Add(role, content);
      if role == Assistant {
        TriggerJobs();
      }
    }
  }
}
