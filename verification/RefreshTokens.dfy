/** Refresh-token rotation: the token table and the four operations that change it, with an account of which
    token should be accepted that looks at the operations alone.  First one operation at a time, then with the
    database calls of all requests interleaved. */
module RefreshTokens {
  import opened Text

  type Token = string
  type UserId = string

  /** Seven days, in milliseconds. */
  const WEEK: int := 7 * 24 * 60 * 60 * 1000

  datatype Row = Row(userId: UserId, expiresAt: int)

  type Rows = map<Token, Row>

  datatype Answer = Accepted(user: UserId) | Invalid | Expired

  // ------------------------------------------------------------------------------- operations

  /** deleteMany({ userId }) */
  function ClearUser(table: Rows, user: UserId): Rows {
    map t | t in table && table[t].userId != user :: table[t]
  }

  function CreateRow(table: Rows, user: UserId, token: Token, now: int): Rows {
    table[token := Row(user, now + WEEK)]
  }

  /** generateRefreshToken, both database calls. */
  function Issue(table: Rows, user: UserId, token: Token, now: int): Rows {
    CreateRow(ClearUser(table, user), user, token, now)
  }

  function Answers(table: Rows, token: Token, now: int): Answer {
    if token !in table then Invalid
    else if table[token].expiresAt < now then Expired
    else Accepted(table[token].userId)
  }

  function Refresh(table: Rows, token: Token, next: Token, now: int): Rows {
    match Answers(table, token, now)
    case Invalid => table
    case Expired => table - {token}
    case Accepted(user) => Issue(table, user, next, now)
  }

  function Revoke(table: Rows, token: Token): Rows {
    table - {token}
  }

  function RevokeAll(table: Rows, user: UserId): Rows {
    ClearUser(table, user)
  }

  datatype Op =
    | DoIssue(user: UserId, token: Token, now: int)
    | DoRefresh(presented: Token, next: Token, now: int)
    | DoRevoke(presented: Token)
    | DoRevokeAll(user: UserId)

  function Apply(table: Rows, op: Op): Rows {
    match op
    case DoIssue(user, token, now) => Issue(table, user, token, now)
    case DoRefresh(presented, next, now) => Refresh(table, presented, next, now)
    case DoRevoke(presented) => Revoke(table, presented)
    case DoRevokeAll(user) => RevokeAll(table, user)
  }

  /** One operation at a time, from an empty table. */
  function Run(ops: seq<Op>): Rows {
    if ops == [] then map[] else Apply(Run(ops[..|ops| - 1]), ops[|ops| - 1])
  }

  // ------------------------------------------------------------- what the operations should do

  /** The random token an operation may bring in. */
  function Introduced(op: Op): Option<Token> {
    match op
    case DoIssue(_, token, _) => Some(token)
    case DoRefresh(_, next, _) => Some(next)
    case _ => None
  }

  /** Random tokens never come twice. */
  ghost predicate FreshTokens(ops: seq<Op>) {
    forall i, j :: 0 <= i < j < |ops| && Introduced(ops[i]).Some? ==> Introduced(ops[i]) != Introduced(ops[j])
  }

  /** What ends a token of a user: a newer login, its own use, its revocation, or the revocation of all. */
  predicate Touches(op: Op, user: UserId, token: Token) {
    match op
    case DoIssue(u, _, _) => u == user
    case DoRefresh(presented, _, _) => presented == token
    case DoRevoke(presented) => presented == token
    case DoRevokeAll(u) => u == user
  }

  predicate Spared(ops: seq<Op>, user: UserId, token: Token) {
    forall i :: 0 <= i < |ops| ==> !Touches(ops[i], user, token)
  }

  /** The last operation gives the user the token: by a login, or by a refresh with a token that the user holds and
      that is at most a week old. */
  ghost predicate Given(ops: seq<Op>, user: UserId, token: Token, at: int)
    decreases |ops|, 0
  {
    && ops != []
    && match ops[|ops| - 1]
       case DoIssue(u, t, now) => u == user && t == token && now == at
       case DoRefresh(presented, next, now) =>
         next == token && now == at && MayUse(ops[..|ops| - 1], user, presented, now)
       case _ => false
  }

  ghost predicate MayUse(ops: seq<Op>, user: UserId, token: Token, now: int)
    decreases |ops|, 3
  {
    exists at :: Holds(ops, user, token, at) && now <= at + WEEK
  }

  ghost predicate HoldsSince(ops: seq<Op>, n: nat, user: UserId, token: Token, at: int)
    requires n <= |ops|
    decreases |ops|, 1
  {
    n > 0 && Given(ops[..n], user, token, at) && Spared(ops[n..], user, token)
  }

  /** The user was given the token at this time, and nothing has touched it since. */
  ghost predicate Holds(ops: seq<Op>, user: UserId, token: Token, at: int)
    decreases |ops|, 2
  {
    exists n :: 0 <= n <= |ops| && HoldsSince(ops, n, user, token, at)
  }

  lemma SparedAfter(ops: seq<Op>, op: Op, user: UserId, token: Token)
    ensures Spared(ops + [op], user, token) <==> Spared(ops, user, token) && !Touches(op, user, token)
  {
    hide Touches;
    var all := ops + [op];
    assert all[|ops|] == op && forall i :: 0 <= i < |ops| ==> all[i] == ops[i];
  }

  lemma HoldsSinceAfter(ops: seq<Op>, op: Op, n: nat, user: UserId, token: Token, at: int)
    requires n <= |ops| + 1
    ensures HoldsSince(ops + [op], n, user, token, at)
      <==> if n <= |ops| then HoldsSince(ops, n, user, token, at) && !Touches(op, user, token)
           else Given(ops + [op], user, token, at)
  {
    hide Given, Touches, Spared;
    var all := ops + [op];
    if n <= |ops| {
      assert all[..n] == ops[..n] && all[n..] == ops[n..] + [op];
      SparedAfter(ops[n..], op, user, token);
    } else {
      assert all[..n] == all && all[n..] == [];
      NothingTouches(user, token);
    }
  }

  lemma NothingTouches(user: UserId, token: Token)
    ensures Spared([], user, token)
  {}

  lemma HoldsAfter(ops: seq<Op>, op: Op, user: UserId, token: Token, at: int)
    ensures Holds(ops + [op], user, token, at)
      <==> Given(ops + [op], user, token, at) || (Holds(ops, user, token, at) && !Touches(op, user, token))
  {
    hide HoldsSince, Given, Touches;
    forall n: nat | n <= |ops| + 1
      ensures HoldsSince(ops + [op], n, user, token, at)
        <==> if n <= |ops| then HoldsSince(ops, n, user, token, at) && !Touches(op, user, token)
             else Given(ops + [op], user, token, at)
    {
      HoldsSinceAfter(ops, op, n, user, token, at);
    }
    assert Given(ops + [op], user, token, at) <==> HoldsSince(ops + [op], |ops| + 1, user, token, at);
  }

  lemma GivenAfter(ops: seq<Op>, op: Op, user: UserId, token: Token, at: int)
    ensures Given(ops + [op], user, token, at)
      <==> match op
           case DoIssue(u, t, now) => u == user && t == token && now == at
           case DoRefresh(presented, next, now) => next == token && now == at && MayUse(ops, user, presented, now)
           case _ => false
  {
    hide MayUse;
    assert (ops + [op])[..|ops|] == ops;
  }

  /** The table holds exactly the tokens that are held, one a user, and only tokens brought in before. */
  ghost predicate Accounted(table: Rows, ops: seq<Op>) {
    && (forall u, t, at :: Holds(ops, u, t, at) <==> t in table && table[t] == Row(u, at + WEEK))
    && (forall t1, t2 :: t1 in table && t2 in table && table[t1].userId == table[t2].userId ==> t1 == t2)
    && (forall t :: t in table ==> exists i :: 0 <= i < |ops| && Introduced(ops[i]) == Some(t))
  }

  /** The same, told from the table. */
  ghost predicate HoldsNext(table: Rows, op: Op, user: UserId, token: Token, at: int) {
    || (match op
        case DoIssue(u, t, now) => u == user && t == token && now == at
        case DoRefresh(presented, next, now) =>
          next == token && now == at && Answers(table, presented, now) == Accepted(user)
        case _ => false)
    || (token in table && table[token] == Row(user, at + WEEK) && !Touches(op, user, token))
  }

  lemma NextIsHeld(table: Rows, ops: seq<Op>, op: Op, user: UserId, token: Token, at: int)
    requires Accounted(table, ops)
    ensures Holds(ops + [op], user, token, at) <==> HoldsNext(table, op, user, token, at)
  {
    HoldsAfter(ops, op, user, token, at);
    GivenAfter(ops, op, user, token, at);
    hide Holds, Given;
    if op.DoRefresh? && op.presented in table {
      assert Holds(ops, table[op.presented].userId, op.presented, table[op.presented].expiresAt - WEEK);
    }
  }

  ghost predicate OneEach(table: Rows) {
    forall t1, t2 :: t1 in table && t2 in table && table[t1].userId == table[t2].userId ==> t1 == t2
  }

  lemma NextIsStored(table: Rows, op: Op, user: UserId, token: Token, at: int)
    requires OneEach(table) && (Introduced(op).Some? ==> Introduced(op).value !in table)
    ensures HoldsNext(table, op, user, token, at)
      <==> token in Apply(table, op) && Apply(table, op)[token] == Row(user, at + WEEK)
  {}

  lemma StillOneEach(table: Rows, op: Op)
    requires OneEach(table)
    ensures OneEach(Apply(table, op))
    ensures forall t :: t in Apply(table, op) ==> t in table || Introduced(op) == Some(t)
  {}

  lemma TouchRemoves(table: Rows, op: Op, token: Token)
    requires OneEach(table) && token in table && Introduced(op) != Some(token)
    requires Touches(op, table[token].userId, token)
    ensures token !in Apply(table, op)
  {}

  lemma OpKeepsAccounted(table: Rows, ops: seq<Op>, op: Op)
    requires Accounted(table, ops) && FreshTokens(ops + [op])
    ensures Accounted(Apply(table, op), ops + [op])
  {
    hide Apply, Holds, HoldsNext;
    var all := ops + [op];
    assert all[|ops|] == op && forall i :: 0 <= i < |ops| ==> all[i] == ops[i];
    assert Introduced(op).Some? ==> Introduced(op).value !in table;
    forall u, t, at ensures Holds(all, u, t, at) <==>
      t in Apply(table, op) && Apply(table, op)[t] == Row(u, at + WEEK)
    {
      NextIsHeld(table, ops, op, u, t, at);
      NextIsStored(table, op, u, t, at);
    }
    StillOneEach(table, op);
    forall t | t in Apply(table, op) ensures exists i :: 0 <= i < |all| && Introduced(all[i]) == Some(t) {
      if t in table {
        var i :| 0 <= i < |ops| && Introduced(ops[i]) == Some(t);
        assert Introduced(all[i]) == Some(t);
      } else {
        assert Introduced(all[|ops|]) == Some(t);
      }
    }
  }

  lemma NothingHeld(user: UserId, token: Token, at: int)
    ensures !Holds([], user, token, at)
  {}

  lemma {:induction false} RunIsAccounted(ops: seq<Op>)
    requires FreshTokens(ops)
    ensures Accounted(Run(ops), ops)
  {
    if ops == [] {
      forall u, t, at ensures !Holds(ops, u, t, at) { NothingHeld(u, t, at); }
    } else {
      var init, last := ops[..|ops| - 1], ops[|ops| - 1];
      assert ops == init + [last];
      hide Accounted, Apply;
      RunIsAccounted(init);
      OpKeepsAccounted(Run(init), init, last);
    }
  }

  /** Over every sequential run, a token is accepted for a user at a moment exactly when the user was given it at most
      a week before, and since then has not logged in again, has not used it, and has neither had it nor had all
      tokens revoked. */
  lemma AcceptedExactlyWhenHeld(ops: seq<Op>, user: UserId, token: Token, moment: int)
    requires FreshTokens(ops)
    ensures Answers(Run(ops), token, moment) == Accepted(user)
      <==> exists at :: Holds(ops, user, token, at) && moment <= at + WEEK
  {
    RunIsAccounted(ops);
    hide Holds, Run;
    if token in Run(ops) {
      assert Holds(ops, Run(ops)[token].userId, token, Run(ops)[token].expiresAt - WEEK);
    }
  }

  /** Each user has at most one token in the table. */
  lemma OneTokenPerUser(ops: seq<Op>, t1: Token, t2: Token)
    requires FreshTokens(ops)
    requires t1 in Run(ops) && t2 in Run(ops) && Run(ops)[t1].userId == Run(ops)[t2].userId
    ensures t1 == t2
  {
    hide Run, Holds;
    RunIsAccounted(ops);
  }

  lemma {:induction false} SpentStaysSpent(ops: seq<Op>, after: seq<Op>, token: Token)
    requires token !in Run(ops) && forall i :: 0 <= i < |after| ==> Introduced(after[i]) != Some(token)
    ensures token !in Run(ops + after)
  {
    if after == [] {
      assert ops + after == ops;
    } else {
      var init, last := after[..|after| - 1], after[|after| - 1];
      var all := ops + after;
      assert all[..|all| - 1] == ops + init && all[|all| - 1] == last;
      SpentStaysSpent(ops, init, token);
    }
  }

  /** Whatever touches a token ends it for good: it is never accepted again, whatever follows. */
  lemma TouchedStaysInvalid(before: seq<Op>, op: Op, after: seq<Op>, user: UserId, token: Token, at: int, moment: int)
    requires Holds(before, user, token, at) && Touches(op, user, token) && FreshTokens(before + [op] + after)
    ensures Answers(Run(before + [op] + after), token, moment) == Invalid
  {
    var ops := before + [op];
    var all := ops + after;
    assert forall i :: 0 <= i < |before| ==> all[i] == before[i];
    assert all[|before|] == op && forall i :: 0 <= i < |after| ==> all[|ops| + i] == after[i];
    assert ops[..|before|] == before && ops[|before|] == op;
    RunIsAccounted(before);
    hide Holds, Apply, Touches;
    var k :| 0 <= k < |before| && Introduced(before[k]) == Some(token);
    assert Introduced(all[k]) == Some(token);
    TouchRemoves(Run(before), op, token);
    SpentStaysSpent(ops, after, token);
  }

  lemma HoldsOn(before: seq<Op>, after: seq<Op>, user: UserId, token: Token, at: int)
    requires Holds(before, user, token, at) && Spared(after, user, token)
    ensures Holds(before + after, user, token, at)
  {
    hide Given, Touches;
    var all := before + after;
    var n :| 0 <= n <= |before| && HoldsSince(before, n, user, token, at);
    assert all[..n] == before[..n] && all[n..] == before[n..] + after;
    assert HoldsSince(all, n, user, token, at);
  }

  /** What nothing touches is accepted until it expires. */
  lemma UntouchedStaysAccepted(before: seq<Op>, after: seq<Op>, user: UserId, token: Token, at: int, moment: int)
    requires Holds(before, user, token, at) && Spared(after, user, token) && FreshTokens(before + after)
    ensures Answers(Run(before + after), token, moment)
      == if moment <= at + 604_800_000 then Accepted(user) else Expired
  {
    hide Holds, Run;
    HoldsOn(before, after, user, token, at);
    RunIsAccounted(before + after);
    assert Run(before + after)[token] == Row(user, at + WEEK);
  }

  /** In particular a revoked token is refused at once and for ever, and so is every token of a user whose tokens were
      all revoked. */
  lemma RevokedStaysInvalid(before: seq<Op>, op: Op, after: seq<Op>, user: UserId, token: Token, at: int, moment: int)
    requires Holds(before, user, token, at) && op in {DoRevoke(token), DoRevokeAll(user)}
    requires FreshTokens(before + [op] + after)
    ensures Answers(Run(before + [op] + after), token, moment) == Invalid
  {
    hide Holds;
    TouchedStaysInvalid(before, op, after, user, token, at, moment);
  }

  /** A refresh token is good for one refresh: once accepted it is never accepted again. */
  lemma AcceptedOnlyOnce(before: seq<Op>, token: Token, next: Token, now: int, after: seq<Op>, moment: int)
    requires Answers(Run(before), token, now).Accepted?
    requires FreshTokens(before + [DoRefresh(token, next, now)] + after)
    ensures Answers(Run(before + [DoRefresh(token, next, now)] + after), token, moment) == Invalid
  {
    var op := DoRefresh(token, next, now);
    var all := before + [op] + after;
    forall i, j | 0 <= i < j < |before| && Introduced(before[i]).Some?
      ensures Introduced(before[i]) != Introduced(before[j])
    {
      assert all[i] == before[i] && all[j] == before[j];
    }
    var user := Answers(Run(before), token, now).user;
    AcceptedExactlyWhenHeld(before, user, token, now);
    hide Holds;
    var at :| Holds(before, user, token, at) && now <= at + WEEK;
    TouchedStaysInvalid(before, op, after, user, token, at, moment);
  }

  // ------------------------------------------------------------ database calls interleaved

  /** One write of the token table. */
  datatype Write =
    | Clear(user: UserId)
    | Create(token: Token, user: UserId, at: int)
    | Remove(token: Token)

  function Written(table: Rows, w: Write): Rows {
    match w
    case Clear(user) => ClearUser(table, user)
    case Create(token, user, at) => CreateRow(table, user, token, at)
    case Remove(token) => table - {token}
  }

  function After(writes: seq<Write>): Rows {
    if writes == [] then map[] else Written(After(writes[..|writes| - 1]), writes[|writes| - 1])
  }

  predicate Kills(w: Write, c: Write)
    requires c.Create?
  {
    match w
    case Clear(user) => user == c.user
    case Create(_, _, _) => false
    case Remove(token) => token == c.token
  }

  /** A token was created at i, and since then its user has not been cleared nor the token removed. */
  ghost predicate Lives(writes: seq<Write>, i: int) {
    0 <= i < |writes| && writes[i].Create? && forall j :: i < j < |writes| ==> !Kills(writes[j], writes[i])
  }

  ghost predicate CreatedOnce(writes: seq<Write>) {
    forall i, j :: 0 <= i < j < |writes| && writes[i].Create? && writes[j].Create? ==>
      writes[i].token != writes[j].token
  }

  function RowOf(c: Write): Row
    requires c.Create?
  {
    Row(c.user, c.at + WEEK)
  }

  lemma LivesAfter(writes: seq<Write>, w: Write, i: int)
    ensures Lives(writes + [w], i)
      <==> if i < |writes| then Lives(writes, i) && !Kills(w, writes[i]) else i == |writes| && w.Create?
  {
    var longer := writes + [w];
    if 0 <= i < |writes| {
      assert longer[i] == writes[i] && longer[|writes|] == w;
      assert forall j :: i < j < |writes| ==> longer[j] == writes[j];
    }
  }

  ghost predicate HoldsTheLiving(table: Rows, writes: seq<Write>) {
    && (forall i :: Lives(writes, i) ==> writes[i].token in table && table[writes[i].token] == RowOf(writes[i]))
    && (forall t :: t in table ==> exists i :: Lives(writes, i) && writes[i].token == t)
  }

  /** A write removes a row exactly when it kills its token. */
  lemma WrittenSparesIff(table: Rows, w: Write, c: Write)
    requires c.Create? && c.token in table && table[c.token] == RowOf(c) && (w.Create? ==> w.token != c.token)
    ensures c.token in Written(table, w) <==> !Kills(w, c)
    ensures !Kills(w, c) ==> Written(table, w)[c.token] == RowOf(c)
  {}

  lemma WrittenAddsOnly(table: Rows, w: Write, t: Token)
    ensures t in Written(table, w) ==> t in table || (w.Create? && t == w.token)
    ensures w.Create? ==> w.token in Written(table, w) && Written(table, w)[w.token] == RowOf(w)
  {}

  lemma WriteKeepsLiving(table: Rows, writes: seq<Write>, w: Write)
    requires HoldsTheLiving(table, writes) && CreatedOnce(writes + [w])
    ensures HoldsTheLiving(Written(table, w), writes + [w])
  {
    hide Lives, Kills, Written, RowOf;
    var longer, table' := writes + [w], Written(table, w);
    assert longer[|writes|] == w && forall i :: 0 <= i < |writes| ==> longer[i] == writes[i];
    forall i | Lives(longer, i) ensures 0 <= i < |longer| && longer[i].Create? { LivesInside(longer, i); }
    forall i | 0 <= i < |longer| && longer[i].Create? && Lives(longer, i)
      ensures longer[i].token in table' && table'[longer[i].token] == RowOf(longer[i])
    {
      LivesAfter(writes, w, i);
      if i < |writes| { WrittenSparesIff(table, w, writes[i]); } else { WrittenAddsOnly(table, w, w.token); }
    }
    forall t | t in table' ensures exists i :: Lives(longer, i) && longer[i].token == t {
      WrittenAddsOnly(table, w, t);
      if w.Create? && t == w.token {
        LivesAfter(writes, w, |writes|);
        assert Lives(longer, |writes|);
      } else {
        var i := LivingOf(table, writes, t);
        WrittenSparesIff(table, w, writes[i]);
        LivesAfter(writes, w, i);
        assert Lives(longer, i);
      }
    }
  }

  lemma LivingOf(table: Rows, writes: seq<Write>, t: Token) returns (i: nat)
    requires HoldsTheLiving(table, writes) && t in table
    ensures i < |writes| && writes[i].Create? && Lives(writes, i) && writes[i].token == t
  {
    i :| Lives(writes, i) && writes[i].token == t;
  }

  lemma LivesInside(writes: seq<Write>, i: int)
    requires Lives(writes, i)
    ensures 0 <= i < |writes| && writes[i].Create?
  {}

  /** However the database calls of logins, refreshes and revocations interleave: the table holds exactly the
      tokens created since their user's last clear and not removed since. */
  lemma {:induction false} TableHoldsTheLiving(writes: seq<Write>)
    requires CreatedOnce(writes)
    ensures HoldsTheLiving(After(writes), writes)
  {
    if writes == [] {
    } else {
      var init := writes[..|writes| - 1];
      TableHoldsTheLiving(init);
      assert writes == init + [writes[|writes| - 1]];
      WriteKeepsLiving(After(init), init, writes[|writes| - 1]);
    }
  }

  ghost predicate OneRow(table: Rows, user: UserId) {
    forall t1, t2 :: t1 in table && t2 in table && table[t1].userId == user && table[t2].userId == user ==> t1 == t2
  }

  /** A user has at most one token if and only if of any two tokens created for the user, a later write has
      ended one. */
  lemma OneRowIff(writes: seq<Write>, user: UserId)
    requires CreatedOnce(writes)
    ensures OneRow(After(writes), user)
      <==> forall i, j :: 0 <= i < j < |writes| && Lives(writes, i) && Lives(writes, j) ==>
             !(writes[i].user == user && writes[j].user == user)
  {
    TableHoldsTheLiving(writes);
    var table := After(writes);
    if OneRow(table, user) {
      forall i, j | 0 <= i < j < |writes| && Lives(writes, i) && Lives(writes, j)
        ensures !(writes[i].user == user && writes[j].user == user)
      {
        assert writes[i].token != writes[j].token;
        assert writes[i].token in table && writes[j].token in table;
      }
    }
  }

  // ------------------------------------------------------------------------------ the calls

  /** Where a call stands: what its next database call is. */
  datatype Phase =
    | LoginClear(user: UserId)
    | RefreshFind(token: Token)
    | PurgeRow(token: Token)
    | IssueClear(user: UserId, presented: Token)
    | IssueCreate(user: UserId)
    | RevokeFind(token: Token)
    | RevokeRow(token: Token)
    | RevokeUser(user: UserId)
    | Ended

  datatype System = System(calls: seq<Phase>, writes: seq<Write>)

  /** One database call of one request, at this time; `random` is the token it would create. */
  datatype Event = Event(call: nat, now: int, random: Token)

  function Table(s: System): Rows {
    After(s.writes)
  }

  function Moved(s: System, call: nat, next: Phase): System
    requires call < |s.calls|
  {
    s.(calls := s.calls[call := next])
  }

  function Wrote(s: System, call: nat, next: Phase, w: Write): System
    requires call < |s.calls|
  {
    System(s.calls[call := next], s.writes + [w])
  }

  function Found(s: System, token: Token, now: int): Answer {
    Answers(Table(s), token, now)
  }

  function Step(s: System, e: Event): System {
    if e.call >= |s.calls| then s else
    match s.calls[e.call]
    case LoginClear(user) => Wrote(s, e.call, IssueCreate(user), Clear(user))
    case RefreshFind(token) =>
      (match Found(s, token, e.now)
       case Invalid => Moved(s, e.call, Ended)
       case Expired => Moved(s, e.call, PurgeRow(token))
       case Accepted(user) => Moved(s, e.call, IssueClear(user, token)))
    case PurgeRow(token) => Wrote(s, e.call, Ended, Remove(token))
    case IssueClear(user, _) => Wrote(s, e.call, IssueCreate(user), Clear(user))
    case IssueCreate(user) => Wrote(s, e.call, Ended, Create(e.random, user, e.now))
    case RevokeFind(token) => Moved(s, e.call, if token in Table(s) then RevokeRow(token) else Ended)
    case RevokeRow(token) => Wrote(s, e.call, Ended, Remove(token))
    case RevokeUser(user) => Wrote(s, e.call, Ended, Clear(user))
    case Ended => s
  }

  function RunSystem(s: System, events: seq<Event>): System
    decreases |events|
  {
    if events == [] then s else RunSystem(Step(s, events[0]), events[1..])
  }

  lemma {:induction false} RunOnlyWrites(s: System, events: seq<Event>)
    ensures s.writes <= RunSystem(s, events).writes && |RunSystem(s, events).calls| == |s.calls|
    decreases |events|
  {
    if events == [] {
    } else {
      RunOnlyWrites(Step(s, events[0]), events[1..]);
      assert s.writes <= Step(s, events[0]).writes;
    }
  }

  /** Nothing written since has ended the token. */
  predicate Untouched(writes: seq<Write>, user: UserId, token: Token) {
    forall i :: 0 <= i < |writes| ==> writes[i] != Clear(user) && writes[i] != Remove(token)
  }

  lemma {:induction false} LivingStays(writes: seq<Write>, more: seq<Write>, token: Token)
    requires CreatedOnce(writes + more) && token in After(writes)
    ensures var user := After(writes)[token].userId;
      if Untouched(more, user, token) then
        token in After(writes + more) && After(writes + more)[token] == After(writes)[token]
      else token !in After(writes + more)
  {
    if more == [] {
      assert writes + more == writes;
    } else {
      var last, init := more[|more| - 1], more[..|more| - 1];
      var all := writes + more;
      assert all[..|all| - 1] == writes + init && all[|all| - 1] == last;
      LivingStays(writes, init, token);
      assert more == init + [last];
      if last.Create? { TokenIsOld(writes, token, all, |all| - 1); }
    }
  }

  /** A token in the table was created before. */
  lemma TokenIsOld(writes: seq<Write>, token: Token, all: seq<Write>, k: nat)
    requires CreatedOnce(all) && writes <= all && token in After(writes) && |writes| <= k < |all| && all[k].Create?
    ensures all[k].token != token
  {
    forall i, j | 0 <= i < j < |writes| && writes[i].Create? && writes[j].Create?
      ensures writes[i].token != writes[j].token
    {
      assert writes[i] == all[i] && writes[j] == all[j];
    }
    TableHoldsTheLiving(writes);
    var i :| Lives(writes, i) && writes[i].token == token;
    assert all[i] == writes[i];
  }

  /** A second refresh of an accepted token, after any other steps, is accepted too if and only if the token has not
      expired by then and no write in between has cleared its user or removed it.  In particular it is refused
      once the first refresh has made its own clear. */
  lemma AcceptedTwiceIff(s: System, between: seq<Event>, token: Token, first: int, second: int)
    requires Found(s, token, first).Accepted?
    requires CreatedOnce(RunSystem(s, between).writes)
    ensures s.writes <= RunSystem(s, between).writes
    ensures var s2 := RunSystem(s, between); var user := Found(s, token, first).user;
      Found(s2, token, second).Accepted?
      <==> second <= Table(s)[token].expiresAt && Untouched(s2.writes[|s.writes|..], user, token)
  {
    hide After, CreatedOnce;
    RunOnlyWrites(s, between);
    var s2 := RunSystem(s, between);
    assert s2.writes == s.writes + s2.writes[|s.writes|..];
    LivingStays(s.writes, s2.writes[|s.writes|..], token);
  }

  lemma {:induction false} StandingStill(s: System, between: seq<Event>, call: nat)
    requires call < |s.calls| && forall i :: 0 <= i < |between| ==> between[i].call != call
    ensures call < |RunSystem(s, between).calls| && RunSystem(s, between).calls[call] == s.calls[call]
    decreases |between|
  {
    if between == [] {
    } else {
      assert between[0].call != call;
      StandingStill(Step(s, between[0]), between[1..], call);
    }
  }

  /** What a call is about to delete. */
  predicate Deletes(call: Phase, user: UserId, token: Token) {
    match call
    case LoginClear(u) => u == user
    case PurgeRow(t) => t == token
    case IssueClear(u, _) => u == user
    case RevokeRow(t) => t == token
    case RevokeUser(u) => u == user
    case _ => false
  }

  /** Once a call that is about to delete a token, or its user's tokens, has made its next step, the token is refused
      for ever, whatever else has interleaved and will: so with revocations, logins and purges as well. */
  lemma DeletedIsRefused(s: System, before: seq<Event>, e: Event, after: seq<Event>, token: Token, moment: int)
    requires e.call < |s.calls| && token in Table(s) && Deletes(s.calls[e.call], Table(s)[token].userId, token)
    requires forall i :: 0 <= i < |before| ==> before[i].call != e.call
    requires CreatedOnce(RunSystem(Step(RunSystem(s, before), e), after).writes)
    ensures Found(RunSystem(Step(RunSystem(s, before), e), after), token, moment) == Invalid
  {
    hide After, CreatedOnce;
    var s1 := RunSystem(s, before);
    StandingStill(s, before, e.call);
    RunOnlyWrites(s, before);
    var s2 := Step(s1, e);
    var user := Table(s)[token].userId;
    assert |s2.writes| == |s1.writes| + 1 && s2.writes[|s1.writes|] in {Clear(user), Remove(token)};
    RunOnlyWrites(s2, after);
    var s3 := RunSystem(s2, after);
    var more := s3.writes[|s.writes|..];
    assert s3.writes == s.writes + more;
    assert s3.writes[|s1.writes|] == s2.writes[|s1.writes|];
    assert more[|s1.writes| - |s.writes|] == s2.writes[|s1.writes|];
    LivingStays(s.writes, more, token);
  }

  /** The window between the find and the clear of one refresh is the only one: once the first refresh has taken
      its next step, every later refresh of the token is refused. */
  lemma RefusedAfterOwnClear(s: System, before: seq<Event>, e: Event, after: seq<Event>, token: Token, moment: int)
    requires e.call < |s.calls| && s.calls[e.call].IssueClear? && s.calls[e.call].presented == token
    requires token in Table(s) && Table(s)[token].userId == s.calls[e.call].user
    requires forall i :: 0 <= i < |before| ==> before[i].call != e.call
    requires CreatedOnce(RunSystem(Step(RunSystem(s, before), e), after).writes)
    ensures Found(RunSystem(Step(RunSystem(s, before), e), after), token, moment) == Invalid
  {
    hide After, CreatedOnce, Step, RunSystem;
    DeletedIsRefused(s, before, e, after, token, moment);
  }

  /** What each call writes, and what it does next. */
  lemma EachCallWrites(s: System, e: Event)
    requires e.call < |s.calls|
    ensures var call := s.calls[e.call]; var s' := Step(s, e); var next := s'.calls[e.call];
      && (call.LoginClear? || call.IssueClear? ==>
            s'.writes == s.writes + [Clear(call.user)] && next == IssueCreate(call.user))
      && (call.IssueCreate? ==> s'.writes == s.writes + [Create(e.random, call.user, e.now)] && next == Ended)
      && (call.PurgeRow? || call.RevokeRow? ==> s'.writes == s.writes + [Remove(call.token)] && next == Ended)
      && (call.RevokeUser? ==> s'.writes == s.writes + [Clear(call.user)] && next == Ended)
      && (call.RevokeFind? || call.RefreshFind? ==> s'.writes == s.writes)
      && (call.Ended? ==> s' == s)
      && forall k :: 0 <= k < |s.calls| && k != e.call ==> s'.calls[k] == s.calls[k]
  {
    hide After;
  }

  /** A refresh that finds a valid token goes on to clear and create, one that finds an expired token to delete it. */
  lemma RefreshGoesOn(s: System, e: Event, token: Token)
    requires e.call < |s.calls| && s.calls[e.call] == RefreshFind(token)
    ensures var next := Step(s, e).calls[e.call]; var table := Table(s);
      && Step(s, e).writes == s.writes
      && next == (if token !in table then Ended
                  else if table[token].expiresAt < e.now then PurgeRow(token)
                  else IssueClear(table[token].userId, token))
  {
    hide After;
  }

  /** A revocation that finds the token is about to delete it. */
  lemma RevocationDeletes(s: System, e: Event, token: Token)
    requires e.call < |s.calls| && s.calls[e.call] == RevokeFind(token)
    ensures var next := Step(s, e).calls[e.call];
      if token in Table(s) then Deletes(next, Table(s)[token].userId, token) else next == Ended
  {}

  /** The window exists: two refreshes of one token that both find it before either clears are both accepted, and
      when their remaining calls go in step both new tokens live. */
  lemma TwoRefreshesLeaveTwo(user: UserId, token: Token, t1: Token, t2: Token, issued: int, now: int)
    requires token != t1 && token != t2 && t1 != t2 && issued <= now <= issued + WEEK
    ensures var s := System([RefreshFind(token), RefreshFind(token)], [Create(token, user, issued)]);
      var found := RunSystem(s, [Event(0, now, t1), Event(1, now, t2)]);
      var done := RunSystem(found, [Event(0, now, t1), Event(1, now, t2), Event(0, now, t1), Event(1, now, t2)]);
      && found.calls == [IssueClear(user, token), IssueClear(user, token)]
      && done.calls == [Ended, Ended]
      && Found(done, t1, now) == Accepted(user) && Found(done, t2, now) == Accepted(user)
      && !OneRow(Table(done), user)
  {
    hide After;
    var e0, e1 := Event(0, now, t1), Event(1, now, t2);
    var s := System([RefreshFind(token), RefreshFind(token)], [Create(token, user, issued)]);
    FirstRow(token, user, issued);
    var s1 := Step(s, e0);
    var found := Step(s1, e1);
    RunTwo(s, e0, e1);
    var s3, s4 := Step(found, e0), Step(Step(found, e0), e1);
    var s5 := Step(s4, e0);
    var done := Step(s5, e1);
    assert [e0, e1, e0, e1] == [e0, e1] + [e0, e1];
    RunSystemJoins(found, [e0, e1], [e0, e1]);
    RunTwo(found, e0, e1);
    RunTwo(s4, e0, e1);
    LastTwoRows(s4.writes, user, t1, t2, now);
    assert done.writes == s4.writes + [Create(t1, user, now)] + [Create(t2, user, now)];
  }

  lemma FirstRow(token: Token, user: UserId, at: int)
    ensures After([Create(token, user, at)]) == map[token := Row(user, at + WEEK)]
  {
    assert [Create(token, user, at)][..0] == [];
    assert After([]) == map[];
  }

  lemma LastTwoRows(writes: seq<Write>, user: UserId, t1: Token, t2: Token, now: int)
    ensures var all := writes + [Create(t1, user, now)] + [Create(t2, user, now)];
      After(all) == After(writes)[t1 := Row(user, now + WEEK)][t2 := Row(user, now + WEEK)]
  {
    var one := writes + [Create(t1, user, now)];
    assert one[..|writes|] == writes;
    assert (one + [Create(t2, user, now)])[..|one|] == one;
  }

  lemma {:induction false} RunSystemJoins(s: System, a: seq<Event>, b: seq<Event>)
    ensures RunSystem(s, a + b) == RunSystem(RunSystem(s, a), b)
    decreases |a|
  {
    if a == [] {
      assert a + b == b;
    } else {
      assert (a + b)[1..] == a[1..] + b;
      RunSystemJoins(Step(s, a[0]), a[1..], b);
    }
  }

  lemma RunTwo(s: System, e0: Event, e1: Event)
    ensures RunSystem(s, [e0, e1]) == Step(Step(s, e0), e1)
  {
    hide Step;
    assert [e0, e1][1..] == [e1] && [e1][1..] == [];
    assert RunSystem(Step(Step(s, e0), e1), []) == Step(Step(s, e0), e1);
    assert RunSystem(Step(s, e0), [e1]) == RunSystem(Step(Step(s, e0), e1), []);
  }

  /** Two logins of one user whose calls go in step leave two accepted tokens. */
  lemma InterleavedIssuesLeaveTwo(user: UserId, t1: Token, t2: Token, writes: seq<Write>, now: int)
    requires t1 != t2
    ensures var s := System([LoginClear(user), LoginClear(user)], writes);
      var done := RunSystem(s, [Event(0, now, t1), Event(1, now, t2), Event(0, now, t1), Event(1, now, t2)]);
      && Found(done, t1, now) == Accepted(user) && Found(done, t2, now) == Accepted(user)
      && !OneRow(Table(done), user)
  {
    hide After;
    var e0, e1 := Event(0, now, t1), Event(1, now, t2);
    var s := System([LoginClear(user), LoginClear(user)], writes);
    var s2 := Step(Step(s, e0), e1);
    assert [e0, e1, e0, e1] == [e0, e1] + [e0, e1];
    RunSystemJoins(s, [e0, e1], [e0, e1]);
    RunTwo(s, e0, e1);
    RunTwo(s2, e0, e1);
    LastTwoRows(s2.writes, user, t1, t2, now);
    assert Step(Step(s2, e0), e1).writes == s2.writes + [Create(t1, user, now)] + [Create(t2, user, now)];
  }

  // ------------------------------------------------------------------------------- the service

  class AuthService {
    var refreshTokens: Rows

    constructor ()
      ensures refreshTokens == Run([])
    {
      refreshTokens := map[];
    }

    method GenerateRefreshToken(userId: UserId, random: Token, now: int) returns (token: Token)
      modifies this
      ensures refreshTokens == Issue(old(refreshTokens), userId, random, now) && token == random
    {
      refreshTokens := map t | t in refreshTokens && refreshTokens[t].userId != userId :: refreshTokens[t];
      refreshTokens := refreshTokens[random := Row(userId, now + WEEK)];
      token := random;
    }

    method RefreshToken(refreshToken: Token, random: Token, now: int) returns (answer: Answer)
      modifies this
      ensures answer == Answers(old(refreshTokens), refreshToken, now)
      ensures refreshTokens == Refresh(old(refreshTokens), refreshToken, random, now)
    {
      if refreshToken !in refreshTokens { return Invalid; }
      var tokenRecord := refreshTokens[refreshToken];
      if tokenRecord.expiresAt < now {
        refreshTokens := refreshTokens - {refreshToken};
        return Expired;
      }
      var _ := GenerateRefreshToken(tokenRecord.userId, random, now);
      answer := Accepted(tokenRecord.userId);
    }

    method RevokeRefreshToken(refreshToken: Token) returns (found: bool)
      modifies this
      ensures found == (refreshToken in old(refreshTokens))
      ensures refreshTokens == Revoke(old(refreshTokens), refreshToken)
    {
      if refreshToken !in refreshTokens { return false; }
      refreshTokens := refreshTokens - {refreshToken};
      found := true;
    }

    method RevokeAllRefreshTokens(userId: UserId)
      modifies this
      ensures refreshTokens == RevokeAll(old(refreshTokens), userId)
    {
      refreshTokens := map t | t in refreshTokens && refreshTokens[t].userId != userId :: refreshTokens[t];
    }
  }
}
