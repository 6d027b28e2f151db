/** The in-memory connection index of the realtime gateway: two maps that mirror each other, a health map
    swept by a heartbeat, and the writes of a user's online flag.  A handler's synchronous part is one step;
    the database write it awaits is queued and lands in a later step of its own. */
module Realtime {
  import opened Text

  type UserId = string
  type SocketId = string

  const HEARTBEAT_TIMEOUT_MS := 60_000

  datatype Health = Health(lastPongMs: int, isAlive: bool)

  /** `pending[u]` holds the values still to be written to user u's flag, oldest first;
      `stored` is the flag column of the users table. */
  datatype State = State(
    userSockets: map<UserId, set<SocketId>>,
    socketUser: map<SocketId, UserId>,
    health: map<SocketId, Health>,
    pending: map<UserId, seq<bool>>,
    stored: map<UserId, bool>)

  function Start(stored: map<UserId, bool>): State {
    State(map[], map[], map[], map[], stored)
  }

  function Sockets(s: State, u: UserId): set<SocketId> {
    if u in s.userSockets then s.userSockets[u] else {}
  }

  function UserOf(s: State, sid: SocketId): UserId {
    if sid in s.socketUser then s.socketUser[sid] else ""
  }

  function Queue(s: State, u: UserId): seq<bool> {
    if u in s.pending then s.pending[u] else []
  }

  predicate Online(s: State, u: UserId) {
    |Sockets(s, u)| > 0
  }

  // ---------------------------------------------------------------- handlers as state functions

  function MarkAlive(s: State, sid: SocketId, now: int): State {
    if sid == "" then s else s.(health := s.health[sid := Health(now, true)])
  }

  function IssueWrite(s: State, u: UserId, online: bool): State {
    s.(pending := s.pending[u := Queue(s, u) + [online]])
  }

  function Register(s: State, sid: SocketId, u: UserId, now: int): State {
    if sid == "" || u == "" then s else
    var s1 := s.(socketUser := s.socketUser[sid := u],
                 userSockets := s.userSockets[u := Sockets(s, u) + {sid}]);
    IssueWrite(MarkAlive(s1, sid, now), u, true)
  }

  function Unregister(s: State, sid: SocketId): State {
    var u := UserOf(s, sid);
    if u == "" then s.(health := s.health - {sid}) else
    var left := Sockets(s, u) - {sid};
    var s1 := s.(socketUser := s.socketUser - {sid},
                 userSockets := if u !in s.userSockets then s.userSockets
                                else if left == {} then s.userSockets - {u}
                                else s.userSockets[u := left],
                 health := s.health - {sid});
    IssueWrite(s1, u, |Sockets(s1, u)| > 0)
  }

  function Pong(s: State, sid: SocketId, now: int): State {
    if sid == "" then s else
    var s1 := MarkAlive(s, sid, now);
    if UserOf(s1, sid) == "" then s1 else IssueWrite(s1, UserOf(s1, sid), true)
  }

  predicate Silent(s: State, sid: SocketId, now: int) {
    sid in s.health && now - s.health[sid].lastPongMs > HEARTBEAT_TIMEOUT_MS
  }

  function DropDead(s: State, sid: SocketId): State {
    Unregister(s.(health := s.health - {sid}), sid)
  }

  function Visit(s: State, sid: SocketId, now: int): State {
    if Silent(s, sid, now) then DropDead(s, sid) else s
  }

  /** One heartbeat tick that visits the health entries in the given order. */
  function Sweep(s: State, order: seq<SocketId>, now: int): State
    decreases |order|
  {
    if order == [] then s else
    Sweep(Visit(s, order[0], now), order[1..], now)
  }

  /** The k-th write pending for u reaches the database: it is applied when the user row exists
      and the update succeeds, and is dropped otherwise (both cases are caught in the source). */
  function Land(s: State, u: UserId, k: nat, succeeds: bool): State {
    var q := Queue(s, u);
    if k >= |q| then s else
    s.(pending := s.pending[u := q[..k] + q[k + 1..]],
       stored := if u in s.stored && succeeds then s.stored[u := q[k]] else s.stored)
  }

  // ---------------------------------------------------------------------------- runs

  datatype Step =
    | DoRegister(sid: SocketId, user: UserId)
    | DoUnregister(sid: SocketId)
    | DoPong(sid: SocketId)
    | DoSweep(order: seq<SocketId>)
    | DoLand(user: UserId, k: nat, succeeds: bool)

  datatype Event = Event(at: int, step: Step)

  function Apply(s: State, e: Event): State {
    match e.step
    case DoRegister(sid, u) => Register(s, sid, u, e.at)
    case DoUnregister(sid) => Unregister(s, sid)
    case DoPong(sid) => Pong(s, sid, e.at)
    case DoSweep(order) => Sweep(s, order, e.at)
    case DoLand(u, k, succeeds) => Land(s, u, k, succeeds)
  }

  function Run(s: State, events: seq<Event>): State
    decreases |events|
  {
    if events == [] then s else Run(Apply(s, events[0]), events[1..])
  }

  // ---------------------------------------------------------------------------- the index

  /** Every mapped socket sits in its user's set and has a health entry, and no set is empty. */
  ghost predicate Indexed(s: State) {
    && (forall sid :: sid in s.socketUser ==>
          s.socketUser[sid] != "" && sid in Sockets(s, s.socketUser[sid]) && sid in s.health)
    && (forall u :: u in s.userSockets ==> u != "" && s.userSockets[u] != {})
  }

  /** The two maps are exact inverses of each other. */
  ghost predicate Mirrored(s: State) {
    && Indexed(s)
    && (forall u, sid :: sid in Sockets(s, u) ==> UserOf(s, sid) == u)
  }

  lemma DropDeadIsUnregister(s: State, sid: SocketId)
    ensures DropDead(s, sid) == Unregister(s, sid)
  {
    assert s.health - {sid} - {sid} == s.health - {sid};
  }

  lemma UnregisterEffect(s: State, sid: SocketId)
    ensures var s' := Unregister(s, sid); var owner := UserOf(s, sid);
      && s'.health == s.health - {sid}
      && s'.socketUser == (if owner == "" then s.socketUser else s.socketUser - {sid})
      && (forall x :: UserOf(s', x) == if x == sid then "" else UserOf(s, x))
      && (forall u :: Sockets(s', u) == if u == owner && owner != "" then Sockets(s, u) - {sid} else Sockets(s, u))
  {}

  lemma UnregisterKeepsSetsFilled(s: State, sid: SocketId)
    requires forall u :: u in s.userSockets ==> u != "" && s.userSockets[u] != {}
    ensures var s' := Unregister(s, sid); forall u :: u in s'.userSockets ==> u != "" && s'.userSockets[u] != {}
  {}

  lemma RegisterEffect(s: State, sid: SocketId, user: UserId, now: int)
    requires sid != "" && user != ""
    ensures var s' := Register(s, sid, user, now);
      && (forall x :: UserOf(s', x) == if x == sid then user else UserOf(s, x))
      && (forall u :: Sockets(s', u) == if u == user then Sockets(s, u) + {sid} else Sockets(s, u))
  {}

  lemma UnregisterKeepsIndexed(s: State, sid: SocketId)
    requires Indexed(s)
    ensures Indexed(Unregister(s, sid))
    ensures Mirrored(s) ==> Mirrored(Unregister(s, sid))
  {
    hide Unregister;
    var s' := Unregister(s, sid);
    UnregisterEffect(s, sid);
    UnregisterKeepsSetsFilled(s, sid);
    forall x | x in s'.socketUser
      ensures s'.socketUser[x] != "" && x in Sockets(s', s'.socketUser[x]) && x in s'.health
    {
      assert UserOf(s', x) == s'.socketUser[x];
    }
  }

  lemma {:induction false} SweepKeepsIndexed(s: State, order: seq<SocketId>, now: int)
    requires Indexed(s)
    ensures Indexed(Sweep(s, order, now))
    ensures Mirrored(s) ==> Mirrored(Sweep(s, order, now))
    decreases |order|
  {
    if order == [] {
    } else {
      DropDeadIsUnregister(s, order[0]);
      UnregisterKeepsIndexed(s, order[0]);
      SweepKeepsIndexed(Visit(s, order[0], now), order[1..], now);
    }
  }

  /** Registering keeps the maps exact inverses if and only if the socket is not already mapped
      to another user: a re-registered socket stays behind in its first user's set. */
  lemma RegisterMirrorsIff(s: State, sid: SocketId, u: UserId, now: int)
    requires Mirrored(s) && sid != "" && u != ""
    ensures Mirrored(Register(s, sid, u, now)) <==> UserOf(s, sid) in {"", u}
  {
    var s1 := Register(s, sid, u, now);
    RegisterEffect(s, sid, u, now);
    if UserOf(s, sid) !in {"", u} {
      assert sid in Sockets(s1, UserOf(s, sid)) && UserOf(s1, sid) == u;
    } else {
      assert Indexed(s1) by {
        assert forall x :: x in s1.socketUser ==> UserOf(s1, x) == s1.socketUser[x];
        assert forall v :: v in s1.userSockets ==> Sockets(s1, v) == s1.userSockets[v];
      }
      assert Mirrored(s1);
    }
  }

  /** A step respects ownership when it registers no socket that belongs to somebody else. */
  predicate KeepsOwner(s: State, e: Event) {
    e.step.DoRegister? ==> UserOf(s, e.step.sid) in {"", e.step.user}
  }

  predicate AllKeepOwner(s: State, events: seq<Event>)
    decreases |events|
  {
    events != [] ==> KeepsOwner(s, events[0]) && AllKeepOwner(Apply(s, events[0]), events[1..])
  }

  lemma RegisterKeepsIndexed(s: State, sid: SocketId, u: UserId, now: int)
    requires Indexed(s)
    ensures Indexed(Register(s, sid, u, now))
  {
    if sid != "" && u != "" { RegisterEffect(s, sid, u, now); }
  }

  lemma SameMapsKeepIndexed(s: State, s': State)
    requires Indexed(s) && s'.socketUser == s.socketUser && s'.userSockets == s.userSockets
    requires s.health.Keys <= s'.health.Keys
    ensures Indexed(s')
    ensures Mirrored(s) ==> Mirrored(s')
  {
    assert forall u :: Sockets(s', u) == Sockets(s, u);
    assert forall x :: UserOf(s', x) == UserOf(s, x);
  }

  lemma ApplyKeepsIndexed(s: State, e: Event)
    requires Indexed(s)
    ensures Indexed(Apply(s, e))
    ensures Mirrored(s) && KeepsOwner(s, e) ==> Mirrored(Apply(s, e))
  {
    match e.step
    case DoRegister(sid, u) =>
      RegisterKeepsIndexed(s, sid, u, e.at);
      if Mirrored(s) && sid != "" && u != "" { RegisterMirrorsIff(s, sid, u, e.at); }
    case DoUnregister(sid) => UnregisterKeepsIndexed(s, sid);
    case DoPong(sid) => SameMapsKeepIndexed(s, Pong(s, sid, e.at));
    case DoSweep(order) => SweepKeepsIndexed(s, order, e.at);
    case DoLand(u, k, succeeds) => SameMapsKeepIndexed(s, Land(s, u, k, succeeds));
  }

  /** The weak index invariant holds in every reachable state; the exact inverse holds in every
      state reached while sockets keep their user. */
  lemma {:induction false} RunKeepsIndex(s: State, events: seq<Event>)
    requires Indexed(s)
    ensures Indexed(Run(s, events))
    ensures Mirrored(s) && AllKeepOwner(s, events) ==> Mirrored(Run(s, events))
    decreases |events|
  {
    if events == [] {
    } else {
      ApplyKeepsIndexed(s, events[0]);
      RunKeepsIndex(Apply(s, events[0]), events[1..]);
    }
  }

  // ---------------------------------------------------------------------------- the sweep

  ghost predicate Enumerates(order: seq<SocketId>, keys: set<SocketId>) {
    forall sid :: sid in order <==> sid in keys
  }

  ghost function Dead(s: State, order: seq<SocketId>, now: int): set<SocketId> {
    set sid | sid in order && Silent(s, sid, now)
  }

  /** `after` is `before` without the given sockets. */
  ghost predicate Without(before: State, after: State, gone: set<SocketId>) {
    && after.health == before.health - gone
    && (forall x :: UserOf(after, x) == if x in gone then "" else UserOf(before, x))
    && (forall u, x :: x in Sockets(after, u) <==> x in Sockets(before, u) && !(x in gone && UserOf(before, x) == u))
  }

  lemma WithoutTwice(s: State, s1: State, s2: State, gone1: set<SocketId>, gone2: set<SocketId>)
    requires Without(s, s1, gone1) && Without(s1, s2, gone2) && gone1 !! gone2
    ensures Without(s, s2, gone1 + gone2)
  {
    assert s.health - gone1 - gone2 == s.health - (gone1 + gone2);
  }

  lemma VisitRemoves(s: State, sid: SocketId, now: int)
    requires Indexed(s)
    ensures Indexed(Visit(s, sid, now))
    ensures Without(s, Visit(s, sid, now), if Silent(s, sid, now) then {sid} else {})
  {
    hide DropDead, Unregister, UserOf;
    assert s.health - {} == s.health;
    DropDeadIsUnregister(s, sid);
    UnregisterKeepsIndexed(s, sid);
    UnregisterEffect(s, sid);
  }

  lemma DeadSplits(s: State, s1: State, order: seq<SocketId>, now: int)
    requires order != []
    requires s1.health == s.health - (if Silent(s, order[0], now) then {order[0]} else {})
    ensures Dead(s, order, now) == (if Silent(s, order[0], now) then {order[0]} else {}) + Dead(s1, order[1..], now)
    ensures order[0] !in Dead(s1, order[1..], now)
  {
    assert order == [order[0]] + order[1..];
  }

  lemma {:induction false} SweepRemovesDead(s: State, order: seq<SocketId>, now: int)
    requires Indexed(s)
    ensures Without(s, Sweep(s, order, now), Dead(s, order, now))
    decreases |order|
  {
    if order == [] {
      assert Dead(s, order, now) == {};
    } else {
      var s1 := Visit(s, order[0], now);
      VisitRemoves(s, order[0], now);
      SweepRemovesDead(s1, order[1..], now);
      DeadSplits(s, s1, order, now);
      WithoutTwice(s, s1, Sweep(s1, order[1..], now),
                   if Silent(s, order[0], now) then {order[0]} else {}, Dead(s1, order[1..], now));
    }
  }

  /** A tick removes exactly the silent sockets, whatever the visiting order: from the health map,
      from the forward map, and from the set of the user each of them was mapped to. */
  lemma SweepRemovesExactlyTheSilent(s: State, order: seq<SocketId>, now: int)
    requires Indexed(s) && Enumerates(order, s.health.Keys)
    ensures var s' := Sweep(s, order, now);
      && (forall sid :: sid in s'.health <==> sid in s.health && !Silent(s, sid, now))
      && (forall sid :: UserOf(s', sid) == if Silent(s, sid, now) then "" else UserOf(s, sid))
      && (forall u, sid :: sid in Sockets(s', u) <==>
            sid in Sockets(s, u) && !(Silent(s, sid, now) && UserOf(s, sid) == u))
      && (forall sid :: sid in s'.health ==> s'.health[sid] == s.health[sid])
  {
    SweepRemovesDead(s, order, now);
    assert forall sid :: sid in Dead(s, order, now) <==> Silent(s, sid, now);
  }

  // ------------------------------------------------------------------------ bounded silence

  /** Event times never decrease, and no event happens later than one interval after the last
      tick: ticks are never missed. */
  ghost predicate Clocked(s: State, events: seq<Event>, lastTick: int, clock: int)
    decreases |events|
  {
    events != [] ==>
      var e := events[0];
      && clock <= e.at <= lastTick + 30_000
      && (e.step.DoSweep? ==> Enumerates(e.step.order, s.health.Keys))
      && Clocked(Apply(s, e), events[1..], if e.step.DoSweep? then e.at else lastTick, e.at)
  }

  function LastTick(events: seq<Event>, lastTick: int): int
    decreases |events|
  {
    if events == [] then lastTick
    else LastTick(events[1..], if events[0].step.DoSweep? then events[0].at else lastTick)
  }

  ghost predicate HeardSince(s: State, lastTick: int) {
    forall sid :: sid in s.health ==> lastTick - s.health[sid].lastPongMs <= HEARTBEAT_TIMEOUT_MS
  }

  lemma StepKeepsHeard(s: State, e: Event, lastTick: int)
    requires Indexed(s) && HeardSince(s, lastTick) && lastTick <= e.at
    requires e.step.DoSweep? ==> Enumerates(e.step.order, s.health.Keys)
    ensures HeardSince(Apply(s, e), if e.step.DoSweep? then e.at else lastTick)
  {
    hide Sweep, Indexed, Enumerates, Sockets;
    if e.step.DoSweep? {
      SweepRemovesExactlyTheSilent(s, e.step.order, e.at);
    }
  }

  lemma {:induction false} RunKeepsHeard(s: State, events: seq<Event>, lastTick: int, clock: int)
    requires Indexed(s) && HeardSince(s, lastTick) && lastTick <= clock
    requires Clocked(s, events, lastTick, clock)
    ensures HeardSince(Run(s, events), LastTick(events, lastTick))
    decreases |events|
  {
    if events == [] {
    } else {
      hide Apply, Indexed, HeardSince, Enumerates;
      var e := events[0];
      ApplyKeepsIndexed(s, e);
      StepKeepsHeard(s, e, lastTick);
      RunKeepsHeard(Apply(s, e), events[1..], if e.step.DoSweep? then e.at else lastTick, e.at);
    }
  }

  /** With a tick every interval, no registered socket has ever been silent for longer than the
      timeout plus one interval, at any moment before the next tick is due. */
  lemma NoLongSilence(stored: map<UserId, bool>, events: seq<Event>, start: int, moment: int, sid: SocketId)
    requires Clocked(Start(stored), events, start, start)
    requires moment <= LastTick(events, start) + 30_000
    requires sid in Run(Start(stored), events).socketUser
    ensures sid in Run(Start(stored), events).health
    ensures moment - Run(Start(stored), events).health[sid].lastPongMs <= 90_000
  {
    RunKeepsIndex(Start(stored), events);
    RunKeepsHeard(Start(stored), events, start, start);
  }

  // ------------------------------------------------------------------- who answers stays mapped

  /** The socket is mapped, and it has been heard at this time or later. */
  predicate HeardAt(s: State, sid: SocketId, since: int) {
    sid in s.socketUser && sid in s.health && s.health[sid].lastPongMs >= since
  }

  /** Times do not decrease and stay within the timeout of the first moment; nobody unregisters the socket. */
  predicate Undisturbed(events: seq<Event>, sid: SocketId, since: int) {
    && (forall i :: 0 <= i < |events| ==> since <= events[i].at <= since + 60_000)
    && (forall i :: 0 <= i < |events| ==> events[i].step != DoUnregister(sid))
  }

  lemma {:induction false} SweepKeepsHeard(s: State, order: seq<SocketId>, now: int, sid: SocketId, since: int)
    requires Indexed(s) && HeardAt(s, sid, since) && now <= since + 60_000
    ensures HeardAt(Sweep(s, order, now), sid, since)
    decreases |order|
  {
    if order == [] {
    } else {
      DropDeadIsUnregister(s, order[0]);
      UnregisterEffect(s, order[0]);
      UnregisterKeepsIndexed(s, order[0]);
      hide Indexed, Unregister, DropDead;
      SweepKeepsHeard(Visit(s, order[0], now), order[1..], now, sid, since);
    }
  }

  lemma StepKeepsHeardAt(s: State, e: Event, sid: SocketId, since: int)
    requires Indexed(s) && HeardAt(s, sid, since)
    requires since <= e.at <= since + 60_000 && e.step != DoUnregister(sid)
    ensures HeardAt(Apply(s, e), sid, since)
  {
    hide Sweep, Indexed;
    match e.step
    case DoUnregister(x) => UnregisterEffect(s, x);
    case DoSweep(order) => SweepKeepsHeard(s, order, e.at, sid, since);
    case _ =>
  }

  lemma {:induction false} RunKeepsHeardAt(s: State, events: seq<Event>, sid: SocketId, since: int)
    requires Indexed(s) && HeardAt(s, sid, since) && Undisturbed(events, sid, since)
    ensures HeardAt(Run(s, events), sid, since)
    decreases |events|
  {
    if events == [] {
    } else {
      ApplyKeepsIndexed(s, events[0]);
      StepKeepsHeardAt(s, events[0], sid, since);
      hide Apply, Indexed, HeardAt;
      RunKeepsHeardAt(Apply(s, events[0]), events[1..], sid, since);
    }
  }

  /** A socket that registers, or that is mapped and pongs, stays mapped for the whole timeout and is not taken for
      silent, whatever else happens and whatever is swept, unless it is unregistered. */
  lemma WhoAnswersStaysMapped(s: State, e: Event, later: seq<Event>, sid: SocketId)
    requires Indexed(s) && sid != "" && Undisturbed(later, sid, e.at)
    requires (exists u :: u != "" && e.step == DoRegister(sid, u)) || (e.step == DoPong(sid) && sid in s.socketUser)
    ensures HeardAt(Run(Apply(s, e), later), sid, e.at)
  {
    ApplyKeepsIndexed(s, e);
    hide Indexed;
    RunKeepsHeardAt(Apply(s, e), later, sid, e.at);
  }

  /** A pong writes the online flag of the socket's user, and nobody else's; of an unmapped socket it writes none. */
  lemma PongWritesOnline(s: State, sid: SocketId, now: int, u: UserId)
    requires sid != ""
    ensures Queue(Pong(s, sid, now), u) == if u != "" && UserOf(s, sid) == u then Queue(s, u) + [true] else Queue(s, u)
    ensures sid in Pong(s, sid, now).health && Pong(s, sid, now).health[sid] == Health(now, true)
  {}

  // ------------------------------------------------------------------------ the online flag

  /** The writes of user u land oldest first and none of them fails. */
  predicate InOrder(events: seq<Event>, u: UserId) {
    forall i :: 0 <= i < |events| && events[i].step.DoLand? && events[i].step.user == u ==>
      events[i].step.k == 0 && events[i].step.succeeds
  }

  function Last(q: seq<bool>): Option<bool> {
    if q == [] then None else Some(q[|q| - 1])
  }

  function Or(o: Option<bool>, otherwise: bool): bool {
    if o.Some? then o.value else otherwise
  }

  /** A handler, not the database, added a write for u in this step: the value it added last. */
  function Issued(s: State, e: Event, u: UserId): Option<bool> {
    if e.step.DoLand? || Queue(Apply(s, e), u) == Queue(s, u) then None else Last(Queue(Apply(s, e), u))
  }

  /** A write of u reached the users table in this step. */
  function Landed(s: State, e: Event, u: UserId): Option<bool> {
    if e.step.DoLand? && e.step.user == u && e.step.succeeds && e.step.k < |Queue(s, u)| then
      Some(Queue(s, u)[e.step.k])
    else None
  }

  function LastIssued(s: State, events: seq<Event>, u: UserId): Option<bool>
    decreases |events|
  {
    if events == [] then None
    else
      var later := LastIssued(Apply(s, events[0]), events[1..], u);
      if later.Some? then later else Issued(s, events[0], u)
  }

  function LastLanded(s: State, events: seq<Event>, u: UserId): Option<bool>
    decreases |events|
  {
    if events == [] then None
    else
      var later := LastLanded(Apply(s, events[0]), events[1..], u);
      if later.Some? then later else Landed(s, events[0], u)
  }

  /** A write is only ever appended, and its value is the flag's right value in the new state; a
      user with no new write keeps its online status. */
  ghost predicate WritesTruth(s: State, s': State, u: UserId) {
    && s'.stored == s.stored
    && Queue(s, u) <= Queue(s', u)
    && (Queue(s', u) == Queue(s, u) ==> Online(s', u) == Online(s, u))
    && (Queue(s', u) != Queue(s, u) ==> Queue(s', u)[|Queue(s', u)| - 1] == Online(s', u))
  }

  lemma UnregisterWritesTruth(s: State, sid: SocketId, u: UserId)
    requires Indexed(s)
    ensures WritesTruth(s, Unregister(s, sid), u)
  {}

  lemma {:induction false} SweepWritesTruth(s: State, order: seq<SocketId>, now: int, u: UserId)
    requires Indexed(s)
    ensures WritesTruth(s, Sweep(s, order, now), u)
    decreases |order|
  {
    if order == [] {
    } else {
      DropDeadIsUnregister(s, order[0]);
      UnregisterKeepsIndexed(s, order[0]);
      UnregisterWritesTruth(s, order[0], u);
      SweepWritesTruth(Visit(s, order[0], now), order[1..], now, u);
    }
  }

  lemma RegisterWritesTruth(s: State, sid: SocketId, user: UserId, now: int, u: UserId)
    ensures WritesTruth(s, Register(s, sid, user, now), u)
  {
    if sid != "" && user != "" {
      RegisterEffect(s, sid, user, now);
      assert sid in Sockets(Register(s, sid, user, now), user);
    }
  }

  lemma PongWritesTruth(s: State, sid: SocketId, now: int, u: UserId)
    requires Indexed(s)
    ensures WritesTruth(s, Pong(s, sid, now), u)
  {
    if sid in s.socketUser { assert sid in Sockets(s, s.socketUser[sid]); }
  }

  lemma HandlerWritesTruth(s: State, e: Event, u: UserId)
    requires Indexed(s) && !e.step.DoLand?
    ensures WritesTruth(s, Apply(s, e), u)
  {
    hide Register, Unregister, Pong, Sweep, WritesTruth;
    match e.step
    case DoRegister(sid, v) => RegisterWritesTruth(s, sid, v, e.at, u);
    case DoUnregister(sid) => UnregisterWritesTruth(s, sid, u);
    case DoPong(sid) => PongWritesTruth(s, sid, e.at, u);
    case DoSweep(order) => SweepWritesTruth(s, order, e.at, u);
  }

  /** What one step does to the flag, the status and the queue of u. */
  ghost predicate Tracks(s: State, e: Event, u: UserId) {
    var s' := Apply(s, e);
    && u in s.stored && u in s'.stored
    && s'.stored[u] == Or(Landed(s, e, u), s.stored[u])
    && Online(s', u) == Or(Issued(s, e, u), Online(s, u))
    && (Issued(s, e, u).Some? ==> Last(Queue(s', u)) == Issued(s, e, u))
    && (!e.step.DoLand? && Issued(s, e, u).None? ==> Queue(s', u) == Queue(s, u))
  }

  lemma LandTracks(s: State, e: Event, u: UserId)
    requires u in s.stored && e.step.DoLand?
    ensures Tracks(s, e, u)
  {
    assert Sockets(Apply(s, e), u) == Sockets(s, u);
  }

  lemma StepTracks(s: State, e: Event, u: UserId)
    requires Indexed(s) && u in s.stored
    ensures Tracks(s, e, u)
  {
    hide Register, Unregister, Pong, Sweep, Online, Indexed, Land;
    if e.step.DoLand? {
      LandTracks(s, e, u);
    } else {
      HandlerWritesTruth(s, e, u);
    }
  }

  lemma {:induction false} FlagAndStatus(s: State, events: seq<Event>, u: UserId)
    requires Indexed(s) && u in s.stored
    ensures u in Run(s, events).stored
    ensures Run(s, events).stored[u] == Or(LastLanded(s, events, u), s.stored[u])
    ensures Online(Run(s, events), u) == Or(LastIssued(s, events, u), Online(s, u))
    decreases |events|
  {
    if events == [] {
    } else {
      hide Apply, Online, Indexed, Issued, Landed;
      ApplyKeepsIndexed(s, events[0]);
      StepTracks(s, events[0], u);
      FlagAndStatus(Apply(s, events[0]), events[1..], u);
    }
  }

  /** For every interleaving of handlers, heartbeats and landing writes, in whatever order they land and whether
      they succeed or fail: the stored flag says whether u has a mapped socket if and only if the value that
      landed last is the value issued last.  Where none landed, the flag is what it was at the start; where none
      was issued, u has no socket. */
  lemma FlagIsTruthfulIff(stored: map<UserId, bool>, events: seq<Event>, u: UserId)
    requires u in stored
    ensures var s := Run(Start(stored), events);
      && u in s.stored
      && (s.stored[u] == Online(s, u) <==>
            Or(LastLanded(Start(stored), events, u), stored[u]) == Or(LastIssued(Start(stored), events, u), false))
  {
    FlagAndStatus(Start(stored), events, u);
  }

  /** The newest pending write stays the newest until it lands itself, unless a newer one is issued. */
  lemma NewestWaits(s: State, e: Event, u: UserId)
    requires Indexed(s) && u in s.stored
    requires e.step.DoLand? && e.step.user == u ==> e.step.k == 0 && e.step.succeeds
    ensures var s' := Apply(s, e);
      if Issued(s, e, u).Some? then Last(Queue(s', u)) == Issued(s, e, u)
      else Last(Queue(s, u)) == if Last(Queue(s', u)).Some? then Last(Queue(s', u)) else Landed(s, e, u)
  {
    hide Online, Indexed, Register, Unregister, Pong, Sweep;
    StepTracks(s, e, u);
  }

  /** Writes that all land in order end with the last one issued. */
  lemma {:induction false} InOrderLandsLast(s: State, events: seq<Event>, u: UserId)
    requires Indexed(s) && u in s.stored && InOrder(events, u) && Queue(Run(s, events), u) == []
    ensures LastLanded(s, events, u)
      == if LastIssued(s, events, u).Some? then LastIssued(s, events, u) else Last(Queue(s, u))
    decreases |events|
  {
    if events == [] {
    } else {
      hide Apply, Indexed, Issued, Landed, Queue, Tracks;
      var e := events[0];
      ApplyKeepsIndexed(s, e);
      StaysStored(s, e, u);
      NewestWaits(s, e, u);
      assert InOrder(events[1..], u);
      InOrderLandsLast(Apply(s, e), events[1..], u);
    }
  }

  lemma StaysStored(s: State, e: Event, u: UserId)
    requires Indexed(s) && u in s.stored
    ensures u in Apply(s, e).stored
  {
    hide Apply, Indexed;
    StepTracks(s, e, u);
  }

  /** So when the writes for u land in issue order and none fails, then once nothing is pending for u the stored
      flag is right if and only if it started out false or some handler of this process wrote it. */
  lemma SettledFlagIsTruthful(stored: map<UserId, bool>, events: seq<Event>, u: UserId)
    requires u in stored && InOrder(events, u)
    requires Queue(Run(Start(stored), events), u) == []
    ensures var s := Run(Start(stored), events);
      && u in s.stored
      && (s.stored[u] == Online(s, u) <==> !stored[u] || LastIssued(Start(stored), events, u).Some?)
  {
    hide Run, LastLanded, LastIssued, Online;
    InOrderLandsLast(Start(stored), events, u);
    FlagIsTruthfulIff(stored, events, u);
  }

  /** Order matters: when the two writes of a connect and a disconnect swap, the flag stays true
      for a user with no socket. */
  lemma SwappedWritesLeaveStaleFlag(u: UserId, sid: SocketId)
    requires u != "" && sid != ""
    ensures var s := Run(Start(map[u := false]), [
        Event(0, DoRegister(sid, u)), Event(1, DoUnregister(sid)),
        Event(2, DoLand(u, 1, true)), Event(3, DoLand(u, 0, true))]);
      Queue(s, u) == [] && s.stored == map[u := true] && !Online(s, u)
  {
    var s0 := Start(map[u := false]);
    RunFour(s0, Event(0, DoRegister(sid, u)), Event(1, DoUnregister(sid)),
            Event(2, DoLand(u, 1, true)), Event(3, DoLand(u, 0, true)));
    var s2 := Unregister(Register(s0, sid, u, 0), sid);
    RegisterEffect(s0, sid, u, 0);
    UnregisterEffect(Register(s0, sid, u, 0), sid);
    assert Queue(s2, u) == [true, false] && Sockets(s2, u) == {};
    assert Queue(Land(s2, u, 1, true), u) == [true];
  }

  lemma RunCons(s: State, e: Event, rest: seq<Event>)
    ensures Run(s, [e] + rest) == Run(Apply(s, e), rest)
  {
    assert ([e] + rest)[1..] == rest;
  }

  lemma RunFour(s: State, e0: Event, e1: Event, e2: Event, e3: Event)
    ensures Run(s, [e0, e1, e2, e3]) == Apply(Apply(Apply(Apply(s, e0), e1), e2), e3)
  {
    hide Apply;
    var s1, s2, s3 := Apply(s, e0), Apply(Apply(s, e0), e1), Apply(Apply(Apply(s, e0), e1), e2);
    assert [e0, e1, e2, e3] == [e0] + [e1, e2, e3];
    assert [e1, e2, e3] == [e1] + [e2, e3];
    assert [e2, e3] == [e2] + [e3];
    assert [e3] == [e3] + [];
    RunCons(s, e0, [e1, e2, e3]);
    RunCons(s1, e1, [e2, e3]);
    RunCons(s2, e2, [e3]);
    RunCons(s3, e3, []);
  }

  /** The socket sits in the user's set, but is mapped to nobody. */
  predicate Leaked(s: State, sid: SocketId, u: UserId) {
    sid !in s.socketUser && sid in Sockets(s, u)
  }

  predicate Registers(e: Event, sid: SocketId) {
    match e.step
    case DoRegister(x, _) => x == sid
    case _ => false
  }

  predicate NeverRegisters(events: seq<Event>, sid: SocketId) {
    forall i :: 0 <= i < |events| ==> !Registers(events[i], sid)
  }

  lemma UnregisterKeepsLeak(s: State, x: SocketId, sid: SocketId, u: UserId)
    requires Leaked(s, sid, u)
    ensures Leaked(Unregister(s, x), sid, u)
  {
    hide Unregister;
    UnregisterEffect(s, x);
  }

  lemma {:induction false} SweepKeepsLeak(s: State, order: seq<SocketId>, now: int, sid: SocketId, u: UserId)
    requires Leaked(s, sid, u)
    ensures Leaked(Sweep(s, order, now), sid, u)
    decreases |order|
  {
    if order == [] {
    } else {
      DropDeadIsUnregister(s, order[0]);
      UnregisterKeepsLeak(s, order[0], sid, u);
      SweepKeepsLeak(Visit(s, order[0], now), order[1..], now, sid, u);
    }
  }

  lemma StepKeepsLeak(s: State, e: Event, sid: SocketId, u: UserId)
    requires Leaked(s, sid, u) && !Registers(e, sid)
    ensures Leaked(Apply(s, e), sid, u)
  {
    hide Unregister, Sweep;
    match e.step
    case DoUnregister(x) => UnregisterKeepsLeak(s, x, sid, u);
    case DoSweep(order) => SweepKeepsLeak(s, order, e.at, sid, u);
    case _ =>
  }

  lemma {:induction false} RunKeepsLeak(s: State, events: seq<Event>, sid: SocketId, u: UserId)
    requires Leaked(s, sid, u) && NeverRegisters(events, sid)
    ensures Leaked(Run(s, events), sid, u)
    decreases |events|
  {
    if events == [] {
    } else {
      StepKeepsLeak(s, events[0], sid, u);
      hide Apply, Leaked;
      RunKeepsLeak(Apply(s, events[0]), events[1..], sid, u);
    }
  }

  /** A socket that registers again under another user and then goes leaves the first user online for ever:
      whatever registers, unregisters, pongs and ticks follow, as long as the socket id does not come back. */
  lemma ReregisteredSocketLeaks(s: State, sid: SocketId, u: UserId, v: UserId, now: int, later: seq<Event>)
    requires sid != "" && u != "" && v != "" && u != v && NeverRegisters(later, sid)
    ensures var s' := Unregister(Register(Register(s, sid, u, now), sid, v, now), sid);
      && Leaked(s', sid, u) && sid !in s'.health
      && Leaked(Run(s', later), sid, u) && Online(Run(s', later), u)
  {
    var s' := Unregister(Register(Register(s, sid, u, now), sid, v, now), sid);
    RunKeepsLeak(s', later, sid, u);
    hide Run, Register, Unregister;
    assert Sockets(Run(s', later), u) != {};
  }

  // ---------------------------------------------------------------------------- the service

  /** The service object.  Its maps are updated in place; `pendingWrites` and `storedOnline` stand
      for the updates it has awaited and the users table they go to. */
  class RealtimeService {
    var userIdToSockets: map<UserId, set<SocketId>>
    var socketIdToUserId: map<SocketId, UserId>
    var connectionHealth: map<SocketId, Health>
    var pendingWrites: map<UserId, seq<bool>>
    var storedOnline: map<UserId, bool>

    ghost function View(): State
      reads this
    {
      State(userIdToSockets, socketIdToUserId, connectionHealth, pendingWrites, storedOnline)
    }

    constructor (stored: map<UserId, bool>)
      ensures View() == Start(stored)
    {
      userIdToSockets, socketIdToUserId, connectionHealth := map[], map[], map[];
      pendingWrites, storedOnline := map[], stored;
    }

    method AwaitUpdate(userId: UserId, online: bool)
      modifies this`pendingWrites
      ensures View() == IssueWrite(old(View()), userId, online)
    {
      var earlier := if userId in pendingWrites then pendingWrites[userId] else [];
      pendingWrites := pendingWrites[userId := earlier + [online]];
    }

    method Touch(socketId: SocketId, now: int)
      modifies this`connectionHealth
      ensures View() == MarkAlive(old(View()), socketId, now)
    {
      if socketId != "" {
        connectionHealth := connectionHealth[socketId := Health(now, true)];
      }
    }

    method RegisterConnection(socketId: SocketId, userId: UserId, now: int)
      modifies this
      ensures View() == Register(old(View()), socketId, userId, now)
    {
      if socketId == "" || userId == "" { return; }
      socketIdToUserId := socketIdToUserId[socketId := userId];
      var sockets := if userId in userIdToSockets then userIdToSockets[userId] else {};
      sockets := sockets + {socketId};
      userIdToSockets := userIdToSockets[userId := sockets];
      Touch(socketId, now);
      AwaitUpdate(userId, true);
    }

    method UnregisterConnection(socketId: SocketId)
      modifies this
      ensures View() == Unregister(old(View()), socketId)
    {
      var userId := if socketId in socketIdToUserId then socketIdToUserId[socketId] else "";
      if userId == "" {
        connectionHealth := connectionHealth - {socketId};
        return;
      }
      socketIdToUserId := socketIdToUserId - {socketId};
      if userId in userIdToSockets {
        var sockets := userIdToSockets[userId] - {socketId};
        if sockets == {} {
          userIdToSockets := userIdToSockets - {userId};
        } else {
          userIdToSockets := userIdToSockets[userId := sockets];
        }
      }
      connectionHealth := connectionHealth - {socketId};
      var remaining := if userId in userIdToSockets then |userIdToSockets[userId]| else 0;
      AwaitUpdate(userId, remaining > 0);
    }

    method HandlePong(socketId: SocketId, now: int)
      modifies this
      ensures View() == Pong(old(View()), socketId, now)
    {
      if socketId == "" { return; }
      Touch(socketId, now);
      if socketId in socketIdToUserId && socketIdToUserId[socketId] != "" {
        AwaitUpdate(socketIdToUserId[socketId], true);
      }
    }

    method HandleDeadConnection(socketId: SocketId)
      modifies this
      ensures View() == DropDead(old(View()), socketId)
    {
      connectionHealth := connectionHealth - {socketId};
      UnregisterConnection(socketId);
    }

    /** Visits every health entry once, in some order that it reports. */
    method CheckConnectionHealth(now: int) returns (ghost order: seq<SocketId>)
      modifies this
      ensures Enumerates(order, old(connectionHealth).Keys)
      ensures View() == Sweep(old(View()), order, now)
    {
      order := [];
      ghost var before := View();
      var unvisited := connectionHealth.Keys;
      while unvisited != {}
        invariant unvisited <= old(connectionHealth).Keys
        invariant forall sid :: sid in order <==> sid in old(connectionHealth).Keys - unvisited
        invariant View() == Sweep(before, order, now)
        decreases unvisited
      {
        var socketId :| socketId in unvisited;
        unvisited := unvisited - {socketId};
        SweepSnoc(before, order, socketId, now);
        order := order + [socketId];
        if socketId in connectionHealth && now - connectionHealth[socketId].lastPongMs > HEARTBEAT_TIMEOUT_MS {
          HandleDeadConnection(socketId);
        }
      }
    }

    method LandWrite(userId: UserId, k: nat, succeeds: bool)
      modifies this
      ensures View() == Land(old(View()), userId, k, succeeds)
    {
      var queue := if userId in pendingWrites then pendingWrites[userId] else [];
      if k >= |queue| { return; }
      pendingWrites := pendingWrites[userId := queue[..k] + queue[k + 1..]];
      if userId in storedOnline && succeeds {
        storedOnline := storedOnline[userId := queue[k]];
      }
    }

    method IsUserOnline(userId: UserId) returns (online: bool)
      ensures online == Online(View(), userId)
    {
      var size := if userId in userIdToSockets then |userIdToSockets[userId]| else 0;
      online := size > 0;
    }
  }

  lemma {:induction false} SweepSnoc(s: State, order: seq<SocketId>, sid: SocketId, now: int)
    ensures var s1 := Sweep(s, order, now);
      Sweep(s, order + [sid], now) == Visit(s1, sid, now)
    decreases |order|
  {
    if order == [] {
      assert ([] + [sid])[1..] == [];
    } else {
      assert (order + [sid])[1..] == order[1..] + [sid];
      SweepSnoc(Visit(s, order[0], now), order[1..], sid, now);
    }
  }
}
