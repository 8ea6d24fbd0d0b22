/** internal/lsp/manager.go: the single-flight pool of language-server sessions.

    ClientSession calls and Close calls run as an unbounded number of threads.  A step is one
    critical section, one channel operation, one outcome of a spawn, or the death of a daemon.
    Attempts remember the call that made them, sessions the call that spawned them, and the pool
    the Close call that closed it; the program has these only implicitly, as who runs what. */
module Manager {
  import opened Text
  import Runs
  import Model

  // "<repo>|<language>"
  type Key = string

  function KeyFor(repo: string, language: string): Key { repo + "|" + language }

  lemma {:induction false} NoBar(s: string, options: seq<string>)
    requires Model.OneOf(s, options) && forall i | 0 <= i < |options| :: '|' !in options[i]
    ensures '|' !in s
  {
    if s != options[0] {
      NoBar(s, options[1..]);
    }
  }

  // The key determines the repository and the language, bars in repository names or not.
  lemma KeyExactly(repo: string, language: string, otherRepo: string, other: string)
    requires Model.OneOf(language, Model.LANGUAGES) && Model.OneOf(other, Model.LANGUAGES)
    ensures KeyFor(repo, language) == KeyFor(otherRepo, other) <==> repo == otherRepo && language == other
  {
    NoBar(language, Model.LANGUAGES);
    NoBar(other, Model.LANGUAGES);
    if KeyFor(repo, language) == KeyFor(otherRepo, other) {
      LastCutUnique(repo, language, otherRepo, other, '|');
    }
  }
  type CallId = nat
  type AttemptId = nat
  type SessionId = nat

  datatype Error = ErrClosed | ErrCancelled | ErrSpawn | ErrDaemonExited

  datatype Session = Session(key: Key, spawner: CallId, alive: bool, shut: bool)

  // spawnAttempt; filled says the client and err fields have been assigned.
  datatype Attempt = Attempt(
    key: Key, owner: CallId, filled: bool, client: Option<SessionId>, err: Option<Error>, done: bool)

  /* ---- the mutex-protected fields and the three critical sections ---- */

  datatype Pool = Pool(clients: map<Key, SessionId>, pending: map<Key, AttemptId>, closed: bool)

  datatype Decision = Refuse | Reuse(session: SessionId) | Join(attempt: AttemptId) | Own

  // The top of ClientSession's loop.  newId is the attempt registered when nobody spawns yet.
  function EnterLocked(p: Pool, key: Key, alive: set<SessionId>, newId: AttemptId): (Pool, Decision) {
    if p.closed then (p, Refuse)
    else if key in p.clients && p.clients[key] in alive then (p, Reuse(p.clients[key]))
    else
      var q := p.(clients := p.clients - {key});
      if key in q.pending then (q, Join(q.pending[key]))
      else (q.(pending := q.pending[key := newId]), Own)
  }

  datatype Published = Published(pool: Pool, client: Option<SessionId>, err: Option<Error>, orphan: Option<SessionId>)

  // After spawn: a session that arrives in a closed pool becomes an orphan.
  function PublishLocked(p: Pool, key: Key, client: Option<SessionId>, err: Option<Error>): Published {
    var q := p.(pending := p.pending - {key});
    if err.Some? || client.None? then Published(q, client, err, None)
    else if p.closed then Published(q, None, Some(ErrClosed), client)
    else Published(q.(clients := q.clients[key := client.value]), client, None, None)
  }

  function CloseLocked(p: Pool): (Pool, set<SessionId>) {
    if p.closed then (p, {}) else (Pool(map[], p.pending, true), p.clients.Values)
  }

  // No key is both served and being spawned, and a closed pool serves nothing.
  ghost predicate PoolValid(p: Pool) { p.clients.Keys !! p.pending.Keys && (p.closed ==> p.clients == map[]) }

  // What a caller may rely on after the top of the loop: only a closed pool refuses, a live session
  // is kept and a crashed one is not, an attempt is registered only where nobody serves or spawns.
  ghost predicate Entered(p: Pool, q: Pool, key: Key, alive: set<SessionId>, newId: AttemptId, d: Decision) {
    && q.closed == p.closed && q.clients - {key} == p.clients - {key}
    && (key in q.clients ==>
          key in p.clients && q.clients[key] == p.clients[key] && (q.clients[key] in alive || q.closed))
    && (key in p.clients && p.clients[key] in alive ==> key in q.clients)
    && (d.Refuse? <==> p.closed)
    && (d.Reuse? ==> key in q.clients && d.session == q.clients[key])
    && (d.Join? || d.Own? ==> key !in q.clients)
    && (d.Join? ==> key in p.pending && d.attempt == p.pending[key])
    && (d.Own? ==> key !in p.pending)
    && q.pending == if d.Own? then p.pending[key := newId] else p.pending
  }

  // The critical section does that, and nothing else does.
  lemma EnterExactly(p: Pool, q: Pool, key: Key, alive: set<SessionId>, newId: AttemptId, d: Decision)
    requires PoolValid(p)
    ensures (q, d) == EnterLocked(p, key, alive, newId) <==> Entered(p, q, key, alive, newId, d)
    ensures PoolValid(EnterLocked(p, key, alive, newId).0)
  {
    if key in p.clients && p.clients[key] !in alive {
      assert p.clients - {key} - {key} == p.clients - {key};
    }
    if Entered(p, q, key, alive, newId, d) {
      if key in q.clients {
        assert q.clients == (q.clients - {key})[key := q.clients[key]]
          == (p.clients - {key})[key := p.clients[key]] == p.clients;
      } else {
        assert q.clients == q.clients - {key};
      }
    }
  }

  // What a caller may rely on after publishing: the key is no longer being spawned, the outcome is
  // a session or an error, and a session that was spawned is held exactly once, by an open pool
  // or as an orphan of a closed one.
  ghost predicate Settled(p: Pool, key: Key, client0: Option<SessionId>, err0: Option<Error>, out: Published) {
    && out.pool.closed == p.closed && out.pool.pending == p.pending - {key}
    && out.pool.clients - {key} == p.clients - {key}
    && (out.client.Some? <==> out.err.None?)
    && (err0.Some? ==> out.err == err0 && out.orphan.None? && out.pool.clients == p.clients)
    && (client0.Some? ==>
          (out.orphan == client0) != (key in out.pool.clients && Some(out.pool.clients[key]) == client0))
    && (out.orphan.Some? ==> p.closed && out.orphan == client0 && out.err == Some(ErrClosed))
    && (out.orphan.None? && err0.None? ==> out.client == client0)
    && PoolValid(out.pool)
  }

  lemma PublishExactly(p: Pool, key: Key, client0: Option<SessionId>, err0: Option<Error>, out: Published)
    requires PoolValid(p) && key !in p.clients && (err0.None? <==> client0.Some?)
    ensures out == PublishLocked(p, key, client0, err0) <==> Settled(p, key, client0, err0, out)
  {
    assert p.clients - {key} == p.clients;
    if Settled(p, key, client0, err0, out) {
      if key in out.pool.clients {
        assert out.pool.clients == (out.pool.clients - {key})[key := out.pool.clients[key]];
      } else {
        assert out.pool.clients == out.pool.clients - {key};
      }
    }
  }

  lemma CloseExactly(p: Pool)
    requires PoolValid(p)
    ensures CloseLocked(p) == (Pool(map[], p.pending, true), p.clients.Values) && PoolValid(CloseLocked(p).0)
  {
    assert p.clients == map[] ==> p.clients.Values == {};
  }

  // The shared object and its critical sections as the program writes them.
  class Manager {
    var clients: map<Key, SessionId>
    var pending: map<Key, AttemptId>
    var closed: bool

    function Fields(): Pool
      reads this
    {
      Pool(clients, pending, closed)
    }

    ghost predicate Valid()
      reads this
    {
      PoolValid(Fields())
    }

    constructor ()
      ensures Valid() && Fields() == Pool(map[], map[], false)
    {
      clients, pending, closed := map[], map[], false;
    }

    method Enter(key: Key, alive: set<SessionId>, newId: AttemptId) returns (d: Decision)
      requires Valid()
      modifies this
      ensures Valid() && Entered(old(Fields()), Fields(), key, alive, newId, d)
    {
      if closed {
        return Refuse;
      }
      if key in clients {
        if clients[key] in alive {
          return Reuse(clients[key]);
        }
        clients := clients - {key};
      }
      if key in pending {
        return Join(pending[key]);
      }
      pending := pending[key := newId];
      return Own;
    }

    // Called by the owner of the attempt registered for key.
    method Publish(key: Key, client0: Option<SessionId>, err0: Option<Error>)
      returns (client: Option<SessionId>, err: Option<Error>, orphan: Option<SessionId>)
      requires Valid() && key in pending && (err0.None? <==> client0.Some?)
      modifies this
      ensures Valid() && Settled(old(Fields()), key, client0, err0, Published(Fields(), client, err, orphan))
    {
      client, err, orphan := client0, err0, None;
      pending := pending - {key};
      if err.Some? {
      } else if closed {
        orphan, client, err := client, None, Some(ErrClosed);
      } else {
        clients := clients[key := client.value];
      }
    }

    // Every session the pool served is handed to the caller, and the pool serves nothing any more.
    method Close() returns (first: bool, todo: set<SessionId>)
      requires Valid()
      modifies this
      ensures Valid() && closed && clients == map[] && pending == old(pending)
      ensures todo == old(clients).Values && first == !old(closed)
    {
      if closed {
        return false, {};
      }
      closed := true;
      todo := clients.Values;
      clients := map[];
      return true, todo;
    }
  }

  /* ---- threads ---- */

  datatype Pc =
    | Top                                       // before the lock at the loop head
    | Waiting(attempt: AttemptId)               // select on done and on the context
    | Woken(attempt: AttemptId)                 // done was closed, fields not read yet
    | Spawning(attempt: AttemptId)              // owner, daemon not started
    | Started(attempt: AttemptId, sid: SessionId)    // daemon runs, handshake pending
    | Failing(attempt: AttemptId, sid: SessionId)    // handshake failed, Shutdown next
    | Spawned(attempt: AttemptId, client: Option<SessionId>, err: Option<Error>)
    | Publishing(attempt: AttemptId, client: Option<SessionId>, err: Option<Error>, orphan: Option<SessionId>)
    | Finishing(attempt: AttemptId, client: Option<SessionId>, err: Option<Error>, orphan: Option<SessionId>)
    | Returned(client: Option<SessionId>, err: Option<Error>)

  datatype Call = Call(key: Key, tries: nat, pc: Pc)

  datatype Closer = CloseStart | CloseShutting(todo: set<SessionId>) | CloseReturned

  datatype State = State(
    pool: Pool, closedBy: CallId,
    attempts: map<AttemptId, Attempt>, sessions: map<SessionId, Session>,
    calls: map<CallId, Call>, closers: map<CallId, Closer>)

  const INIT := State(Pool(map[], map[], false), 0, map[], map[], map[], map[])

  const MAX_TRIES := 3

  /* ---- steps ---- */

  datatype Step =
    | NewCall(t: CallId, key: Key)
    | NewClose(t: CallId)
    | Die(sid: SessionId)
    | Enter(t: CallId, newId: AttemptId)
    | Cancel(t: CallId)
    | Wake(t: CallId)
    | Inspect(t: CallId)
    | SpawnFail(t: CallId)
    | SpawnStart(t: CallId, sid: SessionId)
    | InitOk(t: CallId)
    | InitFail(t: CallId)
    | ShutFailed(t: CallId)
    | Publish(t: CallId)
    | CloseDone(t: CallId)
    | Finish(t: CallId)
    | CloseEnter(t: CallId)
    | CloseOne(t: CallId, sid: SessionId)
    | CloseFinish(t: CallId)

  predicate OfCall(step: Step) {
    !step.NewCall? && !step.NewClose? && !step.Die? && !step.CloseEnter? && !step.CloseOne? && !step.CloseFinish?
  }

  function Alive(s: State): set<SessionId> { set c | c in s.sessions && s.sessions[c].alive }

  function Goto(s: State, t: CallId, pc: Pc): State
    requires t in s.calls
  {
    s.(calls := s.calls[t := s.calls[t].(pc := pc)])
  }

  function Shut(s: State, c: SessionId): State {
    if c in s.sessions then s.(sessions := s.sessions[c := s.sessions[c].(shut := true)]) else s
  }

  function EnterStep(s: State, t: CallId, newId: AttemptId): State
    requires t in s.calls
  {
    var call := s.calls[t];
    var (pool, d) := EnterLocked(s.pool, call.key, Alive(s), newId);
    var s' := s.(pool := pool);
    match d
    case Refuse => Goto(s', t, Returned(None, Some(ErrClosed)))
    case Reuse(c) => Goto(s', t, Returned(Some(c), None))
    case Join(a) => Goto(s', t, Waiting(a))
    case Own =>
      Goto(s'.(attempts := s.attempts[newId := Attempt(call.key, t, false, None, None, false)]), t, Spawning(newId))
  }

  function InspectStep(s: State, t: CallId, a: Attempt): State
    requires t in s.calls
  {
    var call := s.calls[t];
    if a.err.Some? then Goto(s, t, Returned(None, a.err))
    else if a.client.Some? && a.client.value in Alive(s) then Goto(s, t, Returned(a.client, None))
    else if call.tries + 1 < MAX_TRIES then s.(calls := s.calls[t := Call(call.key, call.tries + 1, Top)])
    else Goto(s, t, Returned(None, Some(ErrDaemonExited)))
  }

  function PublishStep(s: State, t: CallId, a: AttemptId, client: Option<SessionId>, err: Option<Error>): State
    requires t in s.calls && a in s.attempts
  {
    var p := PublishLocked(s.pool, s.calls[t].key, client, err);
    Goto(s.(pool := p.pool,
            attempts := s.attempts[a := s.attempts[a].(filled := true, client := p.client, err := p.err)]),
         t, Publishing(a, p.client, p.err, p.orphan))
  }

  function CloseEnterStep(s: State, t: CallId): State {
    if s.pool.closed then s.(closers := s.closers[t := CloseReturned])
    else
      var (pool, todo) := CloseLocked(s.pool);
      s.(pool := pool, closedBy := t, closers := s.closers[t := CloseShutting(todo)])
  }

  // The state after a step, or None when the step is not enabled.
  function Apply(s: State, step: Step): Option<State> {
    match step
    case NewCall(t, key) =>
      if t in s.calls then None else Some(s.(calls := s.calls[t := Call(key, 0, Top)]))
    case NewClose(t) =>
      if t in s.closers then None else Some(s.(closers := s.closers[t := CloseStart]))
    case Die(c) =>
      if c in s.sessions then Some(s.(sessions := s.sessions[c := s.sessions[c].(alive := false)])) else None
    case CloseEnter(t) =>
      if t in s.closers && s.closers[t].CloseStart? then Some(CloseEnterStep(s, t)) else None
    case CloseOne(t, c) =>
      if t in s.closers && s.closers[t].CloseShutting? && c in s.closers[t].todo
      then Some(Shut(s, c).(closers := s.closers[t := CloseShutting(s.closers[t].todo - {c})])) else None
    case CloseFinish(t) =>
      if t in s.closers && s.closers[t] == CloseShutting({})
      then Some(s.(closers := s.closers[t := CloseReturned])) else None
    case _ => if step.t in s.calls then CallStep(s, step) else None
  }

  function CallStep(s: State, step: Step): Option<State>
    requires OfCall(step) && step.t in s.calls
  {
    var t, pc := step.t, s.calls[step.t].pc;
    match (step, pc)
    case (Enter(_, newId), Top) =>
      if newId in s.attempts then None else Some(EnterStep(s, t, newId))
    case (Cancel(_), Waiting(a)) => Some(Goto(s, t, Returned(None, Some(ErrCancelled))))
    case (Wake(_), Waiting(a)) =>
      if a in s.attempts && s.attempts[a].done then Some(Goto(s, t, Woken(a))) else None
    case (Inspect(_), Woken(a)) =>
      if a in s.attempts then Some(InspectStep(s, t, s.attempts[a])) else None
    case (SpawnFail(_), Spawning(a)) => Some(Goto(s, t, Spawned(a, None, Some(ErrSpawn))))
    case (SpawnStart(_, c), Spawning(a)) =>
      if c in s.sessions then None
      else Some(Goto(s.(sessions := s.sessions[c := Session(s.calls[t].key, t, true, false)]), t, Started(a, c)))
    case (InitOk(_), Started(a, c)) => Some(Goto(s, t, Spawned(a, Some(c), None)))
    case (InitFail(_), Started(a, c)) => Some(Goto(s, t, Failing(a, c)))
    case (ShutFailed(_), Failing(a, c)) => Some(Goto(Shut(s, c), t, Spawned(a, None, Some(ErrSpawn))))
    case (Publish(_), Spawned(a, client, err)) =>
      if a in s.attempts then Some(PublishStep(s, t, a, client, err)) else None
    case (CloseDone(_), Publishing(a, client, err, orphan)) =>
      if a in s.attempts && !s.attempts[a].done
      then Some(Goto(s.(attempts := s.attempts[a := s.attempts[a].(done := true)]), t,
        Finishing(a, client, err, orphan)))
      else None
    case (Finish(_), Finishing(a, client, err, orphan)) =>
      Some(if orphan.Some? then Goto(Shut(s, orphan.value), t, Finishing(a, client, err, None))
           else Goto(s, t, Returned(client, err)))
    case _ => None
  }

  /* ---- the invariant ---- */

  // The attempt a call has registered and not yet completed.
  function Owned(pc: Pc): Option<AttemptId> {
    match pc
    case Spawning(a) => Some(a)
    case Started(a, _) => Some(a)
    case Failing(a, _) => Some(a)
    case Spawned(a, _, _) => Some(a)
    case Publishing(a, _, _, _) => Some(a)
    case _ => None
  }

  // Before the critical section that publishes the outcome.
  predicate Unpublished(pc: Pc) { Owned(pc).Some? && !pc.Publishing? }

  // The session a spawning call holds.
  function Starting(pc: Pc): Option<SessionId> {
    match pc
    case Started(_, c) => Some(c)
    case Failing(_, c) => Some(c)
    case Spawned(_, client, _) => client
    case _ => None
  }

  // The session a call still has to shut down because the pool closed under it.
  function Orphan(pc: Pc): Option<SessionId> {
    match pc
    case Publishing(_, _, _, orphan) => orphan
    case Finishing(_, _, _, orphan) => orphan
    case _ => None
  }

  predicate OwnsAttempt(s: State, t: CallId, a: AttemptId) { t in s.calls && Owned(s.calls[t].pc) == Some(a) }

  ghost predicate CallOk(s: State, t: CallId)
    requires t in s.calls
  {
    var call := s.calls[t];
    && (Owned(call.pc).Some? ==>
          var a := Owned(call.pc).value;
          a in s.attempts && s.attempts[a].owner == t && s.attempts[a].key == call.key && !s.attempts[a].done
          && (s.attempts[a].filled <==> call.pc.Publishing?))
    && (Unpublished(call.pc) ==> call.key in s.pool.pending && s.pool.pending[call.key] == Owned(call.pc).value)
    && (call.pc.Publishing? || call.pc.Finishing? ==>
          call.pc.attempt in s.attempts && s.attempts[call.pc.attempt].filled
          && s.attempts[call.pc.attempt].key == call.key
          && s.attempts[call.pc.attempt].client == call.pc.client && s.attempts[call.pc.attempt].err == call.pc.err)
    && (call.pc.Finishing? ==> s.attempts[call.pc.attempt].done)
    && (call.pc.Waiting? || call.pc.Woken? ==>
          call.pc.attempt in s.attempts && s.attempts[call.pc.attempt].key == call.key)
    && (call.pc.Woken? ==> s.attempts[call.pc.attempt].done)
    && (call.pc.Spawned? || call.pc.Publishing? || call.pc.Finishing? || call.pc.Returned? ==>
          (call.pc.client.Some? <==> call.pc.err.None?))
    && (Starting(call.pc).Some? ==>
          var c := Starting(call.pc).value;
          c in s.sessions && s.sessions[c].spawner == t && s.sessions[c].key == call.key)
    && (Orphan(call.pc).Some? ==>
          var c := Orphan(call.pc).value;
          c in s.sessions && s.sessions[c].spawner == t && s.sessions[c].key == call.key
          && s.pool.closed && call.key !in s.pool.pending)
    && (call.pc.Returned? && call.pc.client.Some? ==>
          call.pc.client.value in s.sessions && s.sessions[call.pc.client.value].key == call.key)
    && call.tries < MAX_TRIES
  }

  ghost predicate AttemptOk(s: State, a: AttemptId)
    requires a in s.attempts
  {
    var at := s.attempts[a];
    && (!at.done ==> OwnsAttempt(s, at.owner, a))
    && (at.done ==> at.filled)
    && (at.filled ==> (at.client.Some? <==> at.err.None?))
    && (at.client.Some? ==> at.client.value in s.sessions && s.sessions[at.client.value].key == at.key)
  }

  // A registered attempt has an owner that has not published its outcome.
  ghost predicate PendingOk(s: State, k: Key)
    requires k in s.pool.pending
  {
    var a := s.pool.pending[k];
    a in s.attempts && s.attempts[a].key == k && OwnsAttempt(s, s.attempts[a].owner, a)
    && Unpublished(s.calls[s.attempts[a].owner].pc)
  }

  ghost predicate PoolOk(s: State) {
    && PoolValid(s.pool)
    && (forall k | k in s.pool.clients :: s.pool.clients[k] in s.sessions && s.sessions[s.pool.clients[k]].key == k)
    && (forall k | k in s.pool.pending :: PendingOk(s, k))
  }

  // A Close call still has to shut c down.
  predicate Detaching(s: State, c: SessionId) {
    s.pool.closed && s.closedBy in s.closers && s.closers[s.closedBy].CloseShutting? && c in s.closers[s.closedBy].todo
  }

  predicate InPool(s: State, c: SessionId)
    requires c in s.sessions
  {
    s.sessions[c].key in s.pool.clients && s.pool.clients[s.sessions[c].key] == c
  }

  predicate HeldByCall(s: State, c: SessionId)
    requires c in s.sessions
  {
    s.sessions[c].spawner in s.calls
    && (Starting(s.calls[s.sessions[c].spawner].pc) == Some(c) || Orphan(s.calls[s.sessions[c].spawner].pc) == Some(c))
  }

  // Somebody answers for the session: the pool, the call that spawned it, or the Close call.
  predicate Held(s: State, c: SessionId)
    requires c in s.sessions
  {
    InPool(s, c) || HeldByCall(s, c) || Detaching(s, c)
  }

  // Session-live: the read loop runs and nobody has called Shutdown.
  predicate Live(s: State, c: SessionId) { c in s.sessions && s.sessions[c].alive && !s.sessions[c].shut }

  ghost predicate SessionsOk(s: State) {
    && (forall c | Live(s, c) :: Held(s, c))
    && (forall c, d | c in s.sessions && d in s.sessions
                      && s.sessions[c].key == s.sessions[d].key && Held(s, c) && Held(s, d) ::
          c == d)
    && (forall c | c in s.sessions && Detaching(s, c) :: s.sessions[c].key !in s.pool.pending)
  }

  ghost predicate ClosersOk(s: State) {
    forall t | t in s.closers && s.closers[t].CloseShutting? ::
      s.pool.closed && s.closedBy == t && forall c | c in s.closers[t].todo :: c in s.sessions
  }

  ghost predicate CallsOk(s: State) { forall t | t in s.calls :: CallOk(s, t) }

  ghost predicate AttemptsOk(s: State) { forall a | a in s.attempts :: AttemptOk(s, a) }

  ghost predicate Inv(s: State) { CallsOk(s) && AttemptsOk(s) && PoolOk(s) && SessionsOk(s) && ClosersOk(s) }

  lemma InvInit()
    ensures Inv(INIT)
  {
  }

  /* ---- what a step leaves alone ---- */

  predicate AttemptEvolves(a: Attempt, b: Attempt) {
    b.key == a.key && b.owner == a.owner && (a.done ==> b.done)
    && (a.filled ==> b.filled && b.client == a.client && b.err == a.err)
  }

  predicate SessionEvolves(c: Session, d: Session) {
    d.key == c.key && d.spawner == c.spawner && (d.alive ==> c.alive) && (c.shut ==> d.shut)
  }

  // What no step ever undoes: names stay, outcomes stay, dead stays dead, closed stays closed.
  ghost predicate Evolves(s: State, s': State) {
    && (forall a | a in s.attempts :: a in s'.attempts && AttemptEvolves(s.attempts[a], s'.attempts[a]))
    && (forall c | c in s.sessions :: c in s'.sessions && SessionEvolves(s.sessions[c], s'.sessions[c]))
    && (s.pool.closed ==> s'.pool.closed)
  }

  // A call that did not move, and whose own attempt and pool entry were not touched.
  predicate Undisturbed(s: State, s': State, t: CallId) {
    && t in s.calls && t in s'.calls && s'.calls[t] == s.calls[t]
    && (Owned(s.calls[t].pc).Some? ==>
          var a := Owned(s.calls[t].pc).value;
          a in s.attempts ==> a in s'.attempts && s'.attempts[a] == s.attempts[a])
    && (Unpublished(s.calls[t].pc) && s.calls[t].key in s.pool.pending ==>
          s.calls[t].key in s'.pool.pending && s'.pool.pending[s.calls[t].key] == s.pool.pending[s.calls[t].key])
    && (Orphan(s.calls[t].pc).Some? && s.calls[t].key !in s.pool.pending ==> s.calls[t].key !in s'.pool.pending)
  }

  lemma CallsFrame(s: State, s': State)
    requires CallsOk(s) && Evolves(s, s')
    requires forall t | t in s'.calls :: CallOk(s', t) || Undisturbed(s, s', t)
    ensures CallsOk(s')
  {
    hide AttemptOk, PoolOk, SessionsOk, ClosersOk;
    forall t | t in s'.calls && Undisturbed(s, s', t) ensures CallOk(s', t) {
      assert CallOk(s, t);
    }
  }

  lemma AttemptsFrame(s: State, s': State)
    requires AttemptsOk(s) && Evolves(s, s')
    requires forall a | a in s'.attempts ::
               AttemptOk(s', a)
               || (a in s.attempts && s'.attempts[a] == s.attempts[a]
                   && (OwnsAttempt(s, s.attempts[a].owner, a) ==> OwnsAttempt(s', s.attempts[a].owner, a)))
    ensures AttemptsOk(s')
  {
    hide CallOk, PoolOk, SessionsOk, ClosersOk, OwnsAttempt;
    forall a | a in s'.attempts ensures AttemptOk(s', a) {
      assert a in s.attempts ==> AttemptOk(s, a);
    }
  }

  // No session gains a holder, and a session that loses its last one is not live.
  lemma SessionsFrame(s: State, s': State)
    requires SessionsOk(s) && Evolves(s, s') && s'.sessions.Keys == s.sessions.Keys
    requires forall c | c in s.sessions ::
               (Held(s', c) ==> Held(s, c)) && (Live(s', c) && Held(s, c) ==> Held(s', c))
    requires forall c | c in s.sessions && Detaching(s', c) ::
               s.sessions[c].key !in s'.pool.pending
    ensures SessionsOk(s')
  {
    hide AttemptOk, CallOk, PoolOk, ClosersOk, Held, Detaching;
    assert forall c :: Live(s', c) ==> Live(s, c);
  }

  /* ---- every step keeps the invariant ---- */

  // A call that moves on without taking over or dropping a duty; a session it lets go of is
  // no longer live.
  predicate SameDuties(s: State, before: Pc, after: Pc) {
    && Owned(after) == Owned(before) && Unpublished(after) == Unpublished(before)
    && (Starting(after) == Starting(before) || (Starting(after).None? && !Live(s, Starting(before).value)))
    && (Orphan(after) == Orphan(before)
        || (Orphan(after).None? && Orphan(before).Some? && !Live(s, Orphan(before).value)))
  }

  predicate NoDuties(pc: Pc) { Owned(pc).None? && Starting(pc).None? && Orphan(pc).None? }

  function WithCall(s: State, t: CallId, call: Call): State { s.(calls := s.calls[t := call]) }

  lemma LocalKeeps(s: State, t: CallId, call: Call)
    requires Inv(s)
    requires if t in s.calls then SameDuties(s, s.calls[t].pc, call.pc) else NoDuties(call.pc)
    requires CallOk(WithCall(s, t, call), t)
    ensures Inv(WithCall(s, t, call))
  {
    hide CallOk, AttemptOk, PoolOk, SessionsOk, ClosersOk;
    var s' := WithCall(s, t, call);
    CallsFrame(s, s');
    AttemptsFrame(s, s');
    LocalPool(s, t, call);
  }

  lemma LocalPool(s: State, t: CallId, call: Call)
    requires PoolOk(s) && SessionsOk(s) && ClosersOk(s)
    requires if t in s.calls then SameDuties(s, s.calls[t].pc, call.pc) else NoDuties(call.pc)
    ensures var s' := WithCall(s, t, call); PoolOk(s') && SessionsOk(s') && ClosersOk(s')
  {
    var s' := WithCall(s, t, call);
    forall c | c in s.sessions ensures Held(s', c) ==> Held(s, c)
                              ensures Live(s', c) && Held(s, c) ==> Held(s', c)
    {
      assert InPool(s', c) == InPool(s, c) && Detaching(s', c) == Detaching(s, c);
    }
    SessionsFrame(s, s');
  }

  // Only the liveness of one session goes down.
  lemma QuietenKeeps(s: State, c: SessionId, alive: bool, shut: bool)
    requires Inv(s) && c in s.sessions
    requires (alive ==> s.sessions[c].alive) && (s.sessions[c].shut ==> shut)
    ensures Inv(s.(sessions := s.sessions[c := s.sessions[c].(alive := alive, shut := shut)]))
  {
    hide CallOk, AttemptOk, SessionsOk;
    var s' := s.(sessions := s.sessions[c := s.sessions[c].(alive := alive, shut := shut)]);
    CallsFrame(s, s');
    AttemptsFrame(s, s');
    QuietenSessions(s, s', c);
  }

  lemma QuietenSessions(s: State, s': State, c: SessionId)
    requires SessionsOk(s) && c in s.sessions && Evolves(s, s')
    requires s' == s.(sessions := s.sessions[c := s'.sessions[c]])
    ensures SessionsOk(s')
  {
    hide CallOk, AttemptOk, PoolOk, ClosersOk;
    forall d | d in s.sessions ensures Held(s', d) == Held(s, d) && Detaching(s', d) == Detaching(s, d) {
      assert InPool(s', d) == InPool(s, d) && HeldByCall(s', d) == HeldByCall(s, d);
    }
    SessionsFrame(s, s');
  }

  // ClientSession drops the reference to a crashed daemon.
  lemma DropDeadKeeps(s: State, key: Key)
    requires Inv(s) && (key in s.pool.clients ==> s.pool.clients[key] !in Alive(s))
    ensures Inv(s.(pool := s.pool.(clients := s.pool.clients - {key})))
  {
    hide CallOk, AttemptOk;
    var s' := s.(pool := s.pool.(clients := s.pool.clients - {key}));
    CallsFrame(s, s');
    AttemptsFrame(s, s');
    forall d | d in s.sessions ensures Held(s', d) ==> Held(s, d)
                              ensures Live(s, d) && Held(s, d) ==> Held(s', d)
                              ensures Detaching(s', d) == Detaching(s, d)
    {
      assert HeldByCall(s', d) == HeldByCall(s, d);
    }
    SessionsFrame(s, s');
  }

  // Registering an attempt for a key nobody serves and nobody spawns.
  lemma RegisterKeeps(s: State, t: CallId, a: AttemptId)
    requires Inv(s) && t in s.calls && s.calls[t].pc.Top? && a !in s.attempts && !s.pool.closed
    requires s.calls[t].key !in s.pool.clients && s.calls[t].key !in s.pool.pending
    ensures var key := s.calls[t].key;
            Inv(Goto(s.(pool := s.pool.(pending := s.pool.pending[key := a]),
                        attempts := s.attempts[a := Attempt(key, t, false, None, None, false)]), t, Spawning(a)))
  {
    hide PoolOk, SessionsOk, ClosersOk, CallOk;
    var key := s.calls[t].key;
    var s' := Goto(s.(pool := s.pool.(pending := s.pool.pending[key := a]),
                      attempts := s.attempts[a := Attempt(key, t, false, None, None, false)]), t, Spawning(a));
    RegisterCalls(s, s', t, a);
    AttemptsFrame(s, s');
    RegisterPool(s, s', t, a);
    RegisterSessions(s, s', t, a);
  }

  lemma RegisterCalls(s: State, s': State, t: CallId, a: AttemptId)
    requires CallsOk(s) && t in s.calls && s.calls[t].pc.Top? && a !in s.attempts && !s.pool.closed
    requires s.calls[t].key !in s.pool.pending
    requires var key := s.calls[t].key;
             s' == Goto(s.(pool := s.pool.(pending := s.pool.pending[key := a]),
                           attempts := s.attempts[a := Attempt(key, t, false, None, None, false)]), t, Spawning(a))
    ensures CallsOk(s')
  {
    hide PoolOk, SessionsOk, ClosersOk, AttemptOk;
    forall u | u in s'.calls ensures CallOk(s', u) || Undisturbed(s, s', u) {
      assert CallOk(s, u);
    }
    CallsFrame(s, s');
  }

  lemma RegisterPool(s: State, s': State, t: CallId, a: AttemptId)
    requires Inv(s) && t in s.calls && s.calls[t].pc.Top? && a !in s.attempts && !s.pool.closed
    requires s.calls[t].key !in s.pool.clients && s.calls[t].key !in s.pool.pending
    requires var key := s.calls[t].key;
             s' == Goto(s.(pool := s.pool.(pending := s.pool.pending[key := a]),
                           attempts := s.attempts[a := Attempt(key, t, false, None, None, false)]), t, Spawning(a))
    ensures PoolOk(s') && ClosersOk(s')
  {
    hide CallOk, AttemptOk, SessionsOk;
  }

  lemma RegisterSessions(s: State, s': State, t: CallId, a: AttemptId)
    requires Inv(s) && t in s.calls && s.calls[t].pc.Top? && a !in s.attempts && !s.pool.closed
    requires var key := s.calls[t].key;
             s' == Goto(s.(pool := s.pool.(pending := s.pool.pending[key := a]),
                           attempts := s.attempts[a := Attempt(key, t, false, None, None, false)]), t, Spawning(a))
    ensures SessionsOk(s')
  {
    hide CallOk, AttemptOk, PoolOk, ClosersOk;
    forall c | c in s.sessions ensures Held(s', c) == Held(s, c) && !Detaching(s', c) {
      assert InPool(s', c) == InPool(s, c) && HeldByCall(s', c) == HeldByCall(s, c);
      assert Detaching(s', c) == Detaching(s, c);
    }
    SessionsFrame(s, s');
  }

  // Nobody serves the key: wait for the spawn in flight, or own one.
  lemma EnterColdKeeps(s: State, t: CallId, newId: AttemptId)
    requires Inv(s) && t in s.calls && s.calls[t].pc.Top? && newId !in s.attempts && !s.pool.closed
    requires s.calls[t].key !in s.pool.clients
    ensures Inv(EnterStep(s, t, newId))
  {
    hide AttemptOk, SessionsOk, ClosersOk;
    var call := s.calls[t];
    assert CallOk(s, t);
    assert s.pool.(clients := s.pool.clients - {call.key}) == s.pool;
    if call.key in s.pool.pending {
      LocalKeeps(s, t, call.(pc := Waiting(s.pool.pending[call.key])));
    } else {
      RegisterKeeps(s, t, newId);
    }
  }

  lemma EnterKeeps(s: State, t: CallId, newId: AttemptId)
    requires Inv(s) && t in s.calls && s.calls[t].pc.Top? && newId !in s.attempts
    ensures Inv(EnterStep(s, t, newId))
  {
    hide AttemptOk, SessionsOk, ClosersOk;
    var call := s.calls[t];
    assert CallOk(s, t);
    if s.pool.closed {
      LocalKeeps(s, t, call.(pc := Returned(None, Some(ErrClosed))));
    } else if call.key in s.pool.clients && s.pool.clients[call.key] in Alive(s) {
      LocalKeeps(s, t, call.(pc := Returned(Some(s.pool.clients[call.key]), None)));
    } else {
      DropDeadKeeps(s, call.key);
      var cold := s.pool.clients - {call.key};
      assert cold - {call.key} == cold;
      EnterColdKeeps(s.(pool := s.pool.(clients := cold)), t, newId);
    }
  }

  lemma InspectKeeps(s: State, t: CallId)
    requires Inv(s) && t in s.calls && s.calls[t].pc.Woken?
    ensures s.calls[t].pc.attempt in s.attempts && Inv(InspectStep(s, t, s.attempts[s.calls[t].pc.attempt]))
  {
    hide PoolOk, SessionsOk, ClosersOk;
    var call := s.calls[t];
    assert CallOk(s, t);
    var a := s.attempts[call.pc.attempt];
    assert AttemptOk(s, call.pc.attempt);
    if a.err.Some? {
      LocalKeeps(s, t, call.(pc := Returned(None, a.err)));
    } else if a.client.value in Alive(s) {
      LocalKeeps(s, t, call.(pc := Returned(a.client, None)));
    } else if call.tries + 1 < MAX_TRIES {
      LocalKeeps(s, t, Call(call.key, call.tries + 1, Top));
    } else {
      LocalKeeps(s, t, call.(pc := Returned(None, Some(ErrDaemonExited))));
    }
  }

  // While a call spawns for a key, no session of that key is held by anyone but that call.
  lemma HeldWhilePending(s: State, t: CallId, d: SessionId)
    requires CallsOk(s) && PoolOk(s) && SessionsOk(s) && t in s.calls && Unpublished(s.calls[t].pc)
    requires d in s.sessions && Held(s, d) && s.sessions[d].key == s.calls[t].key
    ensures Starting(s.calls[t].pc) == Some(d) && s.sessions[d].spawner == t
  {
    hide AttemptOk;
    assert CallOk(s, t);
    var key := s.calls[t].key;
    assert key in s.pool.pending && key !in s.pool.clients;
    assert !InPool(s, d) && !Detaching(s, d);
    var u := s.sessions[d].spawner;
    assert CallOk(s, u);
    assert Starting(s.calls[u].pc) == Some(d);
    assert s.pool.pending[key] == Owned(s.calls[u].pc).value == Owned(s.calls[t].pc).value;
  }

  // A daemon is started by the one call that spawns for its key.
  lemma SpawnStartKeeps(s: State, s': State, t: CallId, c: SessionId)
    requires Inv(s) && t in s.calls && s.calls[t].pc.Spawning? && c !in s.sessions
    requires s' == Goto(s.(sessions := s.sessions[c := Session(s.calls[t].key, t, true, false)]), t,
                        Started(s.calls[t].pc.attempt, c))
    ensures Inv(s')
  {
    hide PoolOk, SessionsOk, ClosersOk;
    forall u | u in s'.calls ensures CallOk(s', u) || Undisturbed(s, s', u) {
      assert CallOk(s, u);
    }
    CallsFrame(s, s');
    AttemptsFrame(s, s');
    SpawnStartPool(s, s', t, c);
    SpawnStartSessions(s, s', t, c);
  }

  lemma SpawnStartPool(s: State, s': State, t: CallId, c: SessionId)
    requires Inv(s) && t in s.calls && s.calls[t].pc.Spawning? && c !in s.sessions
    requires s' == Goto(s.(sessions := s.sessions[c := Session(s.calls[t].key, t, true, false)]), t,
                        Started(s.calls[t].pc.attempt, c))
    ensures PoolOk(s') && ClosersOk(s')
  {
    hide CallOk, AttemptOk, SessionsOk;
  }

  lemma SpawnStartSessions(s: State, s': State, t: CallId, c: SessionId)
    requires Inv(s) && t in s.calls && s.calls[t].pc.Spawning? && c !in s.sessions
    requires s' == Goto(s.(sessions := s.sessions[c := Session(s.calls[t].key, t, true, false)]), t,
                        Started(s.calls[t].pc.attempt, c))
    ensures SessionsOk(s')
  {
    hide AttemptOk, CallOk;
    forall d | d in s.sessions ensures Held(s', d) ==> Held(s, d) && s.sessions[d].key != s.calls[t].key
                              ensures Held(s, d) ==> Held(s', d)
                              ensures Detaching(s', d) ==> Detaching(s, d)
    {
      if Held(s, d) && s.sessions[d].key == s.calls[t].key {
        HeldWhilePending(s, t, d);
      }
      assert InPool(s', d) == InPool(s, d) && HeldByCall(s', d) == HeldByCall(s, d);
      assert Detaching(s', d) == Detaching(s, d);
    }
    assert forall d :: Live(s', d) ==> d == c || Live(s, d);
    assert HeldByCall(s', c);
    assert !Detaching(s', c);
  }

  lemma PublishKeeps(s: State, t: CallId)
    requires Inv(s) && t in s.calls && s.calls[t].pc.Spawned?
    ensures s.calls[t].pc.attempt in s.attempts
    ensures Inv(PublishStep(s, t, s.calls[t].pc.attempt, s.calls[t].pc.client, s.calls[t].pc.err))
  {
    hide PoolOk, SessionsOk, ClosersOk;
    var pc := s.calls[t].pc;
    assert CallOk(s, t);
    var s' := PublishStep(s, t, pc.attempt, pc.client, pc.err);
    forall u | u in s'.calls ensures CallOk(s', u) || Undisturbed(s, s', u) {
      assert CallOk(s, u);
      if u != t && Owned(s.calls[u].pc).Some? {
        assert s.attempts[Owned(s.calls[u].pc).value].owner == u;
      }
    }
    CallsFrame(s, s');
    AttemptsFrame(s, s');
    PublishPool(s, s', t);
    PublishSessions(s, s', t);
  }

  lemma SpawnedSession(s: State, t: CallId)
    requires CallsOk(s) && t in s.calls && s.calls[t].pc.Spawned?
    ensures s.calls[t].pc.client.Some? ==>
              s.calls[t].pc.client.value in s.sessions && s.sessions[s.calls[t].pc.client.value].key == s.calls[t].key
  {
    assert CallOk(s, t);
  }

  lemma PublishPool(s: State, s': State, t: CallId)
    requires Inv(s) && t in s.calls && s.calls[t].pc.Spawned? && s.calls[t].pc.attempt in s.attempts
    requires s' == PublishStep(s, t, s.calls[t].pc.attempt, s.calls[t].pc.client, s.calls[t].pc.err)
    ensures PoolOk(s') && ClosersOk(s')
  {
    hide AttemptOk, CallOk, SessionsOk;
    SpawnedSession(s, t);
    forall k | k in s'.pool.pending ensures PendingOk(s', k) {
      PublishPending(s, s', t, k);
    }
  }

  lemma PublishPending(s: State, s': State, t: CallId, k: Key)
    requires Inv(s) && t in s.calls && s.calls[t].pc.Spawned? && s.calls[t].pc.attempt in s.attempts
    requires s' == PublishStep(s, t, s.calls[t].pc.attempt, s.calls[t].pc.client, s.calls[t].pc.err)
    requires k in s'.pool.pending
    ensures PendingOk(s', k)
  {
    hide AttemptOk, SessionsOk, ClosersOk;
    assert PendingOk(s, k);
    var u := s.attempts[s.pool.pending[k]].owner;
    assert CallOk(s, u) && s.calls[u].key == k != s.calls[t].key;
  }

  lemma PublishSessions(s: State, s': State, t: CallId)
    requires Inv(s) && t in s.calls && s.calls[t].pc.Spawned? && s.calls[t].pc.attempt in s.attempts
    requires s' == PublishStep(s, t, s.calls[t].pc.attempt, s.calls[t].pc.client, s.calls[t].pc.err)
    ensures SessionsOk(s')
  {
    hide AttemptOk;
    assert CallOk(s, t);
    var key := s.calls[t].key;
    forall d | d in s.sessions ensures Held(s', d) == Held(s, d) {
      if s.sessions[d].key == key && Held(s, d) {
        HeldWhilePending(s, t, d);
      }
      PublishHolders(s, s', t, d);
    }
    SessionsFrame(s, s');
  }

  // Publishing moves the session from its spawner to the pool, or leaves it with its spawner.
  lemma PublishHolders(s: State, s': State, t: CallId, d: SessionId)
    requires CallsOk(s) && PoolOk(s) && t in s.calls && s.calls[t].pc.Spawned? && s.calls[t].pc.attempt in s.attempts
    requires s' == PublishStep(s, t, s.calls[t].pc.attempt, s.calls[t].pc.client, s.calls[t].pc.err)
    requires d in s.sessions
    requires s.sessions[d].key == s.calls[t].key && Held(s, d) ==>
               Starting(s.calls[t].pc) == Some(d) && s.sessions[d].spawner == t
    ensures Held(s', d) == Held(s, d)
  {
    hide AttemptOk;
    assert CallOk(s, t);
    assert Detaching(s', d) == Detaching(s, d);
    if s.sessions[d].spawner != t {
      assert HeldByCall(s', d) == HeldByCall(s, d);
    }
  }

  lemma CloseDoneKeeps(s: State, t: CallId)
    requires Inv(s) && t in s.calls && s.calls[t].pc.Publishing?
    ensures var pc := s.calls[t].pc;
            pc.attempt in s.attempts && !s.attempts[pc.attempt].done &&
            Inv(Goto(s.(attempts := s.attempts[pc.attempt := s.attempts[pc.attempt].(done := true)]), t,
                     Finishing(pc.attempt, pc.client, pc.err, pc.orphan)))
  {
    hide PoolOk, SessionsOk, ClosersOk;
    var pc := s.calls[t].pc;
    assert CallOk(s, t);
    assert AttemptOk(s, pc.attempt);
    var s' := Goto(s.(attempts := s.attempts[pc.attempt := s.attempts[pc.attempt].(done := true)]), t,
                   Finishing(pc.attempt, pc.client, pc.err, pc.orphan));
    forall u | u in s'.calls ensures CallOk(s', u) || Undisturbed(s, s', u) {
      assert CallOk(s, u);
    }
    CallsFrame(s, s');
    AttemptsFrame(s, s');
    CloseDonePool(s, s', t);
  }

  lemma CloseDonePool(s: State, s': State, t: CallId)
    requires PoolOk(s) && SessionsOk(s) && ClosersOk(s)
    requires t in s.calls && s.calls[t].pc.Publishing? && s.calls[t].pc.attempt in s.attempts
    requires var pc := s.calls[t].pc;
             s' == Goto(s.(attempts := s.attempts[pc.attempt := s.attempts[pc.attempt].(done := true)]), t,
                        Finishing(pc.attempt, pc.client, pc.err, pc.orphan))
    ensures PoolOk(s') && SessionsOk(s') && ClosersOk(s')
  {
    hide CallOk, AttemptOk;
    forall c | c in s.sessions ensures Held(s', c) == Held(s, c) && Detaching(s', c) == Detaching(s, c) {
      assert InPool(s', c) == InPool(s, c) && HeldByCall(s', c) == HeldByCall(s, c);
    }
    SessionsFrame(s, s');
  }

  lemma CloseEnterKeeps(s: State, t: CallId)
    requires Inv(s) && t in s.closers && s.closers[t].CloseStart?
    ensures Inv(CloseEnterStep(s, t))
  {
    hide CallOk, AttemptOk, PoolOk, SessionsOk, ClosersOk;
    var s' := CloseEnterStep(s, t);
    CallsFrame(s, s');
    AttemptsFrame(s, s');
    CloseEnterPool(s, t);
  }

  // Closing moves every session of the pool to the Close call.
  lemma CloseEnterPool(s: State, t: CallId)
    requires PoolOk(s) && SessionsOk(s) && ClosersOk(s) && t in s.closers && s.closers[t].CloseStart?
    ensures var s' := CloseEnterStep(s, t); PoolOk(s') && SessionsOk(s') && ClosersOk(s')
  {
    hide CallOk, AttemptOk, SessionsOk;
    CloseEnterSessions(s, t);
  }

  lemma CloseEnterSessions(s: State, t: CallId)
    requires PoolOk(s) && SessionsOk(s) && ClosersOk(s) && t in s.closers && s.closers[t].CloseStart?
    ensures SessionsOk(CloseEnterStep(s, t))
  {
    hide CallOk, AttemptOk, PendingOk;
    var s' := CloseEnterStep(s, t);
    forall c | c in s.sessions ensures Held(s', c) == Held(s, c) {
      assert HeldByCall(s', c) == HeldByCall(s, c);
      if !s.pool.closed {
        assert c in s.pool.clients.Values <==> InPool(s, c);
      }
    }
    SessionsFrame(s, s');
  }

  // Close moves on; a session it lets go of is no longer live.
  lemma CloserKeeps(s: State, t: CallId, closer: Closer)
    requires Inv(s)
    requires t in s.closers && s.closers[t].CloseShutting? ==>
               (closer == CloseReturned && s.closers[t].todo == {})
               || (closer.CloseShutting? && exists c :: !Live(s, c) && closer.todo == s.closers[t].todo - {c})
    requires !(t in s.closers && s.closers[t].CloseShutting?) ==> t !in s.closers && closer == CloseStart
    ensures Inv(s.(closers := s.closers[t := closer]))
  {
    hide CallOk, AttemptOk;
    var s' := s.(closers := s.closers[t := closer]);
    CallsFrame(s, s');
    AttemptsFrame(s, s');
    forall c | c in s.sessions ensures Held(s', c) ==> Held(s, c)
                              ensures Live(s, c) && Held(s, c) ==> Held(s', c)
                              ensures Detaching(s', c) ==> Detaching(s, c)
    {
      assert InPool(s', c) == InPool(s, c) && HeldByCall(s', c) == HeldByCall(s, c);
    }
    SessionsFrame(s, s');
  }

  lemma AwaitKeeps(s: State, step: Step)
    requires Inv(s) && Apply(s, step).Some? && (step.Cancel? || step.Wake?)
    ensures Inv(Apply(s, step).value)
  {
    hide AttemptOk, PoolOk, SessionsOk, ClosersOk;
    var call := s.calls[step.t];
    assert CallOk(s, step.t);
    match step {
      case Cancel(t) => LocalKeeps(s, t, call.(pc := Returned(None, Some(ErrCancelled))));
      case Wake(t) => LocalKeeps(s, t, call.(pc := Woken(call.pc.attempt)));
    }
  }

  lemma SpawnKeeps(s: State, step: Step)
    requires Inv(s) && Apply(s, step).Some? && (step.SpawnFail? || step.InitOk? || step.InitFail?)
    ensures Inv(Apply(s, step).value)
  {
    hide AttemptOk, PoolOk, SessionsOk, ClosersOk;
    var call := s.calls[step.t];
    assert CallOk(s, step.t);
    match step {
      case SpawnFail(t) => LocalKeeps(s, t, call.(pc := Spawned(call.pc.attempt, None, Some(ErrSpawn))));
      case InitOk(t) => LocalKeeps(s, t, call.(pc := Spawned(call.pc.attempt, Some(call.pc.sid), None)));
      case InitFail(t) => LocalKeeps(s, t, call.(pc := Failing(call.pc.attempt, call.pc.sid)));
    }
  }

  // A call that shuts a session down lets go of it.
  lemma ShutKeeps(s: State, t: CallId, c: SessionId, pc: Pc)
    requires Inv(s) && t in s.calls && c in s.sessions
    requires SameDuties(Shut(s, c), s.calls[t].pc, pc) && CallOk(WithCall(Shut(s, c), t, s.calls[t].(pc := pc)), t)
    ensures Inv(Goto(Shut(s, c), t, pc))
  {
    hide CallOk, AttemptOk, PoolOk, SessionsOk, ClosersOk, SameDuties;
    QuietenKeeps(s, c, s.sessions[c].alive, true);
    LocalKeeps(Shut(s, c), t, s.calls[t].(pc := pc));
  }

  lemma ShutFailedKeeps(s: State, t: CallId)
    requires Inv(s) && t in s.calls && s.calls[t].pc.Failing?
    ensures Inv(Goto(Shut(s, s.calls[t].pc.sid), t, Spawned(s.calls[t].pc.attempt, None, Some(ErrSpawn))))
  {
    hide AttemptOk, PoolOk, SessionsOk, ClosersOk;
    assert CallOk(s, t);
    ShutKeeps(s, t, s.calls[t].pc.sid, Spawned(s.calls[t].pc.attempt, None, Some(ErrSpawn)));
  }

  lemma FinishKeeps(s: State, t: CallId)
    requires Inv(s) && t in s.calls && s.calls[t].pc.Finishing?
    ensures Inv(Apply(s, Finish(t)).value)
  {
    hide PoolOk, SessionsOk, ClosersOk;
    assert CallOk(s, t);
    var pc := s.calls[t].pc;
    assert AttemptOk(s, pc.attempt);
    if pc.orphan.Some? {
      ShutKeeps(s, t, pc.orphan.value, Finishing(pc.attempt, pc.client, pc.err, None));
    } else {
      LocalKeeps(s, t, s.calls[t].(pc := Returned(pc.client, pc.err)));
    }
  }

  lemma CloseOneKeeps(s: State, t: CallId, c: SessionId)
    requires Inv(s) && t in s.closers && s.closers[t].CloseShutting? && c in s.closers[t].todo
    ensures Inv(Apply(s, CloseOne(t, c)).value)
  {
    hide CallOk, AttemptOk, PoolOk, SessionsOk;
    assert c in s.sessions;
    QuietenKeeps(s, c, s.sessions[c].alive, true);
    CloserKeeps(Shut(s, c), t, CloseShutting(s.closers[t].todo - {c}));
  }

  lemma InvStep(s: State, step: Step)
    requires Inv(s) && Apply(s, step).Some?
    ensures Inv(Apply(s, step).value)
  {
    hide AttemptOk, PoolOk, SessionsOk, ClosersOk;
    match step {
      case NewCall(t, key) => LocalKeeps(s, t, Call(key, 0, Top));
      case NewClose(t) => CloserKeeps(s, t, CloseStart);
      case Die(c) => QuietenKeeps(s, c, false, s.sessions[c].shut);
      case Enter(t, newId) => EnterKeeps(s, t, newId);
      case CloseEnter(t) => CloseEnterKeeps(s, t);
      case CloseOne(t, c) => CloseOneKeeps(s, t, c);
      case CloseFinish(t) => CloserKeeps(s, t, CloseReturned);
      case Inspect(t) => InspectKeeps(s, t);
      case SpawnStart(t, c) => SpawnStartKeeps(s, Apply(s, step).value, t, c);
      case ShutFailed(t) => ShutFailedKeeps(s, t);
      case Publish(t) => PublishKeeps(s, t);
      case CloseDone(t) => CloseDoneKeeps(s, t);
      case Finish(t) => FinishKeeps(s, t);
      case _ => if step.Cancel? || step.Wake? { AwaitKeeps(s, step); } else { SpawnKeeps(s, step); }
    }
  }

  // Outcomes, names, deaths and the closed flag are never undone.
  lemma StepEvolves(s: State, step: Step)
    requires Inv(s) && Apply(s, step).Some?
    ensures Evolves(s, Apply(s, step).value)
  {
    hide AttemptOk, PoolOk, SessionsOk, ClosersOk, CallOk, Evolves, CallStep, CloseEnterStep, Shut;
    if !OfCall(step) {
      OutsideEvolves(s, step);
    } else {
      assert Apply(s, step) == CallStep(s, step);
      if step.Publish? {
        PublishEvolves(s, step.t);
      } else {
        CallStepEvolves(s, step);
      }
    }
  }

  lemma OutsideEvolves(s: State, step: Step)
    requires !OfCall(step) && Apply(s, step).Some?
    ensures Evolves(s, Apply(s, step).value)
  {
    hide CallStep;
  }

  lemma PublishEvolves(s: State, t: CallId)
    requires CallsOk(s) && t in s.calls && CallStep(s, Publish(t)).Some?
    ensures Evolves(s, CallStep(s, Publish(t)).value)
  {
    assert CallOk(s, t);
  }

  lemma EnterEvolves(s: State, t: CallId, newId: AttemptId)
    requires t in s.calls && newId !in s.attempts
    ensures Evolves(s, EnterStep(s, t, newId))
  {
  }

  lemma CallStepEvolves(s: State, step: Step)
    requires OfCall(step) && !step.Publish? && step.t in s.calls && CallStep(s, step).Some?
    ensures Evolves(s, CallStep(s, step).value)
  {
    hide EnterStep, PublishStep, EnterLocked, PublishLocked;
    if step.Enter? {
      EnterEvolves(s, step.t, step.newId);
    }
  }

  /* ---- runs ---- */

  // The state after a run, or None when one of its steps is not enabled.
  function Exec(s: State, run: seq<Step>): Option<State> { Runs.Exec(Apply, s, run) }

  ghost predicate Reachable(s: State) { exists run :: Exec(INIT, run) == Some(s) }

  lemma {:induction false} RunKeeps(s: State, run: seq<Step>)
    requires Inv(s) && Exec(s, run).Some?
    ensures Inv(Exec(s, run).value) && Evolves(s, Exec(s, run).value)
    decreases |run|
  {
    hide Inv, Apply;
    if run != [] {
      InvStep(s, run[0]);
      StepEvolves(s, run[0]);
      RunKeeps(Apply(s, run[0]).value, run[1..]);
    }
  }

  lemma ReachableInv(s: State)
    requires Reachable(s)
    ensures Inv(s)
  {
    var run :| Exec(INIT, run) == Some(s);
    InvInit();
    RunKeeps(INIT, run);
  }

  /* ---- safety ---- */

  // No key is both served and pending, a closed pool serves nothing, and a registered attempt is
  // still open.
  lemma PoolShape(s: State)
    requires Reachable(s)
    ensures PoolValid(s.pool)
    ensures forall k | k in s.pool.pending :: s.pool.pending[k] in s.attempts && !s.attempts[s.pool.pending[k]].filled
  {
    hide AttemptOk, SessionsOk, ClosersOk;
    ReachableInv(s);
    forall k | k in s.pool.pending ensures s.pool.pending[k] in s.attempts && !s.attempts[s.pool.pending[k]].filled {
      assert PendingOk(s, k);
      assert CallOk(s, s.attempts[s.pool.pending[k]].owner);
    }
  }

  // At most one live session per (repository, language), under every interleaving.
  lemma AtMostOneLive(s: State, c: SessionId, d: SessionId)
    requires Reachable(s) && Live(s, c) && Live(s, d) && s.sessions[c].key == s.sessions[d].key
    ensures c == d
  {
    hide CallOk, AttemptOk, PoolOk, ClosersOk, Held;
    ReachableInv(s);
  }

  // At most one spawn in flight per key, and none while the pool serves the key.
  lemma SingleFlight(s: State, t: CallId, u: CallId)
    requires Reachable(s) && t in s.calls && u in s.calls
    requires Unpublished(s.calls[t].pc) && Unpublished(s.calls[u].pc) && s.calls[t].key == s.calls[u].key
    ensures t == u && s.calls[t].key !in s.pool.clients
    ensures s.calls[t].key in s.pool.pending && Owned(s.calls[t].pc) == Some(s.pool.pending[s.calls[t].key])
  {
    hide AttemptOk, SessionsOk, ClosersOk;
    ReachableInv(s);
    assert CallOk(s, t) && CallOk(s, u);
  }

  /** What can still be live once the pool is closed and no ClientSession call is in progress: only
      what the Close that closed the pool still has to shut down. */
  lemma LeftToClose(s: State, c: SessionId)
    requires Reachable(s) && s.pool.closed && forall t | t in s.calls :: s.calls[t].pc.Returned?
    ensures Live(s, c) ==> Detaching(s, c)
  {
    hide CallOk, AttemptOk;
    ReachableInv(s);
    if Live(s, c) {
      assert !InPool(s, c) && !HeldByCall(s, c);
    }
  }

  // No daemon leaks: after the Close that closed the pool has returned, with no ClientSession
  // call in progress, every session ever started is dead or has been shut down.
  lemma NoLeak(s: State)
    requires Reachable(s) && s.pool.closed
    requires s.closedBy in s.closers && s.closers[s.closedBy].CloseReturned?
    requires forall t | t in s.calls :: s.calls[t].pc.Returned?
    ensures forall c | c in s.sessions :: !s.sessions[c].alive || s.sessions[c].shut
  {
    forall c | c in s.sessions ensures !Live(s, c) {
      LeftToClose(s, c);
    }
  }

  /** The guarantee is that Close's own: in every closed pool a further Close returns at its first
      step, and whatever was live still is. */
  lemma FurtherCloseReturnsEarly(s: State, t: CallId)
    requires Reachable(s) && s.pool.closed && t in s.closers && s.closers[t].CloseStart?
    ensures Apply(s, CloseEnter(t)).Some?
    ensures var s' := Apply(s, CloseEnter(t)).value;
            && Reachable(s') && t in s'.closers && s'.closers[t].CloseReturned?
            && forall c :: Live(s', c) <==> Live(s, c)
  {
    hide CallStep, Reachable;
    var s' := Advance(s, CloseEnter(t));
  }

  // So a Close can have returned, with no call in progress, and a session be live.
  lemma SecondCloseReturnsEarly()
    ensures exists s :: Reachable(s) && s.pool.closed
                        && (forall t | t in s.calls :: s.calls[t].pc.Returned?)
                        && 1 in s.closers && s.closers[1].CloseReturned? && Live(s, 0)
  {
    var s := ServedSession();
    hide CallStep;
    s := Advance(s, NewClose(0));
    s := Advance(s, NewClose(1));
    s := Advance(s, CloseEnter(0));
    FurtherCloseReturnsEarly(s, 1);
    s := Advance(s, CloseEnter(1));
  }

  // The states of a run with one call, one attempt and one daemon.
  function Solo(clients: map<Key, SessionId>, pending: map<Key, AttemptId>, attempt: Attempt,
                sessions: map<SessionId, Session>, pc: Pc): State {
    State(Pool(clients, pending, false), 0, map[0 := attempt], sessions, map[0 := Call("r|go", 0, pc)], map[])
  }

  // A call owns the spawn for "r|go".
  lemma OwningCall() returns (s: State)
    ensures Reachable(s)
    ensures s == Solo(map[], map["r|go" := 0], Attempt("r|go", 0, false, None, None, false), map[], Spawning(0))
  {
    hide InspectStep, PublishStep, CloseEnterStep, Shut;
    assert Exec(INIT, []) == Some(INIT);
    s := Advance(INIT, NewCall(0, "r|go"));
    s := Advance(s, Enter(0, 0));
    assert s.calls == map[0 := Call("r|go", 0, Spawning(0))] && s.pool.clients == map[];
  }

  // It has started the daemon.
  lemma SpawningSession() returns (s: State)
    ensures Reachable(s)
    ensures s == Solo(map[], map["r|go" := 0], Attempt("r|go", 0, false, None, None, false),
                      map[0 := Session("r|go", 0, true, false)], Spawned(0, Some(0), None))
  {
    hide EnterStep, InspectStep, PublishStep, CloseEnterStep, Shut;
    s := OwningCall();
    s := Advance(s, SpawnStart(0, 0));
    s := Advance(s, InitOk(0));
    assert s.calls == map[0 := Call("r|go", 0, Spawned(0, Some(0), None))];
  }

  // It has published the session.
  lemma PublishedSession() returns (s: State)
    ensures Reachable(s)
    ensures s == Solo(map["r|go" := 0], map[], Attempt("r|go", 0, true, Some(0), None, false),
                      map[0 := Session("r|go", 0, true, false)], Publishing(0, Some(0), None, None))
  {
    hide EnterStep, InspectStep, CloseEnterStep, Shut;
    s := SpawningSession();
    s := Advance(s, Publish(0));
    assert s.calls == map[0 := Call("r|go", 0, Publishing(0, Some(0), None, None))] && s.pool.pending == map[];
  }

  // And it has returned it.
  lemma ServedSession() returns (s: State)
    ensures Reachable(s)
    ensures s == Solo(map["r|go" := 0], map[], Attempt("r|go", 0, true, Some(0), None, true),
                      map[0 := Session("r|go", 0, true, false)], Returned(Some(0), None))
  {
    hide EnterStep, InspectStep, PublishStep, CloseEnterStep, Shut;
    s := PublishedSession();
    s := Advance(s, CloseDone(0));
    s := Advance(s, Finish(0));
    assert s.calls == map[0 := Call("r|go", 0, Returned(Some(0), None))];
  }

  lemma Advance(s: State, step: Step) returns (s': State)
    requires Reachable(s) && Apply(s, step).Some?
    ensures Reachable(s') && s' == Apply(s, step).value
  {
    hide Apply;
    s' := Apply(s, step).value;
    var run :| Exec(INIT, run) == Some(s);
    Runs.ExecSnoc(Apply, INIT, run, s, step);
    assert Exec(INIT, run + [step]) == Some(s');
  }

  // Whoever gets a session gets one of the (repository, language) asked for, and gets either a
  // session or an error.
  lemma RightSession(s: State, t: CallId)
    requires Reachable(s) && t in s.calls && s.calls[t].pc.Returned?
    ensures var r := s.calls[t].pc;
            (r.client.Some? <==> r.err.None?)
            && (r.client.Some? ==> r.client.value in s.sessions && s.sessions[r.client.value].key == s.calls[t].key)
  {
    hide AttemptOk, PoolOk, SessionsOk, ClosersOk;
    ReachableInv(s);
    assert CallOk(s, t);
  }

  // A crashed daemon is replaced: the first call to meet it owns the new spawn.
  lemma CrashIsReplaced(s: State, t: CallId, newId: AttemptId)
    requires Reachable(s) && t in s.calls && s.calls[t].pc.Top? && newId !in s.attempts && !s.pool.closed
    requires s.calls[t].key in s.pool.clients && s.pool.clients[s.calls[t].key] !in Alive(s)
    ensures Apply(s, Enter(t, newId)).Some?
    ensures var s' := Apply(s, Enter(t, newId)).value;
            t in s'.calls && s'.calls[t].pc == Spawning(newId)
            && s'.pool == s.pool.(clients := s.pool.clients - {s.calls[t].key},
                                  pending := s.pool.pending[s.calls[t].key := newId])
  {
    hide CallOk, AttemptOk, SessionsOk, ClosersOk, Alive;
    ReachableInv(s);
  }

  // Any daemon may die at any time, and then that call is the one that spawns.
  lemma DeathThenSpawn(s: State, t: CallId, newId: AttemptId)
    requires Reachable(s) && t in s.calls && s.calls[t].pc.Top? && newId !in s.attempts && !s.pool.closed
    requires s.calls[t].key in s.pool.clients
    ensures var end := Exec(s, [Die(s.pool.clients[s.calls[t].key]), Enter(t, newId)]);
            end.Some? && t in end.value.calls && end.value.calls[t].pc == Spawning(newId)
  {
    hide EnterStep;
    var c := s.pool.clients[s.calls[t].key];
    var run := [Die(c), Enter(t, newId)];
    PoolServes(s, s.calls[t].key);
    var s1 := Advance(s, Die(c));
    CrashIsReplaced(s1, t, newId);
    assert run[1..] == [Enter(t, newId)] && run[1..][1..] == [];
    assert Exec(s1, run[1..]) == Exec(Apply(s1, Enter(t, newId)).value, []);
  }

  lemma PoolServes(s: State, k: Key)
    requires Reachable(s) && k in s.pool.clients
    ensures s.pool.clients[k] in s.sessions && s.sessions[s.pool.clients[k]].key == k
  {
    hide CallOk, AttemptOk, SessionsOk, ClosersOk;
    ReachableInv(s);
  }

  /* ---- what a call returns, and why ---- */

  // A finished attempt for the key has this outcome.
  ghost predicate FailedWith(s: State, key: Key, why: Error) {
    exists a :: a in s.attempts && s.attempts[a].key == key && s.attempts[a].done && s.attempts[a].err == Some(why)
  }

  // A finished attempt for the key was given a session that has died since.
  ghost predicate CameUpAndDied(s: State, key: Key) {
    exists a :: a in s.attempts && s.attempts[a].key == key && s.attempts[a].done
                && s.attempts[a].client.Some? && s.attempts[a].client.value in s.sessions
                && !s.sessions[s.attempts[a].client.value].alive
  }

  // A filled attempt for the key was given this session.
  ghost predicate CameUp(s: State, key: Key, c: SessionId) {
    exists a :: a in s.attempts && s.attempts[a].key == key && s.attempts[a].filled && s.attempts[a].client == Some(c)
  }

  // The call's spawn was given up: the daemon did not start, or was shut down after a failed handshake.
  predicate SpawnFailed(run: seq<Step>, t: CallId) {
    SpawnFail(t) in run || (InitFail(t) in run && ShutFailed(t) in run)
  }

  // What must have happened for a spawn to have this outcome.
  predicate SpawnReason(s: State, run: seq<Step>, t: CallId, client: Option<SessionId>, err: Option<Error>) {
    && (client.Some? ==> InitOk(t) in run)
    && (err.Some? ==> (err.value.ErrSpawn? && SpawnFailed(run, t)) || (err.value.ErrClosed? && s.pool.closed))
  }

  ghost predicate CallReason(s: State, run: seq<Step>, t: CallId)
    requires t in s.calls
  {
    var call := s.calls[t];
    NewCall(t, call.key) in run
    && match call.pc
       case Failing(_, _) => InitFail(t) in run
       case Spawned(_, client, err) => SpawnReason(s, run, t, client, err)
       case Publishing(_, client, err, _) => SpawnReason(s, run, t, client, err)
       case Finishing(_, client, err, _) => SpawnReason(s, run, t, client, err)
       case Returned(client, err) =>
         && (client.Some? ==> CameUp(s, call.key, client.value))
         && (err == Some(ErrClosed) ==> s.pool.closed)
         && (err == Some(ErrCancelled) ==> Cancel(t) in run)
         && (err == Some(ErrSpawn) ==> FailedWith(s, call.key, ErrSpawn))
         && (err == Some(ErrDaemonExited) ==> call.tries == 2 && CameUpAndDied(s, call.key))
       case _ => true
  }

  predicate AttemptReason(s: State, run: seq<Step>, a: AttemptId)
    requires a in s.attempts
  {
    s.attempts[a].filled ==> SpawnReason(s, run, s.attempts[a].owner, s.attempts[a].client, s.attempts[a].err)
  }

  ghost predicate CallReasons(s: State, run: seq<Step>) { forall t | t in s.calls :: CallReason(s, run, t) }

  ghost predicate PoolReasons(s: State, run: seq<Step>) {
    && (forall a | a in s.attempts :: AttemptReason(s, run, a))
    && (forall k | k in s.pool.clients :: CameUp(s, k, s.pool.clients[k]))
  }

  ghost predicate Reasons(s: State, run: seq<Step>) { CallReasons(s, run) && PoolReasons(s, run) }

  // Reasons are never undone.
  lemma ReasonsLast(s: State, s': State, key: Key, why: Error, c: SessionId)
    requires AttemptsOk(s) && Evolves(s, s')
    ensures FailedWith(s, key, why) ==> FailedWith(s', key, why)
    ensures CameUpAndDied(s, key) ==> CameUpAndDied(s', key)
    ensures CameUp(s, key, c) ==> CameUp(s', key, c)
  {
    hide CallOk;
    if FailedWith(s, key, why) {
      var a :| a in s.attempts && s.attempts[a].key == key && s.attempts[a].done && s.attempts[a].err == Some(why);
      assert AttemptOk(s, a) && a in s'.attempts;
    }
    if CameUpAndDied(s, key) {
      var a :| a in s.attempts && s.attempts[a].key == key && s.attempts[a].done
               && s.attempts[a].client.Some? && s.attempts[a].client.value in s.sessions
               && !s.sessions[s.attempts[a].client.value].alive;
      assert AttemptOk(s, a) && a in s'.attempts && s.attempts[a].client.value in s'.sessions;
    }
    if CameUp(s, key, c) {
      var a :| a in s.attempts && s.attempts[a].key == key && s.attempts[a].filled && s.attempts[a].client == Some(c);
      assert a in s'.attempts;
    }
  }

  // A call that does not move keeps its reason.
  lemma IdleReason(s: State, s': State, run: seq<Step>, step: Step, t: CallId)
    requires AttemptsOk(s) && Evolves(s, s') && t in s.calls && CallReason(s, run, t)
    requires t in s'.calls && s'.calls[t] == s.calls[t]
    ensures CallReason(s', run + [step], t)
  {
    hide AttemptOk, CallOk, Evolves, FailedWith, CameUpAndDied, CameUp;
    var pc, key := s.calls[t].pc, s.calls[t].key;
    Stays(run, step, t, key);
    ClosedStays(s, s');
    if pc.Returned? {
      ReasonsLast(s, s', key, ErrSpawn, if pc.client.Some? then pc.client.value else 0);
    }
  }

  lemma ClosedStays(s: State, s': State)
    requires Evolves(s, s')
    ensures s.pool.closed ==> s'.pool.closed
  {
  }

  lemma Stays(run: seq<Step>, step: Step, t: CallId, key: Key)
    ensures NewCall(t, key) in run ==> NewCall(t, key) in run + [step]
    ensures InitOk(t) in run ==> InitOk(t) in run + [step]
    ensures InitFail(t) in run ==> InitFail(t) in run + [step]
    ensures Cancel(t) in run ==> Cancel(t) in run + [step]
    ensures SpawnFailed(run, t) ==> SpawnFailed(run + [step], t)
  {
  }

  // A call that begins, or stops waiting.
  lemma ArrivingReason(s: State, s': State, run: seq<Step>, step: Step)
    requires CallReasons(s, run) && Apply(s, step) == Some(s') && (step.NewCall? || step.Cancel? || step.Wake?)
    ensures step.t in s'.calls && CallReason(s', run + [step], step.t)
  {
    hide FailedWith, CameUpAndDied, CameUp;
    var t, more := step.t, run + [step];
    assert step in more;
    if !step.NewCall? {
      assert CallReason(s, run, t);
      Stays(run, step, t, s.calls[t].key);
    }
  }

  lemma EnterReason(s: State, s': State, run: seq<Step>, t: CallId, newId: AttemptId)
    requires Reasons(s, run) && Apply(s, Enter(t, newId)) == Some(s') && AttemptsOk(s) && Evolves(s, s')
    ensures t in s'.calls && CallReason(s', run + [Enter(t, newId)], t)
  {
    hide AttemptsOk, AttemptReason, Evolves, FailedWith, CameUpAndDied, CameUp;
    assert t in s.calls && s.calls[t].pc.Top? && newId !in s.attempts;
    assert CallReason(s, run, t);
    var key := s.calls[t].key;
    Stays(run, Enter(t, newId), t, key);
    EnterOutcome(s, t, newId);
    ClosedStays(s, s');
    if key in s.pool.clients {
      ReasonsLast(s, s', key, ErrSpawn, s.pool.clients[key]);
    }
  }

  // A call that reads the outcome of the attempt it waited for.
  lemma InspectReason(s: State, s': State, run: seq<Step>, t: CallId)
    requires Reachable(s) && Reasons(s, run) && Apply(s, Inspect(t)) == Some(s')
    ensures t in s'.calls && CallReason(s', run + [Inspect(t)], t)
  {
    hide Inv, InspectStep, Reachable;
    assert t in s.calls && s.calls[t].pc.Woken? && CallReason(s, run, t);
    WaiterOutcome(s, t);
    var a := s.calls[t].pc.attempt;
    assert AttemptReason(s, run, a);
    Stays(run, Inspect(t), t, s.calls[t].key);
    assert a in s'.attempts;
  }

  predicate Spawns(step: Step) {
    step.SpawnFail? || step.SpawnStart? || step.InitOk? || step.InitFail? || step.ShutFailed?
  }

  lemma SpawnStepReason(s: State, s': State, run: seq<Step>, step: Step)
    requires CallReasons(s, run) && Apply(s, step) == Some(s') && Spawns(step)
    ensures step.t in s'.calls && CallReason(s', run + [step], step.t)
  {
    hide FailedWith, CameUpAndDied, CameUp;
    var t, more := step.t, run + [step];
    assert step in more && CallReason(s, run, t);
    Stays(run, step, t, s.calls[t].key);
  }

  // A call that publishes the outcome of its spawn and returns it.
  lemma PublishReason(s: State, s': State, run: seq<Step>, step: Step)
    requires CallsOk(s) && CallReasons(s, run) && Apply(s, step) == Some(s') && (step.Publish? || step.CloseDone?)
    ensures step.t in s'.calls && CallReason(s', run + [step], step.t)
  {
    hide FailedWith, CameUp, CameUpAndDied;
    var t := step.t;
    assert CallOk(s, t) && CallReason(s, run, t);
    Stays(run, step, t, s.calls[t].key);
  }

  lemma FinishReason(s: State, s': State, run: seq<Step>, t: CallId)
    requires CallsOk(s) && CallReasons(s, run) && Apply(s, Finish(t)) == Some(s')
    ensures t in s'.calls && CallReason(s', run + [Finish(t)], t)
  {
    hide CameUpAndDied;
    assert CallOk(s, t) && CallReason(s, run, t);
    Stays(run, Finish(t), t, s.calls[t].key);
    assert s.calls[t].pc.attempt in s'.attempts && s'.attempts == s.attempts && s'.pool == s.pool;
  }

  lemma CallReasonsStep(s: State, s': State, run: seq<Step>, step: Step)
    requires Reachable(s) && Inv(s) && Reasons(s, run) && Apply(s, step) == Some(s') && Evolves(s, s')
    ensures CallReasons(s', run + [step])
  {
    hide Reachable, CallOk, AttemptsOk, PoolOk, SessionsOk, ClosersOk, PoolReasons, CallReason, Evolves, CallStep;
    forall t | t in s'.calls ensures CallReason(s', run + [step], t) {
      if t !in s.calls {
        FirstStep(s, step, t);
        ArrivingReason(s, s', run, step);
      } else if StepOf(step, t) {
        if step.Inspect? {
          InspectReason(s, s', run, t);
        } else if Spawns(step) {
          SpawnStepReason(s, s', run, step);
        } else if step.Finish? {
          FinishReason(s, s', run, t);
        } else if step.Publish? || step.CloseDone? {
          PublishReason(s, s', run, step);
        } else if step.Enter? {
          EnterReason(s, s', run, t, step.newId);
        } else {
          ArrivingReason(s, s', run, step);
        }
      } else {
        OthersStay(s, step, t);
        IdleReason(s, s', run, step, t);
      }
    }
  }

  // Only publishing fills an attempt.
  lemma AttemptChange(s: State, s': State, step: Step, a: AttemptId)
    requires Apply(s, step) == Some(s') && a in s'.attempts && s'.attempts[a].filled
    ensures a in s.attempts
    ensures (step.Publish? && step.t in s.calls && s.calls[step.t].pc.Spawned? && s.calls[step.t].pc.attempt == a)
            || s'.attempts[a] == s.attempts[a].(done := s'.attempts[a].done)
  {
    hide EnterLocked, PublishLocked, CloseLocked;
  }

  lemma PublishChange(s: State, s': State, t: CallId)
    requires Apply(s, Publish(t)) == Some(s')
    ensures t in s.calls && s.calls[t].pc.Spawned? && s.calls[t].pc.attempt in s.attempts && t in s'.calls
    ensures s' == PublishStep(s, t, s.calls[t].pc.attempt, s.calls[t].pc.client, s.calls[t].pc.err)
  {
    hide PublishLocked;
  }

  lemma AttemptReasonStep(s: State, s': State, run: seq<Step>, step: Step, a: AttemptId)
    requires CallsOk(s) && Reasons(s, run) && Apply(s, step) == Some(s') && Evolves(s, s') && a in s'.attempts
    ensures AttemptReason(s', run + [step], a)
  {
    hide FailedWith, CameUpAndDied, CameUp, AttemptOk, CallStep;
    if s'.attempts[a].filled {
      AttemptChange(s, s', step, a);
      var u := s.attempts[a].owner;
      assert AttemptReason(s, run, a);
      Stays(run, step, u, s.attempts[a].key);
      if step.Publish? {
        PublishChange(s, s', step.t);
        assert CallOk(s, step.t) && CallReason(s, run, step.t);
      }
    }
  }

  // Only publishing adds a session to the pool.
  lemma OwnServed(s: State, step: Step, k: Key)
    requires OfCall(step) && !step.Publish? && step.t in s.calls && CallStep(s, step).Some?
    requires k in CallStep(s, step).value.pool.clients
    ensures k in s.pool.clients && CallStep(s, step).value.pool.clients[k] == s.pool.clients[k]
  {
    hide PublishStep;
  }

  lemma ServedChange(s: State, s': State, step: Step, k: Key)
    requires Apply(s, step) == Some(s') && k in s'.pool.clients
    ensures step.Publish? || (k in s.pool.clients && s'.pool.clients[k] == s.pool.clients[k])
  {
    hide CallStep;
    if OfCall(step) && !step.Publish? {
      OwnServed(s, step, k);
    }
  }

  lemma PublishServes(s: State, s': State, t: CallId, k: Key)
    requires CallsOk(s) && Apply(s, Publish(t)) == Some(s') && k in s'.pool.clients
    ensures (k in s.pool.clients && s'.pool.clients[k] == s.pool.clients[k]) || CameUp(s', k, s'.pool.clients[k])
  {
    hide CallStep;
    PublishChange(s, s', t);
    assert CallOk(s, t) && s.calls[t].pc.attempt in s'.attempts;
  }

  lemma ServedReasonStep(s: State, s': State, run: seq<Step>, step: Step, k: Key)
    requires CallsOk(s) && AttemptsOk(s) && PoolReasons(s, run) && Apply(s, step) == Some(s') && Evolves(s, s')
    requires k in s'.pool.clients
    ensures CameUp(s', k, s'.pool.clients[k])
  {
    hide Apply, CallsOk, AttemptsOk, AttemptReason, Evolves, CameUp;
    ServedChange(s, s', step, k);
    if step.Publish? {
      PublishServes(s, s', step.t, k);
    }
    if k in s.pool.clients && s'.pool.clients[k] == s.pool.clients[k] {
      ReasonsLast(s, s', k, ErrSpawn, s.pool.clients[k]);
    }
  }

  lemma ReasonsStep(s: State, run: seq<Step>, step: Step)
    requires Reachable(s) && Inv(s) && Reasons(s, run) && Apply(s, step).Some?
    ensures Reasons(Apply(s, step).value, run + [step])
  {
    hide Reachable, CallsOk, AttemptsOk, PoolOk, SessionsOk, ClosersOk;
    hide CallReasons, AttemptReason, CameUp, Evolves, Apply;
    var s' := Apply(s, step).value;
    StepEvolves(s, step);
    CallReasonsStep(s, s', run, step);
    forall a | a in s'.attempts ensures AttemptReason(s', run + [step], a) {
      AttemptReasonStep(s, s', run, step, a);
    }
    forall k | k in s'.pool.clients ensures CameUp(s', k, s'.pool.clients[k]) {
      ServedReasonStep(s, s', run, step, k);
    }
  }

  lemma {:induction false} RunReasons(run: seq<Step>)
    requires Exec(INIT, run).Some?
    ensures Reasons(Exec(INIT, run).value, run) && Inv(Exec(INIT, run).value)
    decreases |run|
  {
    hide CallsOk, AttemptsOk, PoolOk, SessionsOk, ClosersOk, CallReason, AttemptReason, CameUp, Apply;
    if run == [] {
      InvInit();
    } else {
      var n := |run| - 1;
      Runs.ExecLast(Apply, INIT, run);
      RunReasons(run[..n]);
      var s := Exec(INIT, run[..n]).value;
      ReasonsStep(s, run[..n], run[n]);
      InvStep(s, run[n]);
      assert run[..n] + [run[n]] == run;
    }
  }

  // How often a run takes the call to the top of its loop and on.
  function EntersBy(run: seq<Step>, t: CallId): nat {
    if run == [] then 0
    else
      var n := |run| - 1;
      EntersBy(run[..n], t) + if run[n].Enter? && run[n].t == t then 1 else 0
  }

  // How often a call has come to the top of its loop and gone on.
  function Entries(call: Call): nat { call.tries + if call.pc.Top? then 0 else 1 }

  lemma OwnEnters(s: State, step: Step)
    requires OfCall(step) && step.t in s.calls && CallStep(s, step).Some?
    ensures var s' := CallStep(s, step).value;
            step.t in s'.calls
            && Entries(s'.calls[step.t]) == Entries(s.calls[step.t]) + if step.Enter? then 1 else 0
  {
    hide EnterLocked, PublishLocked, CloseLocked;
  }

  lemma EntersStep(s: State, step: Step, t: CallId)
    requires t in s.calls && Apply(s, step).Some?
    ensures var s' := Apply(s, step).value;
            t in s'.calls
            && Entries(s'.calls[t]) == Entries(s.calls[t]) + if step.Enter? && step.t == t then 1 else 0
  {
    hide CallStep, Entries;
    if StepOf(step, t) {
      OwnEnters(s, step);
    } else {
      OthersStay(s, step, t);
    }
  }

  // Every retry goes through the top of the loop once more.
  lemma {:induction false} EntersCount(run: seq<Step>, t: CallId)
    requires Exec(INIT, run).Some?
    ensures var s := Exec(INIT, run).value;
            EntersBy(run, t) == if t in s.calls then Entries(s.calls[t]) else 0
    decreases |run|
  {
    hide Apply;
    if run != [] {
      var n := |run| - 1;
      Runs.ExecLast(Apply, INIT, run);
      EntersCount(run[..n], t);
      var s := Exec(INIT, run[..n]).value;
      if t in s.calls {
        EntersStep(s, run[n], t);
      } else {
        FirstStep(s, run[n], t);
      }
    }
  }

  lemma FirstStep(s: State, step: Step, t: CallId)
    requires t !in s.calls && Apply(s, step).Some?
    ensures var s' := Apply(s, step).value;
            && !(step.Enter? && step.t == t)
            && (t in s'.calls ==> step == NewCall(t, s'.calls[t].key) && s'.calls[t].pc.Top? && s'.calls[t].tries == 0)
  {
    hide EnterLocked, PublishLocked, CloseLocked;
  }

  /** Why a call returned what it returned, in every run.  A session came out of an attempt for
      the call's key whose handshake succeeded.  A failed spawn is the outcome of an attempt for that key
      whose daemon did not start, or failed its handshake and was shut down.  The pool is closed
      if the call says so, and the call's own context was cancelled if it says so.  The daemon is
      said to have exited after three entries, when a spawn for the key brought up a daemon that
      is dead. */
  lemma ReturnsForAReason(run: seq<Step>, t: CallId)
    requires Exec(INIT, run).Some?
    requires t in Exec(INIT, run).value.calls && Exec(INIT, run).value.calls[t].pc.Returned?
    ensures var s := Exec(INIT, run).value;
            var key, r := s.calls[t].key, s.calls[t].pc;
            && NewCall(t, key) in run
            && (r.client.Some? ==>
                  exists a :: a in s.attempts && s.attempts[a].key == key && s.attempts[a].filled
                              && s.attempts[a].client == r.client && InitOk(s.attempts[a].owner) in run)
            && (r.err == Some(ErrSpawn) ==>
                  exists a :: a in s.attempts && s.attempts[a].key == key && s.attempts[a].done
                              && s.attempts[a].err == Some(ErrSpawn) && SpawnFailed(run, s.attempts[a].owner))
            && (r.err == Some(ErrClosed) ==> s.pool.closed)
            && (r.err == Some(ErrCancelled) ==> Cancel(t) in run)
            && (r.err == Some(ErrDaemonExited) ==>
                  EntersBy(run, t) == 3
                  && exists a :: a in s.attempts && s.attempts[a].key == key && s.attempts[a].done
                                 && s.attempts[a].client.Some? && s.attempts[a].client.value in s.sessions
                                 && !s.sessions[s.attempts[a].client.value].alive)
  {
    hide CallOk, PoolOk, SessionsOk, ClosersOk, Apply;
    RunReasons(run);
    EntersCount(run, t);
    var s := Exec(INIT, run).value;
    var key, r := s.calls[t].key, s.calls[t].pc;
    assert CallReason(s, run, t);
    if r.client.Some? {
      var a :| a in s.attempts && s.attempts[a].key == key && s.attempts[a].filled && s.attempts[a].client == r.client;
      assert AttemptReason(s, run, a);
    }
    if r.err == Some(ErrSpawn) {
      var a :| a in s.attempts && s.attempts[a].key == key && s.attempts[a].done && s.attempts[a].err == r.err;
      assert AttemptOk(s, a) && AttemptReason(s, run, a);
    }
  }

  /** What the top of the loop does with a call: a closed pool turns it away, a live session for
      its key is returned, an attempt in flight is waited for, and otherwise it owns a new one. */
  lemma EnterOutcome(s: State, t: CallId, newId: AttemptId)
    requires t in s.calls && s.calls[t].pc.Top? && newId !in s.attempts
    ensures Apply(s, Enter(t, newId)).Some?
    ensures var s' := Apply(s, Enter(t, newId)).value;
            var key := s.calls[t].key;
            && t in s'.calls && s'.calls - {t} == s.calls - {t} && s'.sessions == s.sessions && s'.closers == s.closers
            && s'.calls[t] == s.calls[t].(pc := s'.calls[t].pc)
            && (s'.calls[t].pc == Returned(None, Some(ErrClosed)) <==> s.pool.closed)
            && (s.pool.closed || s'.calls[t].pc.Returned?
                <==> s.pool.closed || (key in s.pool.clients && s.pool.clients[key] in s.sessions
                                       && s.sessions[s.pool.clients[key]].alive))
            && (!s.pool.closed && s'.calls[t].pc.Returned? ==>
                  s'.calls[t].pc == Returned(Some(s.pool.clients[key]), None))
            && (!s'.calls[t].pc.Returned? ==>
                  s'.calls[t].pc == if key in s.pool.pending then Waiting(s.pool.pending[key]) else Spawning(newId))
            && s'.attempts == if s'.calls[t].pc.Spawning?
                              then s.attempts[newId := Attempt(key, t, false, None, None, false)] else s.attempts
  {
  }

  /** What a waiter does with its attempt once it is done: it returns the error if there is one,
      the session if that is alive, and otherwise starts over; the third time it gives up. */
  lemma WaiterOutcome(s: State, t: CallId)
    requires Reachable(s) && t in s.calls && s.calls[t].pc.Woken?
    ensures var a := s.calls[t].pc.attempt;
            && a in s.attempts && s.attempts[a].key == s.calls[t].key && s.attempts[a].done && s.attempts[a].filled
            && s.calls[t].tries <= 2 && Apply(s, Inspect(t)).Some?
    ensures var s' := Apply(s, Inspect(t)).value;
            var a := s.attempts[s.calls[t].pc.attempt];
            && s' == s.(calls := s'.calls) && t in s'.calls && s'.calls - {t} == s.calls - {t}
            && (a.err.Some? ==> s'.calls[t] == s.calls[t].(pc := Returned(None, a.err)))
            && (a.err.None? ==>
                  && a.client.Some? && a.client.value in s.sessions
                  && s'.calls[t] == if s.sessions[a.client.value].alive
                                    then s.calls[t].(pc := Returned(a.client, None))
                                    else if s.calls[t].tries < 2
                                    then Call(s.calls[t].key, s.calls[t].tries + 1, Top)
                                    else s.calls[t].(pc := Returned(None, Some(ErrDaemonExited))))
  {
    hide PoolOk, SessionsOk, ClosersOk;
    ReachableInv(s);
    assert CallOk(s, t) && AttemptOk(s, s.calls[t].pc.attempt);
  }

  /** Which calls are held up, their own context aside: exactly those that have returned and those
      that wait for an attempt still open. */
  lemma CallsBlockExactly(s: State, t: CallId)
    requires Reachable(s) && t in s.calls
    ensures (exists step :: StepOf(step, t) && !step.Cancel? && Apply(s, step).Some?)
            <==> !s.calls[t].pc.Returned?
                 && !(s.calls[t].pc.Waiting? && s.calls[t].pc.attempt in s.attempts
                      && !s.attempts[s.calls[t].pc.attempt].done)
  {
    hide AttemptOk, PoolOk, SessionsOk, ClosersOk, EnterStep, InspectStep, PublishStep, Shut;
    ReachableInv(s);
    assert CallOk(s, t);
    var newId := FreshAttempt(s.attempts.Keys);
    var step := match s.calls[t].pc
      case Top => Enter(t, newId)
      case Waiting(_) => Wake(t)
      case Woken(_) => Inspect(t)
      case _ => OwnerStep(s, t);
    assert StepOf(step, t) && !step.Cancel?;
    if !s.calls[t].pc.Returned? && !(s.calls[t].pc.Waiting? && !s.attempts[s.calls[t].pc.attempt].done) {
      assert Apply(s, step).Some?;
    }
  }

  // Only a waiting call heeds its context, and it changes nothing but that call.
  lemma CancelOutcome(s: State, t: CallId)
    requires t in s.calls
    ensures Apply(s, Cancel(t))
            == if s.calls[t].pc.Waiting?
               then Some(s.(calls := s.calls[t := s.calls[t].(pc := Returned(None, Some(ErrCancelled)))])) else None
  {
  }

  lemma {:induction false} FreshAttempt(ids: set<AttemptId>) returns (a: AttemptId)
    ensures forall i | i in ids :: i < a
  {
    if ids == {} {
      a := 0;
    } else {
      var i :| i in ids;
      var below := FreshAttempt(ids - {i});
      a := if below > i then below else i + 1;
      assert ids == (ids - {i}) + {i};
    }
  }

  /* ---- one shared outcome ---- */

  // Once an attempt is done its fields never change again over any further run, and they hold
  // a session or an error; so every caller that reads it reads the same outcome.
  lemma SharedOutcome(s: State, run: seq<Step>, a: AttemptId)
    requires Reachable(s) && a in s.attempts && s.attempts[a].done && Exec(s, run).Some?
    ensures var s' := Exec(s, run).value;
            a in s'.attempts && s'.attempts[a] == s.attempts[a] && s.attempts[a].filled
            && (s.attempts[a].client.Some? <==> s.attempts[a].err.None?)
  {
    hide CallOk, PoolOk, SessionsOk, ClosersOk;
    ReachableInv(s);
    assert AttemptOk(s, a);
    RunKeeps(s, run);
  }

  // The owner returns the fields it published, and closes a channel that is still open.
  lemma OwnerSharesOutcome(s: State, t: CallId)
    requires Reachable(s) && t in s.calls && (s.calls[t].pc.Publishing? || s.calls[t].pc.Finishing?)
    ensures var pc := s.calls[t].pc;
            pc.attempt in s.attempts
            && s.attempts[pc.attempt].client == pc.client && s.attempts[pc.attempt].err == pc.err
            && (s.attempts[pc.attempt].done <==> pc.Finishing?)
  {
    hide AttemptOk, PoolOk, SessionsOk, ClosersOk;
    ReachableInv(s);
    assert CallOk(s, t);
  }

  /* ---- progress ---- */

  // How many steps a call can still take.
  function PcRank(pc: Pc): nat {
    match pc
    case Top => 9
    case Waiting(_) => 8
    case Woken(_) => 7
    case Spawning(_) => 7
    case Started(_, _) => 6
    case Failing(_, _) => 5
    case Spawned(_, _, _) => 4
    case Publishing(_, _, _, _) => 3
    case Finishing(_, _, _, orphan) => if orphan.Some? then 2 else 1
    case Returned(_, _) => 0
  }

  function CallRank(call: Call): int { 10 * (MAX_TRIES - 1 - call.tries) + PcRank(call.pc) }

  predicate StepOf(step: Step, t: CallId) { OfCall(step) && step.t == t }

  // The number of steps of a run that a call takes.
  function StepsBy(run: seq<Step>, t: CallId): nat {
    if run == [] then 0 else (if StepOf(run[0], t) then 1 else 0) + StepsBy(run[1..], t)
  }

  lemma OthersStay(s: State, step: Step, t: CallId)
    requires t in s.calls && Apply(s, step).Some? && !StepOf(step, t)
    ensures var s' := Apply(s, step).value; t in s'.calls && s'.calls[t] == s.calls[t]
  {
    hide EnterLocked, PublishLocked, CloseLocked;
  }

  lemma OwnStepRank(s: State, step: Step)
    requires OfCall(step) && step.t in s.calls && CallStep(s, step).Some?
    ensures var s' := CallStep(s, step).value;
            step.t in s'.calls && s'.calls[step.t].key == s.calls[step.t].key
            && CallRank(s'.calls[step.t]) < CallRank(s.calls[step.t])
            && (s'.calls[step.t].tries == s.calls[step.t].tries || s.calls[step.t].pc.Woken?)
  {
    hide EnterLocked, PublishLocked, CloseLocked;
  }

  lemma StepRank(s: State, step: Step, t: CallId)
    requires t in s.calls && Apply(s, step).Some?
    ensures var s' := Apply(s, step).value;
            t in s'.calls && s'.calls[t].key == s.calls[t].key
            && (if StepOf(step, t) then CallRank(s'.calls[t]) < CallRank(s.calls[t]) else s'.calls[t] == s.calls[t])
            && (s'.calls[t].tries == s.calls[t].tries || s.calls[t].pc.Woken?)
  {
    hide CallRank, CallStep;
    if StepOf(step, t) {
      OwnStepRank(s, step);
    } else {
      OthersStay(s, step, t);
    }
  }

  lemma {:induction false} RunRank(s: State, run: seq<Step>, t: CallId)
    requires t in s.calls && Exec(s, run).Some?
    ensures var s' := Exec(s, run).value;
            t in s'.calls && StepsBy(run, t) + CallRank(s'.calls[t]) <= CallRank(s.calls[t])
    decreases |run|
  {
    hide Apply, CallRank;
    if run != [] {
      StepRank(s, run[0], t);
      RunRank(Apply(s, run[0]).value, run[1..], t);
    }
  }

  // The retry loop is bounded: no run lets one ClientSession call take more than 29 steps.
  lemma CallsAreBounded(s: State, run: seq<Step>, t: CallId)
    requires Reachable(s) && t in s.calls && Exec(s, run).Some?
    ensures StepsBy(run, t) <= CallRank(s.calls[t]) <= 29
    ensures var s' := Exec(s, run).value;
            t in s'.calls && (StepsBy(run, t) == CallRank(s.calls[t]) ==> s'.calls[t].pc.Returned?)
  {
    hide AttemptOk, PoolOk, SessionsOk, ClosersOk, Apply, Evolves;
    ReachableInv(s);
    assert CallOk(s, t);
    RunKeeps(s, run);
    RunRank(s, run, t);
    assert CallOk(Exec(s, run).value, t);
  }

  // The next step of a call that spawns.
  function OwnerStep(s: State, t: CallId): Step
    requires t in s.calls
  {
    match s.calls[t].pc
    case Spawning(_) => SpawnFail(t)
    case Started(_, _) => InitFail(t)
    case Failing(_, _) => ShutFailed(t)
    case Spawned(_, _, _) => Publish(t)
    case Publishing(_, _, _, _) => CloseDone(t)
    case _ => Finish(t)
  }

  // No lost wakeup: a caller waits on an attempt that is done, or that has exactly one owner,
  // and that owner can take a step.
  lemma NoLostWakeup(s: State, t: CallId)
    requires Reachable(s) && t in s.calls && s.calls[t].pc.Waiting?
    ensures var a := s.calls[t].pc.attempt;
            a in s.attempts && s.attempts[a].key == s.calls[t].key
            && (!s.attempts[a].done ==>
                  var u := s.attempts[a].owner;
                  OwnsAttempt(s, u, a) && Apply(s, OwnerStep(s, u)).Some?
                  && forall v :: OwnsAttempt(s, v, a) ==> v == u)
  {
    hide PoolOk, SessionsOk, ClosersOk;
    ReachableInv(s);
    assert CallOk(s, t);
    var a := s.calls[t].pc.attempt;
    assert AttemptOk(s, a);
    if !s.attempts[a].done {
      assert CallOk(s, s.attempts[a].owner);
      forall v | OwnsAttempt(s, v, a) ensures v == s.attempts[a].owner {
        assert CallOk(s, v);
      }
    }
  }

  // The owner stays on its path to closing done, whatever the others do.
  lemma OwnerStaysOrDone(s: State, step: Step, a: AttemptId)
    requires Inv(s) && Apply(s, step).Some? && a in s.attempts && !s.attempts[a].done
    ensures var s' := Apply(s, step).value;
            var u := s.attempts[a].owner;
            && a in s'.attempts && s'.attempts[a].owner == u && OwnsAttempt(s, u, a)
            && (s'.attempts[a].done
                || (OwnsAttempt(s', u, a) && s'.calls[u].tries == s.calls[u].tries
                    && PcRank(s'.calls[u].pc) + (if StepOf(step, u) then 1 else 0) <= PcRank(s.calls[u].pc)))
  {
    hide CallOk, PoolOk, SessionsOk, ClosersOk, CallStep;
    assert AttemptOk(s, a);
    var u := s.attempts[a].owner;
    StepEvolves(s, step);
    StepRank(s, step, u);
    InvStep(s, step);
    assert AttemptOk(Apply(s, step).value, a);
  }

  lemma {:induction false} OwnerPath(s: State, run: seq<Step>, a: AttemptId)
    requires Inv(s) && Exec(s, run).Some? && a in s.attempts && !s.attempts[a].done
    ensures var s' := Exec(s, run).value;
            var u := s.attempts[a].owner;
            && a in s'.attempts && OwnsAttempt(s, u, a)
            && (s'.attempts[a].done
                || (OwnsAttempt(s', u, a) && PcRank(s'.calls[u].pc) + StepsBy(run, u) <= PcRank(s.calls[u].pc)))
    decreases |run|
  {
    hide CallOk, PoolOk, SessionsOk, ClosersOk, Apply;
    if run == [] {
      assert AttemptOk(s, a);
    } else {
      OwnerStaysOrDone(s, run[0], a);
      var s1 := Apply(s, run[0]).value;
      InvStep(s, run[0]);
      if s1.attempts[a].done {
        RunKeeps(s1, run[1..]);
      } else {
        OwnerPath(s1, run[1..], a);
      }
    }
  }

  // The wakeup comes: five steps of the owner close done, in any run and whatever else happens.
  lemma WakeupComes(s: State, run: seq<Step>, a: AttemptId)
    requires Reachable(s) && a in s.attempts && Exec(s, run).Some?
    requires StepsBy(run, s.attempts[a].owner) >= 5
    ensures var s' := Exec(s, run).value; a in s'.attempts && s'.attempts[a].done
  {
    hide CallOk, AttemptOk, PoolOk, SessionsOk, ClosersOk, Apply;
    ReachableInv(s);
    if s.attempts[a].done {
      RunKeeps(s, run);
    } else {
      OwnerPath(s, run, a);
    }
  }
}
