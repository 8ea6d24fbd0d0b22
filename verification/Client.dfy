/** internal/lsp/client.go: one JSON-RPC session multiplexing calls by id over a single pipe.

    Calls run as an unbounded number of threads beside the one goroutine that reads.  A step is
    one critical section, one channel operation, the outcome of an encode or a write, a
    cancellation, a response arriving, or the end of the stream.  Responses that have arrived and
    the calls that were given an id are kept as history. */
module Client {
  import opened Text
  import Runs

  type Id = nat          // int64 in the program; 0 is never given out
  type ChanId = nat
  type CallId = nat

  // A response off the wire; the id is None when it is not a number.
  datatype Response = Response(id: Option<int>, body: string)

  datatype Message = Reply(response: Response) | Aborted

  /* ---- the mutex-protected fields and their critical sections ---- */

  datatype Table = Table(nextID: nat, pending: map<Id, ChanId>)

  function TrackLocked(t: Table, ch: ChanId): (Table, Id) {
    (Table(t.nextID + 1, t.pending[t.nextID + 1 := ch]), t.nextID + 1)
  }

  function ForgetLocked(t: Table, id: Id): Table { t.(pending := t.pending - {id}) }

  // The channel waiting for a response, taken out of the table.
  function TakeLocked(t: Table, id: int): (Table, Option<ChanId>) {
    if id >= 0 && id in t.pending then (t.(pending := t.pending - {id}), Some(t.pending[id])) else (t, None)
  }

  function SwapLocked(t: Table): (Table, map<Id, ChanId>) { (t.(pending := map[]), t.pending) }

  // The shared object and its critical sections as the program writes them; given is the history
  // of all ids handed out, and ch the channel trackCall allocates.
  class Client {
    var nextID: nat
    var pending: map<Id, ChanId>
    ghost var given: set<Id>

    function Fields(): Table
      reads this
    {
      Table(nextID, pending)
    }

    // Every id up to nextID was given out, only those can be pending, and no channel waits twice.
    ghost predicate Valid()
      reads this
    {
      && (forall id :: id in given <==> 1 <= id <= nextID)
      && pending.Keys <= given
      && (forall i, j | i in pending && j in pending && i != j :: pending[i] != pending[j])
    }

    constructor ()
      ensures Valid() && Fields() == Table(0, map[]) && given == {}
    {
      nextID, pending, given := 0, map[], {};
    }

    // The id was never given out before, and every call that waited still waits.
    method TrackCall(ch: ChanId) returns (id: Id)
      requires Valid() && ch !in pending.Values
      modifies this
      ensures Valid() && (Fields(), id) == TrackLocked(old(Fields()), ch)
      ensures id !in old(given) && given == old(given) + {id}
      ensures id !in old(pending) && pending - {id} == old(pending) && id in pending && pending[id] == ch
    {
      nextID := nextID + 1;
      id := nextID;
      pending := pending[id := ch];
      given := given + {id};
    }

    // Nothing can be sent to the call any more, and every other call that waited still waits.
    method ForgetCall(id: Id)
      requires Valid()
      modifies this`pending
      ensures Valid() && Fields() == ForgetLocked(old(Fields()), id)
      ensures id in old(pending) ==> old(pending)[id] !in pending.Values
      ensures forall i | i in old(pending) && i != id :: i in pending && pending[i] == old(pending)[i]
    {
      pending := pending - {id};
    }

    // A channel is found exactly for a waiting id and can never be taken again; every other call
    // that waited still waits.
    method Take(id: int) returns (ch: Option<ChanId>)
      requires Valid()
      modifies this`pending
      ensures Valid() && (Fields(), ch) == TakeLocked(old(Fields()), id)
      ensures ch.Some? <==> exists i :: i in old(pending) && i == id
      ensures ch.Some? ==> ch.value in old(pending).Values && ch.value !in pending.Values
      ensures forall i | i in old(pending) && i != id :: i in pending && pending[i] == old(pending)[i]
    {
      ch := None;
      if id >= 0 {
        if id in pending {
          ch := Some(pending[id]);
        }
        pending := pending - {id};
        assert ch.None? ==> pending == old(pending);
      }
    }

    // Every waiting channel is in the map returned, once, and none can be taken from the table.
    method Swap() returns (todo: map<Id, ChanId>)
      requires Valid()
      modifies this`pending
      ensures Valid() && (Fields(), todo) == SwapLocked(old(Fields()))
      ensures todo.Values == old(pending).Values && pending.Values == {}
      ensures forall i, j | i in todo && j in todo && i != j :: todo[i] != todo[j]
    {
      todo := pending;
      pending := map[];
    }
  }

  /* ---- threads ---- */

  datatype Outcome = EncodeError | WriteError | Cancelled | Died | Got(message: Message)

  datatype Pc =
    | Start                     // before the Alive check
    | Ready                     // alive, not tracked yet
    | Refused                   // the session was dead
    | Encoding | Writing
    | Waiting                   // select on the context, on done and on the channel
    | Leaving(why: Outcome)     // forgetCall next
    | Finished(outcome: Outcome)

  // id, ch and since (how many responses had arrived at registration) are set by trackCall.
  datatype Call = Call(pc: Pc, id: Id, ch: ChanId, since: nat)

  // A reply channel of capacity one; owner and sent are history.
  datatype Chan = Chan(owner: CallId, buffer: Option<Message>, sent: nat)

  // The goroutine that reads: the read loop, then fail.
  datatype Reader =
    | Reading
    | Delivering(ch: ChanId, message: Message)
    | Failing                               // the read loop has returned
    | Swapped(todo: map<Id, ChanId>)        // the pending map is taken, done not closed yet
    | Draining(todo: map<Id, ChanId>)       // done is closed
    | Exited

  datatype State = State(
    table: Table, issued: seq<CallId>, chans: map<ChanId, Chan>, calls: map<CallId, Call>,
    reader: Reader, done: bool, arrived: seq<Response>)

  const INIT := State(Table(0, map[]), [], map[], map[], Reading, false, [])

  datatype Step =
    | NewCall(t: CallId)
    | CheckAlive(t: CallId)
    | Track(t: CallId, ch: ChanId)
    | EncodeOk(t: CallId)
    | EncodeFail(t: CallId)
    | WriteOk(t: CallId)
    | WriteFail(t: CallId)
    | Cancel(t: CallId)
    | SeeDone(t: CallId)
    | Receive(t: CallId)
    | Forget(t: CallId)
    | Dispatch(response: Response)
    | Deliver
    | Die
    | Swap
    | CloseDone
    | DrainOne(id: Id)
    | Exit

  function Goto(s: State, t: CallId, pc: Pc): State
    requires t in s.calls
  {
    s.(calls := s.calls[t := s.calls[t].(pc := pc)])
  }

  // A send into a channel blocks while its buffer is full.
  function Send(s: State, ch: ChanId, m: Message): Option<State> {
    if ch in s.chans && s.chans[ch].buffer.None?
    then Some(s.(chans := s.chans[ch := Chan(s.chans[ch].owner, Some(m), s.chans[ch].sent + 1)])) else None
  }

  function TrackStep(s: State, t: CallId, ch: ChanId): State
    requires t in s.calls
  {
    var (table, id) := TrackLocked(s.table, ch);
    s.(table := table, issued := s.issued + [t], chans := s.chans[ch := Chan(t, None, 0)],
       calls := s.calls[t := Call(Encoding, id, ch, |s.arrived|)])
  }

  function DispatchStep(s: State, r: Response): State {
    var s' := s.(arrived := s.arrived + [r]);
    if r.id.None? then s'
    else
      var (table, ch) := TakeLocked(s.table, r.id.value);
      s'.(table := table, reader := if ch.Some? then Delivering(ch.value, Reply(r)) else Reading)
  }

  // The state after a step, or None when the step is not enabled.
  function Apply(s: State, step: Step): Option<State> {
    match step
    case NewCall(t) => if t in s.calls then None else Some(s.(calls := s.calls[t := Call(Start, 0, 0, 0)]))
    case Dispatch(r) => if s.reader.Reading? then Some(DispatchStep(s, r)) else None
    case Deliver =>
      if s.reader.Delivering? && Send(s, s.reader.ch, s.reader.message).Some?
      then Some(Send(s, s.reader.ch, s.reader.message).value.(reader := Reading)) else None
    case Die => if s.reader.Reading? then Some(s.(reader := Failing)) else None
    case Swap =>
      if s.reader.Failing?
      then Some(s.(table := SwapLocked(s.table).0, reader := Swapped(SwapLocked(s.table).1))) else None
    case CloseDone => if s.reader.Swapped? then Some(s.(done := true, reader := Draining(s.reader.todo))) else None
    case DrainOne(id) =>
      if s.reader.Draining? && id in s.reader.todo && Send(s, s.reader.todo[id], Aborted).Some?
      then Some(Send(s, s.reader.todo[id], Aborted).value.(reader := Draining(s.reader.todo - {id}))) else None
    case Exit => if s.reader == Draining(map[]) then Some(s.(reader := Exited)) else None
    case _ => if step.t in s.calls then CallStep(s, step) else None
  }

  predicate OfCall(step: Step) {
    !step.NewCall? && !OfReader(step)
  }

  predicate OfReader(step: Step) {
    step.Dispatch? || step.Deliver? || step.Die? || step.Swap? || step.CloseDone? || step.DrainOne? || step.Exit?
  }

  function CallStep(s: State, step: Step): Option<State>
    requires OfCall(step) && step.t in s.calls
  {
    var t, call := step.t, s.calls[step.t];
    match (step, call.pc)
    case (CheckAlive(_), Start) => Some(Goto(s, t, if s.done then Refused else Ready))
    case (Track(_, ch), Ready) => if ch in s.chans then None else Some(TrackStep(s, t, ch))
    case (EncodeOk(_), Encoding) => Some(Goto(s, t, Writing))
    case (EncodeFail(_), Encoding) => Some(Goto(s, t, Leaving(EncodeError)))
    case (WriteOk(_), Writing) => Some(Goto(s, t, Waiting))
    case (WriteFail(_), Writing) => Some(Goto(s, t, Leaving(WriteError)))
    case (Cancel(_), Waiting) => Some(Goto(s, t, Leaving(Cancelled)))
    case (SeeDone(_), Waiting) => if s.done then Some(Goto(s, t, Leaving(Died))) else None
    case (Receive(_), Waiting) =>
      if call.ch in s.chans && s.chans[call.ch].buffer.Some?
      then Some(Goto(s.(chans := s.chans[call.ch := s.chans[call.ch].(buffer := None)]), t,
                     Finished(Got(s.chans[call.ch].buffer.value)))) else None
    case (Forget(_), Leaving(why)) => Some(Goto(s.(table := ForgetLocked(s.table, call.id)), t, Finished(why)))
    case _ => None
  }

  /* ---- the first response after registration ---- */

  // The first of the responses from index since on that carries id.
  function First(arrived: seq<Response>, since: nat, id: Id): Option<Response> {
    if |arrived| <= since then None
    else
      var n := |arrived| - 1;
      var before := First(arrived[..n], since, id);
      if before.Some? then before else if arrived[n].id == Some(id) then Some(arrived[n]) else None
  }

  lemma {:induction false} FirstMeaning(arrived: seq<Response>, since: nat, id: Id)
    ensures First(arrived, since, id).None? <==> forall i :: since <= i < |arrived| ==> arrived[i].id != Some(id)
    ensures First(arrived, since, id).Some? ==>
              exists i :: since <= i < |arrived|
                          && First(arrived, since, id) == Some(arrived[i]) && arrived[i].id == Some(id)
                          && forall j :: since <= j < i ==> arrived[j].id != Some(id)
  {
    if |arrived| > since {
      var n := |arrived| - 1;
      var before := arrived[..n];
      FirstMeaning(before, since, id);
      assert forall j | 0 <= j < n :: before[j] == arrived[j];
      if First(before, since, id).Some? {
        var i :| since <= i < n && First(before, since, id) == Some(before[i]) && before[i].id == Some(id)
                 && forall j :: since <= j < i ==> before[j].id != Some(id);
        assert First(arrived, since, id) == Some(arrived[i]);
      }
    }
  }

  lemma FirstAppend(arrived: seq<Response>, r: Response, since: nat, id: Id)
    requires since <= |arrived|
    ensures First(arrived + [r], since, id)
            == if First(arrived, since, id).Some? then First(arrived, since, id)
               else if r.id == Some(id) then Some(r) else None
  {
    assert (arrived + [r])[..|arrived|] == arrived;
  }

  /* ---- the invariant ---- */

  predicate Untracked(pc: Pc) { pc.Start? || pc.Ready? || pc.Refused? }

  // Tracked, and not on its way out.
  predicate Expecting(pc: Pc) { pc.Encoding? || pc.Writing? || pc.Waiting? }

  predicate InFlight(pc: Pc) { Expecting(pc) || pc.Leaving? }

  predicate PastSwap(r: Reader) { r.Swapped? || r.Draining? || r.Exited? }

  // What fail has taken and not aborted yet.
  function Todo(r: Reader): map<Id, ChanId> {
    match r
    case Swapped(todo) => todo
    case Draining(todo) => todo
    case _ => map[]
  }

  function Answer(s: State, call: Call): Option<Response> { First(s.arrived, call.since, call.id) }

  // Somebody will still send into the channel.
  predicate Promised(s: State, id: Id, ch: ChanId) {
    (id in s.table.pending && s.table.pending[id] == ch)
    || (s.reader.Delivering? && s.reader.ch == ch)
    || (id in Todo(s.reader) && Todo(s.reader)[id] == ch)
  }

  // What a message in a call's channel says about the responses that have arrived.
  predicate MessageOk(s: State, call: Call, m: Message) {
    match m
    case Reply(r) => Answer(s, call) == Some(r)
    case Aborted => Answer(s, call).None? && PastSwap(s.reader)
  }

  ghost predicate CallOk(s: State, t: CallId)
    requires t in s.calls
  {
    var call := s.calls[t];
    Untracked(call.pc)
    || (&& 1 <= call.id <= |s.issued| && s.issued[call.id - 1] == t
        && call.ch in s.chans && s.chans[call.ch].owner == t
        && call.since <= |s.arrived| && s.chans[call.ch].sent <= 1
        && (s.chans[call.ch].buffer.Some? ==>
              s.chans[call.ch].sent == 1 && MessageOk(s, call, s.chans[call.ch].buffer.value))
        && (Expecting(call.pc) ==>
              s.chans[call.ch].buffer.Some? || (s.chans[call.ch].sent == 0 && Promised(s, call.id, call.ch)))
        && !(call.pc.Leaving? && call.pc.why.Got?)
        && (call.pc.Finished? && call.pc.outcome.Got? ==>
              s.chans[call.ch].sent == 1 && MessageOk(s, call, call.pc.outcome.message)))
  }

  // The channel belongs to the call that was given the id, and is empty.
  predicate SlotOk(s: State, id: Id, ch: ChanId) {
    && 1 <= id <= |s.issued| && s.issued[id - 1] in s.calls && ch in s.chans
    && var call := s.calls[s.issued[id - 1]];
       !Untracked(call.pc) && call.id == id && call.ch == ch && s.chans[ch] == Chan(s.issued[id - 1], None, 0)
       && call.since <= |s.arrived|
  }

  ghost predicate PendingOk(s: State) {
    forall id | id in s.table.pending ::
      SlotOk(s, id, s.table.pending[id])
      && InFlight(s.calls[s.issued[id - 1]].pc) && Answer(s, s.calls[s.issued[id - 1]]).None?
  }

  ghost predicate ReaderOk(s: State) {
    && |s.issued| == s.table.nextID
    && (s.done <==> s.reader.Draining? || s.reader.Exited?)
    && (forall id | id in Todo(s.reader) ::
          SlotOk(s, id, Todo(s.reader)[id]) && Answer(s, s.calls[s.issued[id - 1]]).None? && id !in s.table.pending)
    && (s.reader.Delivering? ==>
          && s.reader.message.Reply? && s.reader.message.response.id.Some? && s.reader.message.response.id.value >= 0
          && var id := s.reader.message.response.id.value;
             SlotOk(s, id, s.reader.ch) && id !in s.table.pending
             && Answer(s, s.calls[s.issued[id - 1]]) == Some(s.reader.message.response))
  }

  ghost predicate ChansOk(s: State) {
    forall ch | ch in s.chans :: s.chans[ch].owner in s.calls
                                 && !Untracked(s.calls[s.chans[ch].owner].pc) && s.calls[s.chans[ch].owner].ch == ch
  }

  ghost predicate CallsOk(s: State) { forall t | t in s.calls :: CallOk(s, t) }

  ghost predicate Inv(s: State) { CallsOk(s) && PendingOk(s) && ReaderOk(s) && ChansOk(s) }

  lemma InvInit()
    ensures Inv(INIT)
  {
  }

  /* ---- what a step leaves alone ---- */

  // A call that did not move, whose channel was not touched, and that is still promised a
  // message if it was.
  predicate Kept(s: State, s': State, t: CallId) {
    && t in s.calls && t in s'.calls && s'.calls[t] == s.calls[t]
    && var call := s.calls[t];
       && (call.ch in s.chans && s.chans[call.ch].owner == t ==>
             call.ch in s'.chans && s'.chans[call.ch] == s.chans[call.ch])
       && (Answer(s', call) == Answer(s, call) || (Answer(s, call).None? && !PastSwap(s.reader)))
       && (Expecting(call.pc) && Promised(s, call.id, call.ch) ==> Promised(s', call.id, call.ch))
  }

  // The histories only grow and a dead reader stays dead.
  predicate Grows(s: State, s': State) {
    s.issued <= s'.issued && |s.arrived| <= |s'.arrived| && (PastSwap(s.reader) ==> PastSwap(s'.reader))
  }

  lemma CallsFrame(s: State, s': State)
    requires CallsOk(s) && Grows(s, s')
    requires forall t | t in s'.calls :: CallOk(s', t) || Kept(s, s', t)
    ensures CallsOk(s')
  {
    hide Promised, Answer;
    forall t | t in s'.calls && Kept(s, s', t) ensures CallOk(s', t) {
      assert CallOk(s, t);
    }
  }

  /* ---- every step keeps the invariant ---- */

  ghost predicate TableOk(s: State) { PendingOk(s) && ReaderOk(s) && ChansOk(s) }

  // A call that moves on without leaving the table or its channel.
  predicate LocalMove(from: Pc, to: Pc) {
    (Untracked(from) && Untracked(to))
    || (InFlight(from) && InFlight(to) && (Expecting(to) ==> Expecting(from)) && (to.Leaving? ==> !to.why.Got?))
  }

  lemma LocalKeeps(s: State, t: CallId, pc: Pc)
    requires Inv(s) && t in s.calls && LocalMove(s.calls[t].pc, pc)
    ensures Inv(Goto(s, t, pc))
  {
    hide First, PendingOk, ReaderOk, ChansOk;
    var s' := Goto(s, t, pc);
    assert CallOk(s, t);
    CallsFrame(s, s');
    LocalTable(s, t, pc);
  }

  lemma LocalTable(s: State, t: CallId, pc: Pc)
    requires TableOk(s) && t in s.calls && LocalMove(s.calls[t].pc, pc)
    ensures TableOk(Goto(s, t, pc))
  {
    hide First;
  }

  lemma UntrackedOk(s: State, t: CallId)
    requires t in s.calls && Untracked(s.calls[t].pc)
    ensures CallOk(s, t)
  {
  }

  lemma NewCallKeeps(s: State, t: CallId)
    requires Inv(s) && t !in s.calls
    ensures Inv(s.(calls := s.calls[t := Call(Start, 0, 0, 0)]))
  {
    hide First, CallOk;
    var s' := s.(calls := s.calls[t := Call(Start, 0, 0, 0)]);
    UntrackedOk(s', t);
    CallsFrame(s, s');
  }

  lemma TrackKeeps(s: State, t: CallId, ch: ChanId)
    requires Inv(s) && t in s.calls && s.calls[t].pc.Ready? && ch !in s.chans
    ensures Inv(TrackStep(s, t, ch))
  {
    hide PendingOk, ChansOk, First;
    var s' := TrackStep(s, t, ch);
    forall u | u in s'.calls ensures CallOk(s', u) || Kept(s, s', u) {
      assert CallOk(s, u);
    }
    CallsFrame(s, s');
    TrackTable(s, t, ch);
  }

  lemma TrackTable(s: State, t: CallId, ch: ChanId)
    requires TableOk(s) && t in s.calls && s.calls[t].pc.Ready? && ch !in s.chans
    ensures TableOk(TrackStep(s, t, ch))
  {
    hide CallOk, Promised;
  }

  lemma ReceiveKeeps(s: State, s': State, t: CallId)
    requires Inv(s) && t in s.calls && CallStep(s, Receive(t)) == Some(s')
    ensures Inv(s')
  {
    hide First, PendingOk, ReaderOk, ChansOk;
    assert CallOk(s, t);
    CallsFrame(s, s');
    ReceiveTable(s, s', t);
  }

  lemma ReceiveTable(s: State, s': State, t: CallId)
    requires TableOk(s) && t in s.calls && CallStep(s, Receive(t)) == Some(s')
    ensures TableOk(s')
  {
    hide First, CallOk, TrackStep, Promised;
  }

  lemma ForgetKeeps(s: State, s': State, t: CallId)
    requires Inv(s) && t in s.calls && CallStep(s, Forget(t)) == Some(s')
    ensures Inv(s')
  {
    hide First, PendingOk, ReaderOk, ChansOk;
    assert CallOk(s, t);
    forall u | u in s'.calls ensures CallOk(s', u) || Kept(s, s', u) {
      assert CallOk(s, u);
    }
    CallsFrame(s, s');
    ForgetTable(s, s', t);
  }

  lemma ForgetTable(s: State, s': State, t: CallId)
    requires TableOk(s) && t in s.calls && CallStep(s, Forget(t)) == Some(s')
    requires 1 <= s.calls[t].id <= |s.issued| && s.issued[s.calls[t].id - 1] == t
    ensures TableOk(s')
  {
    hide First, CallOk, TrackStep, Promised;
  }

  lemma DispatchKeeps(s: State, r: Response)
    requires Inv(s) && s.reader.Reading?
    ensures Inv(DispatchStep(s, r))
  {
    hide First, PendingOk, ReaderOk, ChansOk;
    var s' := DispatchStep(s, r);
    forall u | u in s'.calls ensures CallOk(s', u) || Kept(s, s', u) {
      assert CallOk(s, u);
      if !Untracked(s.calls[u].pc) {
        FirstAppend(s.arrived, r, s.calls[u].since, s.calls[u].id);
      }
    }
    CallsFrame(s, s');
    DispatchTable(s, r);
  }

  lemma DispatchTable(s: State, r: Response)
    requires TableOk(s) && s.reader.Reading?
    ensures TableOk(DispatchStep(s, r))
  {
    hide First, CallOk;
    var s' := DispatchStep(s, r);
    forall id | id in s.table.pending
      ensures Answer(s', s.calls[s.issued[id - 1]]) == if r.id == Some(id) then Some(r) else None
    {
      FirstAppend(s.arrived, r, s.calls[s.issued[id - 1]].since, id);
    }
  }

  // A send that the reader owes to a channel finds its buffer empty.
  lemma DeliverKeeps(s: State)
    requires Inv(s) && s.reader.Delivering?
    ensures Apply(s, Deliver).Some? && Inv(Apply(s, Deliver).value)
  {
    hide First, PendingOk, ChansOk;
    var s' := Apply(s, Deliver).value;
    forall u | u in s'.calls ensures CallOk(s', u) || Kept(s, s', u) {
      assert CallOk(s, u);
    }
    CallsFrame(s, s');
    DeliverTable(s, s');
  }

  lemma DeliverTable(s: State, s': State)
    requires TableOk(s) && s.reader.Delivering? && Apply(s, Deliver) == Some(s')
    ensures TableOk(s')
  {
    hide First, CallOk, Promised, CallStep;
    var ch, id := s.reader.ch, s.reader.message.response.id.value;
    forall i | i in s.table.pending ensures s.table.pending[i] != ch {
      SlotsApart(s, i, s.table.pending[i], id, ch);
    }
  }

  lemma SlotsApart(s: State, i: Id, c: ChanId, j: Id, d: ChanId)
    requires SlotOk(s, i, c) && SlotOk(s, j, d) && i != j
    ensures c != d
  {
  }

  lemma DrainKeeps(s: State, id: Id)
    requires Inv(s) && s.reader.Draining? && id in s.reader.todo
    ensures Apply(s, DrainOne(id)).Some? && Inv(Apply(s, DrainOne(id)).value)
  {
    hide First, PendingOk, ChansOk;
    var s' := Apply(s, DrainOne(id)).value;
    assert SlotOk(s, id, s.reader.todo[id]);
    forall u | u in s'.calls ensures CallOk(s', u) || Kept(s, s', u) {
      assert CallOk(s, u);
      if u != s.issued[id - 1] {
        DrainOthers(s, s', id, u);
      }
    }
    CallsFrame(s, s');
    DrainTable(s, s', id);
  }

  lemma DrainOthers(s: State, s': State, id: Id, u: CallId)
    requires s.reader.Draining? && id in s.reader.todo && Apply(s, DrainOne(id)) == Some(s')
    requires SlotOk(s, id, s.reader.todo[id]) && u in s.calls && CallOk(s, u) && u != s.issued[id - 1]
    ensures Kept(s, s', u)
  {
    hide First;
  }

  lemma DrainTable(s: State, s': State, id: Id)
    requires TableOk(s) && s.reader.Draining? && id in s.reader.todo && Apply(s, DrainOne(id)) == Some(s')
    ensures TableOk(s')
  {
    hide First, CallOk;
    var ch := s.reader.todo[id];
    forall i | i in s.reader.todo && i != id ensures s.reader.todo[i] != ch {
      SlotsApart(s, i, s.reader.todo[i], id, ch);
    }
    forall i | i in s.table.pending ensures s.table.pending[i] != ch {
      SlotsApart(s, i, s.table.pending[i], id, ch);
    }
  }

  predicate ReaderMove(step: Step) { step.Die? || step.Swap? || step.CloseDone? || step.Exit? }

  // The reader's own moves: the read loop ends, fail takes the map, closes done, and returns.
  lemma ReaderKeeps(s: State, s': State, step: Step)
    requires Inv(s) && ReaderMove(step) && Apply(s, step) == Some(s')
    ensures Inv(s')
  {
    hide First, CallOk, PendingOk, ReaderOk, ChansOk;
    CallsFrame(s, s');
    ReaderTable(s, s', step);
  }

  lemma ReaderTable(s: State, s': State, step: Step)
    requires TableOk(s) && ReaderMove(step) && Apply(s, step) == Some(s')
    ensures TableOk(s')
  {
    hide First, CallOk, CallStep, Send;
    if step.Swap? {
      forall id | id in Todo(s'.reader)
        ensures SlotOk(s', id, Todo(s'.reader)[id]) && Answer(s', s'.calls[s'.issued[id - 1]]).None?
      {
        assert SlotOk(s, id, s.table.pending[id]);
      }
    } else {
      assert s'.table == s.table && Todo(s'.reader) == Todo(s.reader);
    }
  }

  lemma InvStep(s: State, step: Step)
    requires Inv(s) && Apply(s, step).Some?
    ensures Inv(Apply(s, step).value)
  {
    hide CallOk, PendingOk, ReaderOk, ChansOk, First;
    var s' := Apply(s, step).value;
    if step.NewCall? {
      NewCallKeeps(s, step.t);
    } else if OfCall(step) {
      CallInvStep(s, s', step);
    } else if step.Dispatch? {
      DispatchKeeps(s, step.response);
    } else if step.Deliver? {
      DeliverKeeps(s);
    } else if step.DrainOne? {
      DrainKeeps(s, step.id);
    } else {
      ReaderKeeps(s, s', step);
    }
  }

  lemma CallInvStep(s: State, s': State, step: Step)
    requires Inv(s) && OfCall(step) && step.t in s.calls && CallStep(s, step) == Some(s')
    ensures Inv(s')
  {
    hide CallOk, PendingOk, ReaderOk, ChansOk, First;
    if step.Track? {
      TrackKeeps(s, step.t, step.ch);
    } else if step.Receive? {
      ReceiveKeeps(s, s', step.t);
    } else if step.Forget? {
      ForgetKeeps(s, s', step.t);
    } else {
      LocalKeeps(s, step.t, s'.calls[step.t].pc);
    }
  }

  /* ---- runs ---- */

  // The state after a run, or None when one of its steps is not enabled.
  function Exec(s: State, run: seq<Step>): Option<State> { Runs.Exec(Apply, s, run) }

  ghost predicate Reachable(s: State) { exists run :: Exec(INIT, run) == Some(s) }

  lemma {:induction false} RunKeeps(s: State, run: seq<Step>)
    requires Inv(s) && Exec(s, run).Some?
    ensures Inv(Exec(s, run).value)
    decreases |run|
  {
    hide Inv, Apply;
    if run != [] {
      InvStep(s, run[0]);
      RunKeeps(Apply(s, run[0]).value, run[1..]);
    }
  }

  lemma ReachableInv(s: State)
    requires Reachable(s)
    ensures Inv(s)
  {
    hide Inv, Apply;
    var run :| Exec(INIT, run) == Some(s);
    InvInit();
    RunKeeps(INIT, run);
  }

  lemma Advance(s: State, step: Step) returns (s': State)
    requires Reachable(s) && Apply(s, step).Some?
    ensures Reachable(s') && s' == Apply(s, step).value
  {
    hide Apply;
    s' := Apply(s, step).value;
    var run :| Exec(INIT, run) == Some(s);
    Runs.ExecSnoc(Apply, INIT, run, s, step);
    assert Exec(INIT, run + [step]) == Some(s');
  }

  /* ---- no call is stuck ---- */

  // While the read loop runs, a waiting call has its id in the table, a message in its channel,
  // or the reader holding its reply.  Once fail has taken the table, done is closed or about to
  // be closed by the reader's next step; this covers calls that registered after the swap.
  lemma NoStuckCall(s: State, t: CallId)
    requires Reachable(s) && t in s.calls && s.calls[t].pc.Waiting?
    ensures var call := s.calls[t];
            if PastSwap(s.reader) then s.done || s.reader.Swapped?
            else (call.id in s.table.pending && s.table.pending[call.id] == call.ch)
                 || (call.ch in s.chans && s.chans[call.ch].buffer.Some?)
                 || (s.reader.Delivering? && s.reader.ch == call.ch)
  {
    hide PendingOk, ChansOk, First;
    ReachableInv(s);
    assert CallOk(s, t);
  }

  // The reader never blocks on a send: whatever it is doing, its next step is enabled.
  lemma ReaderNeverBlocks(s: State)
    requires Reachable(s)
    ensures s.reader.Delivering? ==> Apply(s, Deliver).Some?
    ensures forall id :: s.reader.Draining? && id in s.reader.todo ==> Apply(s, DrainOne(id)).Some?
  {
    hide CallOk, PendingOk, ReaderOk, ChansOk, First, Apply;
    ReachableInv(s);
    if s.reader.Delivering? {
      DeliverKeeps(s);
    }
    forall id | s.reader.Draining? && id in s.reader.todo ensures Apply(s, DrainOne(id)).Some? {
      DrainKeeps(s, id);
    }
  }

  function ReaderSteps(run: seq<Step>): nat {
    if run == [] then 0 else (if OfReader(run[0]) then 1 else 0) + ReaderSteps(run[1..])
  }

  // What the reader still has to do before done is closed.
  function ReaderRank(r: Reader): nat { if r.Failing? then 2 else if r.Swapped? then 1 else 0 }

  predicate Dying(r: Reader) { r.Failing? || PastSwap(r) }

  lemma DyingStep(s: State, step: Step)
    requires Dying(s.reader) && Apply(s, step).Some?
    ensures var s' := Apply(s, step).value;
            && Dying(s'.reader) && (s.done ==> s'.done)
            && ReaderRank(s'.reader) <= ReaderRank(s.reader)
            && (OfReader(step) && ReaderRank(s.reader) > 0 ==> ReaderRank(s'.reader) < ReaderRank(s.reader))
  {
  }

  lemma {:induction false} DyingRun(s: State, run: seq<Step>)
    requires Inv(s) && Dying(s.reader) && Exec(s, run).Some? && ReaderSteps(run) >= ReaderRank(s.reader)
    ensures Exec(s, run).value.done
    decreases |run|
  {
    hide CallOk, PendingOk, ChansOk, Apply;
    if run != [] {
      InvStep(s, run[0]);
      DyingStep(s, run[0]);
      DyingRun(Apply(s, run[0]).value, run[1..]);
    }
  }

  // Death releases everyone: once the read loop has returned, two steps of the reader close
  // done, in any run, and from then on no waiting call is without a step.
  lemma DeathReleases(s: State, run: seq<Step>)
    requires Reachable(s) && Dying(s.reader) && Exec(s, run).Some? && ReaderSteps(run) >= 2
    ensures var s' := Exec(s, run).value;
            s'.done && forall t | t in s'.calls && s'.calls[t].pc.Waiting? :: Apply(s', SeeDone(t)).Some?
  {
    hide CallOk, PendingOk, ReaderOk, ChansOk;
    ReachableInv(s);
    DyingRun(s, run);
  }

  function PcRank(pc: Pc): nat {
    match pc
    case Start => 6
    case Ready => 5
    case Encoding => 4
    case Writing => 3
    case Waiting => 2
    case Leaving(_) => 1
    case _ => 0
  }

  lemma CallRank(s: State, step: Step, t: CallId)
    requires Apply(s, step).Some? && t in s.calls
    ensures var s' := Apply(s, step).value;
            t in s'.calls
            && (if OfCall(step) && step.t == t then PcRank(s'.calls[t].pc) < PcRank(s.calls[t].pc)
                  else s'.calls[t] == s.calls[t])
  {
    hide First;
  }

  // The number of steps of a run that a call takes.
  function StepsBy(run: seq<Step>, t: CallId): nat {
    if run == [] then 0 else (if OfCall(run[0]) && run[0].t == t then 1 else 0) + StepsBy(run[1..], t)
  }

  // No run lets one call take more than six steps, and one that has taken them all has returned.
  lemma {:induction false} CallsAreBounded(s: State, run: seq<Step>, t: CallId)
    requires t in s.calls && Exec(s, run).Some?
    ensures var s' := Exec(s, run).value;
            t in s'.calls && StepsBy(run, t) + PcRank(s'.calls[t].pc) <= PcRank(s.calls[t].pc) <= 6
            && (PcRank(s'.calls[t].pc) == 0 <==> s'.calls[t].pc.Finished? || s'.calls[t].pc.Refused?)
    decreases |run|
  {
    hide Apply;
    if run != [] {
      CallRank(s, run[0], t);
      CallsAreBounded(Apply(s, run[0]).value, run[1..], t);
    }
  }

  /* ---- what a call returns, and why ---- */

  predicate StepOf(step: Step, t: CallId) { OfCall(step) && step.t == t }

  // The steps of a run that a call takes.
  function Moves(run: seq<Step>, t: CallId): seq<Step> {
    if run == [] then []
    else
      var n := |run| - 1;
      Moves(run[..n], t) + if StepOf(run[n], t) then [run[n]] else []
  }

  lemma {:induction false} MovesOf(run: seq<Step>, step: Step, t: CallId)
    requires StepOf(step, t)
    ensures step in run <==> step in Moves(run, t)
  {
    if run != [] {
      var n := |run| - 1;
      MovesOf(run[..n], step, t);
      assert run == run[..n] + [run[n]];
    }
  }

  // The way through Call that ends where the call is.
  function Path(t: CallId, call: Call): seq<Step> {
    var tracked := [CheckAlive(t), Track(t, call.ch)];
    var sent := tracked + [EncodeOk(t), WriteOk(t)];
    match call.pc
    case Start => []
    case Ready => [CheckAlive(t)]
    case Refused => [CheckAlive(t)]
    case Encoding => tracked
    case Writing => tracked + [EncodeOk(t)]
    case Waiting => sent
    case Leaving(why) => PathOut(t, tracked, why)
    case Finished(why) => PathOut(t, tracked, why) + if why.Got? then [] else [Forget(t)]
  }

  function PathOut(t: CallId, tracked: seq<Step>, why: Outcome): seq<Step> {
    match why
    case EncodeError => tracked + [EncodeFail(t)]
    case WriteError => tracked + [EncodeOk(t), WriteFail(t)]
    case Cancelled => tracked + [EncodeOk(t), WriteOk(t), Cancel(t)]
    case Died => tracked + [EncodeOk(t), WriteOk(t), SeeDone(t)]
    case Got(_) => tracked + [EncodeOk(t), WriteOk(t), Receive(t)]
  }

  // A call that has its message does not pass through forgetCall.
  predicate NoReplyToForget(pc: Pc) { !(pc.Leaving? && pc.why.Got?) }

  lemma PathStep(s: State, step: Step, t: CallId)
    requires t in s.calls && Apply(s, step).Some? && StepOf(step, t) && NoReplyToForget(s.calls[t].pc)
    ensures var s' := Apply(s, step).value;
            t in s'.calls && NoReplyToForget(s'.calls[t].pc)
            && Path(t, s'.calls[t]) == Path(t, s.calls[t]) + [step]
  {
    hide First, Send;
  }

  lemma OthersStay(s: State, step: Step, t: CallId)
    requires Apply(s, step).Some? && !StepOf(step, t)
    ensures var s' := Apply(s, step).value;
            if t in s.calls then t in s'.calls && s'.calls[t] == s.calls[t]
            else t in s'.calls ==> s'.calls[t].pc.Start?
  {
    hide First;
  }

  lemma OwnStepKnown(s: State, step: Step, t: CallId)
    requires Apply(s, step).Some? && StepOf(step, t)
    ensures t in s.calls
  {
    hide CallStep;
  }

  // In every run a call's own steps are the one path through Call that ends where it is.
  lemma {:induction false} MovesArePath(run: seq<Step>, t: CallId)
    requires Exec(INIT, run).Some?
    ensures var s := Exec(INIT, run).value;
            if t in s.calls then Moves(run, t) == Path(t, s.calls[t]) && NoReplyToForget(s.calls[t].pc)
            else Moves(run, t) == []
    decreases |run|
  {
    hide Apply, Path, NoReplyToForget;
    if run == [] {
      assert INIT.calls == map[];
    } else {
      var n := |run| - 1;
      Runs.ExecLast(Apply, INIT, run);
      MovesArePath(run[..n], t);
      var s := Exec(INIT, run[..n]).value;
      if StepOf(run[n], t) {
        OwnStepKnown(s, run[n], t);
        PathStep(s, run[n], t);
      } else {
        OthersStay(s, run[n], t);
        StartPath(t);
      }
    }
  }

  lemma StartPath(t: CallId)
    ensures forall call: Call | call.pc.Start? :: Path(t, call) == [] && NoReplyToForget(call.pc)
  {
  }

  // A call that says the session died, or was refused because it had, is right.
  predicate DiedTruly(s: State) {
    forall t | t in s.calls :: s.calls[t].pc in {Refused, Leaving(Died), Finished(Died)} ==> s.done
  }

  lemma DiedTrulyStep(s: State, step: Step)
    requires DiedTruly(s) && Apply(s, step).Some?
    ensures DiedTruly(Apply(s, step).value)
  {
    hide First;
  }

  lemma {:induction false} DiedTrulyRun(s: State, run: seq<Step>)
    requires DiedTruly(s) && Exec(s, run).Some?
    ensures DiedTruly(Exec(s, run).value)
    decreases |run|
  {
    hide Apply, DiedTruly;
    if run != [] {
      DiedTrulyStep(s, run[0]);
      DiedTrulyRun(Apply(s, run[0]).value, run[1..]);
    }
  }

  // Which way out a path takes.
  lemma PathShows(t: CallId, call: Call)
    requires NoReplyToForget(call.pc)
    ensures var pc, path := call.pc, Path(t, call);
            && (EncodeFail(t) in path <==> pc in {Leaving(EncodeError), Finished(EncodeError)})
            && (WriteFail(t) in path <==> pc in {Leaving(WriteError), Finished(WriteError)})
            && (Cancel(t) in path <==> pc in {Leaving(Cancelled), Finished(Cancelled)})
            && (SeeDone(t) in path <==> pc in {Leaving(Died), Finished(Died)})
            && (Receive(t) in path <==> pc.Finished? && pc.outcome.Got?)
            && (Receive(t) in path || Forget(t) in path <==> pc.Finished?)
  {
  }

  /** Why a call returned what it returned, in every run: it reports the one thing that happened
      to it, a failed encode, a failed write, its own context, the end of the session or a
      message, and the session has ended if it says so or was refused. */
  lemma ReturnsForAReason(run: seq<Step>, t: CallId)
    requires Exec(INIT, run).Some? && t in Exec(INIT, run).value.calls
    ensures var s := Exec(INIT, run).value;
            var pc := s.calls[t].pc;
            && (pc in {Leaving(EncodeError), Finished(EncodeError)} <==> EncodeFail(t) in run)
            && (pc in {Leaving(WriteError), Finished(WriteError)} <==> WriteFail(t) in run)
            && (pc in {Leaving(Cancelled), Finished(Cancelled)} <==> Cancel(t) in run)
            && (pc in {Leaving(Died), Finished(Died)} <==> SeeDone(t) in run)
            && (pc.Finished? && pc.outcome.Got? <==> Receive(t) in run)
            && (pc in {Refused, Leaving(Died), Finished(Died)} ==> s.done)
            && (pc.Finished? <==> Receive(t) in run || Forget(t) in run)
  {
    hide Apply, Path, Moves, Exec;
    var call := Exec(INIT, run).value.calls[t];
    MovesArePath(run, t);
    PathShows(t, call);
    MovesOf(run, EncodeFail(t), t);
    MovesOf(run, WriteFail(t), t);
    MovesOf(run, Cancel(t), t);
    MovesOf(run, SeeDone(t), t);
    MovesOf(run, Receive(t), t);
    MovesOf(run, Forget(t), t);
    DiedTrulyRun(INIT, run);
  }

  /** What a waiting call can do: give up when its own context says so, leave exactly when done is
      closed, and receive exactly when a message is there. */
  lemma SelectExactly(s: State, step: Step, t: CallId)
    requires Reachable(s) && t in s.calls && s.calls[t].pc.Waiting? && StepOf(step, t)
    ensures s.calls[t].ch in s.chans
    ensures Apply(s, step).Some?
            <==> step.Cancel? || (step.SeeDone? && s.done)
                 || (step.Receive? && s.chans[s.calls[t].ch].buffer.Some?)
  {
    hide PendingOk, ReaderOk, ChansOk, First;
    ReachableInv(s);
    assert CallOk(s, t);
  }

  /** Which calls are held up: exactly those that have returned, and those that wait while done is
      open, their channel is empty and their context is not cancelled. */
  lemma CallsBlockExactly(s: State, t: CallId)
    requires Reachable(s) && t in s.calls
    ensures (exists step :: StepOf(step, t) && !step.Cancel? && Apply(s, step).Some?)
            <==> !s.calls[t].pc.Finished? && !s.calls[t].pc.Refused?
                 && (s.calls[t].pc.Waiting? ==>
                       s.done || (s.calls[t].ch in s.chans && s.chans[s.calls[t].ch].buffer.Some?))
  {
    hide Inv, First, Reachable;
    var ch := FreshChannel(s.chans.Keys);
    var step := match s.calls[t].pc
      case Start => CheckAlive(t)
      case Ready => Track(t, ch)
      case Encoding => EncodeOk(t)
      case Writing => WriteOk(t)
      case Waiting => if s.done then SeeDone(t) else Receive(t)
      case _ => Forget(t);
    assert StepOf(step, t) && !step.Cancel?;
    assert !s.calls[t].pc.Finished? && !s.calls[t].pc.Refused? && !s.calls[t].pc.Waiting? ==> Apply(s, step).Some?;
    if s.calls[t].pc.Waiting? {
      SelectExactly(s, step, t);
    }
  }

  /* ---- reply routing ---- */

  // Ids are never reused: calls stay in the history, and no two share an id or a channel.
  lemma IdsNeverReused(s: State, t: CallId, u: CallId)
    requires Reachable(s) && t in s.calls && u in s.calls && t != u
    requires !Untracked(s.calls[t].pc) && !Untracked(s.calls[u].pc)
    ensures s.calls[t].id != s.calls[u].id && s.calls[t].ch != s.calls[u].ch
  {
    hide PendingOk, ReaderOk, ChansOk, First;
    ReachableInv(s);
    assert CallOk(s, t) && CallOk(s, u);
  }

  lemma HistoryStep(s: State, step: Step, t: CallId)
    requires Apply(s, step).Some? && t in s.calls && !Untracked(s.calls[t].pc)
    ensures var s' := Apply(s, step).value;
            && t in s'.calls && !Untracked(s'.calls[t].pc)
            && s'.calls[t].(pc := s.calls[t].pc) == s.calls[t]
            && (s.calls[t].pc.Finished? ==> s'.calls[t] == s.calls[t])
            && s.arrived <= s'.arrived
  {
    hide First;
  }

  // Over any run the id, the channel and the registration point of a tracked call stay, and so
  // does what a finished call returned.
  lemma {:induction false} HistoryStays(s: State, run: seq<Step>, t: CallId)
    requires Exec(s, run).Some? && t in s.calls && !Untracked(s.calls[t].pc)
    ensures var s' := Exec(s, run).value;
            && t in s'.calls && !Untracked(s'.calls[t].pc)
            && s'.calls[t].(pc := s.calls[t].pc) == s.calls[t]
            && (s.calls[t].pc.Finished? ==> s'.calls[t] == s.calls[t])
            && s.arrived <= s'.arrived
    decreases |run|
  {
    hide Apply;
    if run != [] {
      HistoryStep(s, run[0], t);
      HistoryStays(Apply(s, run[0]).value, run[1..], t);
    }
  }

  // Each reply channel receives at most one message over any run.
  lemma OneMessagePerChannel(s: State, ch: ChanId)
    requires Reachable(s) && ch in s.chans
    ensures s.chans[ch].sent <= 1 && (s.chans[ch].buffer.Some? ==> s.chans[ch].sent == 1)
  {
    hide PendingOk, ReaderOk, First;
    ReachableInv(s);
    assert CallOk(s, s.chans[ch].owner);
  }

  // A call that returns a reply returns the first response with its id that arrived after it
  // registered; a call that is aborted had none.
  lemma ReplyRouting(s: State, t: CallId)
    requires Reachable(s) && t in s.calls && s.calls[t].pc.Finished? && s.calls[t].pc.outcome.Got?
    ensures var call := s.calls[t];
            var answer := First(s.arrived, call.since, call.id);
            && call.pc.outcome.message == (if answer.Some? then Reply(answer.value) else Aborted)
            && (answer.None? ==> PastSwap(s.reader))
  {
    hide PendingOk, ReaderOk, ChansOk, First;
    ReachableInv(s);
    assert CallOk(s, t);
  }

  // Responses for cancelled, unknown or repeated ids are dropped: they reach nobody.
  lemma DroppedResponse(s: State, r: Response)
    requires Reachable(s) && s.reader.Reading?
    requires forall t | t in s.calls && Some(s.calls[t].id) == r.id && InFlight(s.calls[t].pc) ::
            Answer(s, s.calls[t]).Some?
    ensures Apply(s, Dispatch(r)) == Some(s.(arrived := s.arrived + [r]))
  {
    hide CallOk, ReaderOk, ChansOk, First;
    ReachableInv(s);
    forall id | id in s.table.pending ensures r.id != Some(id) {
      assert SlotOk(s, id, s.table.pending[id]);
    }
  }

  /* ---- conservation of the table ---- */

  // The table holds ids of unfinished calls only, each with that call's own channel, and is
  // empty when no call is in flight.
  lemma PendingConserved(s: State)
    requires Reachable(s)
    ensures forall id | id in s.table.pending ::
              exists t :: t in s.calls && s.calls[t].id == id
                          && s.calls[t].ch == s.table.pending[id] && InFlight(s.calls[t].pc)
    ensures (forall t | t in s.calls :: !InFlight(s.calls[t].pc)) ==> s.table.pending == map[]
  {
    hide CallOk, ReaderOk, ChansOk, First;
    ReachableInv(s);
    forall id | id in s.table.pending
      ensures exists t :: t in s.calls && s.calls[t].id == id
                          && s.calls[t].ch == s.table.pending[id] && InFlight(s.calls[t].pc)
    {
      assert SlotOk(s, id, s.table.pending[id]);
    }
  }

  // While the read loop runs, the table lists exactly the unanswered calls that still expect a reply.
  lemma PendingExactly(s: State, t: CallId)
    requires Reachable(s) && s.reader.Reading? && t in s.calls && Expecting(s.calls[t].pc)
    ensures s.calls[t].id in s.table.pending <==> First(s.arrived, s.calls[t].since, s.calls[t].id).None?
  {
    hide ChansOk, First;
    ReachableInv(s);
    assert CallOk(s, t);
  }

  /* ---- who can still register, and who is never served ---- */

  predicate Tracked(s: State, t: CallId) { t in s.calls && !Untracked(s.calls[t].pc) }

  // A call the Alive check has turned away, or still has to turn away.
  predicate Barred(s: State, t: CallId) {
    if t in s.calls then s.calls[t].pc.Refused? || (s.done && s.calls[t].pc.Start?) else s.done
  }

  lemma BarredStep(s: State, step: Step, t: CallId)
    requires Barred(s, t) && Apply(s, step).Some?
    ensures Barred(Apply(s, step).value, t)
  {
    hide First;
  }

  lemma {:induction false} BarredRun(s: State, run: seq<Step>, t: CallId)
    requires Barred(s, t) && Exec(s, run).Some?
    ensures Barred(Exec(s, run).value, t)
    decreases |run|
  {
    hide Apply, Barred;
    if run != [] {
      BarredStep(s, run[0], t);
      BarredRun(Apply(s, run[0]).value, run[1..], t);
    }
  }

  // The steps that register a call from where it is.
  function Registration(s: State, t: CallId, ch: ChanId): seq<Step> {
    if t !in s.calls then [NewCall(t), CheckAlive(t), Track(t, ch)]
    else if s.calls[t].pc.Start? then [CheckAlive(t), Track(t, ch)]
    else [Track(t, ch)]
  }

  lemma RegistrationRuns(s: State, t: CallId, ch: ChanId)
    requires !Tracked(s, t) && !Barred(s, t) && ch !in s.chans
    ensures var end := Exec(s, Registration(s, t, ch)); end.Some? && Tracked(end.value, t)
    decreases |Registration(s, t, ch)|
  {
    hide First, Send, DispatchStep;
    if t !in s.calls {
      var run := [NewCall(t), CheckAlive(t), Track(t, ch)];
      var s1 := Apply(s, run[0]).value;
      assert run[1..] == Registration(s1, t, ch);
      RegistrationRuns(s1, t, ch);
    } else if s.calls[t].pc.Start? {
      var run := [CheckAlive(t), Track(t, ch)];
      var s1 := Apply(s, run[0]).value;
      assert run[1..] == Registration(s1, t, ch);
      RegistrationRuns(s1, t, ch);
    } else {
      var run := [Track(t, ch)];
      var s1 := Apply(s, run[0]).value;
      assert run[1..] == [] && Exec(s1, []) == Some(s1);
    }
  }

  lemma {:induction false} FreshChannel(keys: set<ChanId>) returns (ch: ChanId)
    ensures forall k | k in keys :: k < ch
  {
    if keys == {} {
      ch := 0;
    } else {
      var k :| k in keys;
      var below := FreshChannel(keys - {k});
      ch := if below > k then below else k + 1;
      assert keys == (keys - {k}) + {k};
    }
  }

  /** Which calls can still register, in any state and so after the read loop has exited: exactly
      those past the Alive check and, until done is closed, those that have not reached it. */
  lemma RegistersExactly(s: State, t: CallId)
    requires !Tracked(s, t)
    ensures (exists run :: Exec(s, run).Some? && Tracked(Exec(s, run).value, t))
            <==> if t in s.calls then s.calls[t].pc.Ready? || (!s.done && s.calls[t].pc.Start?) else !s.done
  {
    if Barred(s, t) {
      forall run | Exec(s, run).Some? ensures !Tracked(Exec(s, run).value, t) {
        BarredRun(s, run, t);
      }
    } else {
      var ch := FreshChannel(s.chans.Keys);
      RegistrationRuns(s, t, ch);
    }
  }

  // Over no further run is anything sent into the channel.
  ghost predicate NeverServed(s: State, ch: ChanId) {
    forall run | Exec(s, run).Some? :: ch in Exec(s, run).value.chans && Exec(s, run).value.chans[ch].sent == 0
  }

  // A dead reader has nothing left for the channel.
  predicate Unserved(s: State, ch: ChanId) {
    && PastSwap(s.reader) && ch in s.chans && s.chans[ch].sent == 0 && s.chans[ch].buffer.None?
    && forall id | id in Todo(s.reader) :: Todo(s.reader)[id] != ch
  }

  lemma UnservedStep(s: State, step: Step, ch: ChanId)
    requires Unserved(s, ch) && Apply(s, step).Some?
    ensures Unserved(Apply(s, step).value, ch)
  {
    hide First;
    var s' := Apply(s, step).value;
    assert step.DrainOne? ==> step.id in Todo(s.reader) && Todo(s.reader)[step.id] != ch;
    assert ch in s'.chans && s'.chans[ch] == s.chans[ch];
    assert forall id | id in Todo(s'.reader) :: id in Todo(s.reader) && Todo(s'.reader)[id] == Todo(s.reader)[id];
  }

  lemma {:induction false} UnservedRun(s: State, run: seq<Step>, ch: ChanId)
    requires Unserved(s, ch) && Exec(s, run).Some?
    ensures Unserved(Exec(s, run).value, ch)
    decreases |run|
  {
    hide Apply, Unserved;
    if run != [] {
      UnservedStep(s, run[0], ch);
      UnservedRun(Apply(s, run[0]).value, run[1..], ch);
    }
  }

  /** A call that registered after fail had taken the table gets no message over any further run;
      only done or its own context releases it. */
  lemma LateCallsGetNothing(s: State, id: Id)
    requires Reachable(s) && PastSwap(s.reader) && id in s.table.pending
    ensures s.table.pending[id] in s.chans && s.chans[s.table.pending[id]].buffer.None?
    ensures NeverServed(s, s.table.pending[id])
  {
    hide CallOk, ChansOk, First, Apply;
    ReachableInv(s);
    var ch := s.table.pending[id];
    assert SlotOk(s, id, ch);
    forall i | i in Todo(s.reader) ensures Todo(s.reader)[i] != ch {
      SlotsApart(s, i, Todo(s.reader)[i], id, ch);
    }
    forall run | Exec(s, run).Some? ensures Unserved(Exec(s, run).value, ch) {
      UnservedRun(s, run, ch);
    }
  }

  /* ---- two schedules worth knowing ---- */

  // A call can register after fail has taken the table: it waits under its id in the new table,
  // its channel is empty and stays so over every further run.
  lemma LateRegistration()
    ensures exists s :: Reachable(s) && s.reader.Exited? && 0 in s.calls && s.calls[0].pc.Waiting?
                        && s.calls[0].id == 1 && s.table.pending == map[1 := s.calls[0].ch]
                        && s.calls[0].ch in s.chans && s.chans[s.calls[0].ch] == Chan(0, None, 0)
                        && NeverServed(s, s.calls[0].ch)
  {
    hide First, CallStep, NeverServed;
    var s := TrackedLate();
    s := Advance(s, CloseDone);
    s := Advance(s, Exit);
    s := SentRequest(s);
    LateCallsGetNothing(s, 1);
  }

  lemma ReadyCall(s0: State) returns (s: State)
    requires Reachable(s0) && s0.calls == map[] && !s0.done
    ensures Reachable(s) && s == s0.(calls := map[0 := Call(Ready, 0, 0, 0)])
  {
    hide DispatchStep, TrackStep, Send;
    s := Advance(s0, NewCall(0));
    s := Advance(s, CheckAlive(0));
  }

  lemma SwappedReader(s0: State) returns (s: State)
    requires Reachable(s0) && s0.reader.Reading?
    ensures Reachable(s) && s == s0.(table := s0.table.(pending := map[]), reader := Swapped(s0.table.pending))
  {
    hide CallStep, DispatchStep, Send;
    s := Advance(s0, Die);
    s := Advance(s, Swap);
  }

  lemma TrackedLate() returns (s: State)
    ensures Reachable(s)
    ensures s == State(Table(1, map[1 := 0]), [0], map[0 := Chan(0, None, 0)], map[0 := Call(Encoding, 1, 0, 0)],
                       Swapped(map[]), false, [])
  {
    hide DispatchStep, Send;
    assert Exec(INIT, []) == Some(INIT);
    s := ReadyCall(INIT);
    s := SwappedReader(s);
    s := Advance(s, Track(0, 0));
    assert s.calls == map[0 := Call(Encoding, 1, 0, 0)];
  }

  lemma SentRequest(s0: State) returns (s: State)
    requires Reachable(s0) && 0 in s0.calls && s0.calls[0].pc.Encoding?
    ensures Reachable(s) && s == Goto(s0, 0, Waiting)
  {
    hide DispatchStep, TrackStep, Send;
    s := Advance(s0, EncodeOk(0));
    s := Advance(s, WriteOk(0));
    assert s.calls == s0.calls[0 := s0.calls[0].(pc := Waiting)];
  }

  // A response can carry an id before the call with that id registers; it is dropped, and the
  // call still waits.
  lemma EarlyResponse()
    ensures exists s :: Reachable(s) && 0 in s.calls && s.calls[0].pc.Waiting?
                        && Response(Some(s.calls[0].id), "early") in s.arrived
                        && First(s.arrived, s.calls[0].since, s.calls[0].id).None?
  {
    hide Send;
    assert Exec(INIT, []) == Some(INIT);
    var r := Response(Some(1), "early");
    var s := Advance(INIT, Dispatch(r));
    s := ReadyCall(s);
    s := Advance(s, Track(0, 0));
    s := SentRequest(s);
    assert s.arrived == [r] && s.calls[0].since == 1;
  }
}
