/** The elicitation hand-off as a state machine: a waiter with a deadline races callers that
    claim its request, persist a message and submit. Each step is one atomic section of the
    source, between two awaits or under one lock. */
module ElicitationSteps {
  import opened Text

  type SessionId = string
  type RequestId = nat
  type CallId = nat

  datatype Response = Accept(value: string) | Decline | Cancel

  /** `response_tx`: in its slot, taken out by a call's submit, or dropped. */
  datatype Sender = InPlace | TakenBy(call: CallId) | Dropped

  /** The one-shot channel as the receiver sees it. */
  datatype Channel = Open | Holds(value: Response) | Closed

  datatype Holder = Timer | Caller(call: CallId)

  datatype WaitResult = Answered(value: Response) | Timeout | ChannelClosed

  /** Where `request_and_wait` is; `Cancelled` is a dropped future. */
  datatype Waiter =
    | Registered
    | Waiting
    | DeadlinePassed
    | Deciding
    | Draining
    | Finished(result: WaitResult)
    | Returned(result: WaitResult)
    | Cancelled
  {
    /** The receiving end of the channel exists. */
    predicate Listens() {
      !Finished? && !Returned? && !Cancelled?
    }
  }

  datatype Request = Request(
    session: SessionId, sender: Sender, channel: Channel, lock: Option<Holder>, waiter: Waiter)

  datatype CallResult =
    | Delivered
    | NotFound
    | WrongSession
    | AlreadyCompleted
    | ReceiverGone
    | PersistFailed
    | ClaimDropped
    | NothingToSubmit
    | SendFailed

  /** Where a call of `complete_elicitation_with_message` is. */
  datatype Stage =
    | Starting
    | Found
    | Locked
    | Claimed
    | Persisted
    | Sending
    | Done(result: CallResult)

  datatype Call = Call(session: SessionId, request: RequestId, response: Response, stage: Stage)

  datatype State = State(
    pending: set<RequestId>,
    requests: map<RequestId, Request>,
    calls: map<CallId, Call>,
    persisted: seq<CallId>,
    queued: map<SessionId, seq<RequestId>>,
    enqueued: map<SessionId, seq<RequestId>>,
    drained: map<SessionId, seq<RequestId>>)

  const INITIAL := State({}, map[], map[], [], map[], map[], map[])

  datatype Step =
    // request_and_wait
    | Register(id: RequestId, session: SessionId)
    | Enqueue(id: RequestId)
    | Receive(id: RequestId)
    | SeeClosed(id: RequestId)
    | PassDeadline(id: RequestId)
    | TimerLocks(id: RequestId)
    | TimerDecides(id: RequestId)
    | Unregister(id: RequestId)
    | CancelWaiter(id: RequestId)
    // complete_elicitation_with_message
    | Begin(call: CallId, session: SessionId, request: RequestId, response: Response)
    | LookUp(call: CallId)
    | CallLocks(call: CallId)
    | CheckClaim(call: CallId)
    | PersistOk(call: CallId)
    | PersistFails(call: CallId)
    | DropClaim(call: CallId)
    | TakeSender(call: CallId)
    | Send(call: CallId)
    // drain_requests_for_session
    | Drain(session: SessionId)

  function At(m: map<SessionId, seq<RequestId>>, s: SessionId): seq<RequestId> {
    if s in m then m[s] else []
  }

  function SetRequest(s: State, id: RequestId, r: Request): State {
    s.(requests := s.requests[id := r])
  }

  function SetStage(s: State, c: CallId, stage: Stage): State
    requires c in s.calls
  {
    s.(calls := s.calls[c := s.calls[c].(stage := stage)])
  }

  /** What a waiter's step does to its request; `None` if the step is not possible. */
  function WaiterEffect(r: Request, step: Step): Option<Request> {
    match step
    case Enqueue(_) =>
      if r.waiter.Registered? then Some(r.(waiter := Waiting)) else None
    case Receive(_) =>
      if (r.waiter.Waiting? || r.waiter.Draining?) && r.channel.Holds? then
        Some(r.(waiter := Finished(Answered(r.channel.value))))
      else None
    case SeeClosed(_) =>
      if (r.waiter.Waiting? || r.waiter.Draining?) && r.channel.Closed? then
        Some(r.(waiter := Finished(ChannelClosed)))
      else None
    case PassDeadline(_) =>
      if r.waiter.Waiting? then Some(r.(waiter := DeadlinePassed)) else None
    case TimerLocks(_) =>
      if r.waiter.DeadlinePassed? && r.lock.None? then Some(r.(waiter := Deciding, lock := Some(Timer))) else None
    case TimerDecides(_) =>
      if !r.waiter.Deciding? then None
      else if r.sender.InPlace? then
        Some(r.(sender := Dropped, channel := Closed, lock := None, waiter := Finished(Timeout)))
      else Some(r.(lock := None, waiter := Draining))
    case Unregister(_) =>
      if r.waiter.Finished? then Some(r.(waiter := Returned(r.waiter.result))) else None
    case CancelWaiter(_) =>
      if r.waiter.Listens() then
        Some(r.(waiter := Cancelled, lock := if r.waiter.Deciding? then None else r.lock))
      else None
    case _ => None
  }

  /** The waiter's steps. A step that is not possible leaves the state alone. */
  function WaiterStep(s: State, id: RequestId, step: Step): State
    requires id in s.requests
  {
    match WaiterEffect(s.requests[id], step)
    case None => s
    case Some(r) =>
      var t := SetRequest(s, id, r);
      if step.Enqueue? then
        t.(queued := s.queued[r.session := At(s.queued, r.session) + [id]],
           enqueued := s.enqueued[r.session := At(s.enqueued, r.session) + [id]])
      else if step.Unregister? then t.(pending := s.pending - {id})
      else t
  }

  /** What a step of a call does to its request and its stage. */
  datatype Effect = Stay | Move(request: Request, stage: Stage)

  function CallEffect(r: Request, call: Call, c: CallId, step: Step): Effect {
    match step
    case CallLocks(_) =>
      if call.stage.Found? && r.lock.None? then Move(r.(lock := Some(Caller(c))), Locked) else Stay
    case CheckClaim(_) =>
      if !call.stage.Locked? then Stay
      else if r.session != call.session then Move(r.(lock := None), Done(WrongSession))
      else if !r.sender.InPlace? then Move(r.(lock := None), Done(AlreadyCompleted))
      else if !r.waiter.Listens() then
        Move(r.(lock := None, sender := Dropped, channel := Closed), Done(ReceiverGone))
      else Move(r, Claimed)
    case PersistOk(_) =>
      if call.stage.Claimed? then Move(r, Persisted) else Stay
    case PersistFails(_) =>
      if call.stage.Claimed? then Move(r.(lock := None), Done(PersistFailed)) else Stay
    case DropClaim(_) =>
      if call.stage.Claimed? then Move(r.(lock := None), Done(ClaimDropped)) else Stay
    case TakeSender(_) =>
      if !call.stage.Claimed? && !call.stage.Persisted? then Stay
      else if r.sender.InPlace? then Move(r.(lock := None, sender := TakenBy(c)), Sending)
      else Move(r.(lock := None), Done(NothingToSubmit))
    case Send(_) =>
      if !call.stage.Sending? then Stay
      else if r.waiter.Listens() then Move(r.(channel := Holds(call.response)), Done(Delivered))
      else Move(r.(channel := Closed), Done(SendFailed))
    case _ => Stay
  }

  /** The steps of a call whose request was found. */
  function CallStep(s: State, c: CallId, step: Step): State
    requires c in s.calls && s.calls[c].request in s.requests
  {
    var id := s.calls[c].request;
    match CallEffect(s.requests[id], s.calls[c], c, step)
    case Stay => s
    case Move(r, stage) =>
      SetStage(SetRequest(s, id, r), c, stage)
        .(persisted := if stage.Persisted? then s.persisted + [c] else s.persisted)
  }

  function Next(s: State, step: Step): State {
    match step
    case Register(id, session) =>
      if id in s.requests then s
      else SetRequest(s, id, Request(session, InPlace, Open, None, Registered)).(pending := s.pending + {id})
    case Begin(c, session, request, response) =>
      if c in s.calls then s
      else s.(calls := s.calls[c := Call(session, request, response, Starting)])
    case LookUp(c) =>
      if c in s.calls && s.calls[c].stage.Starting? then
        SetStage(s, c, if s.calls[c].request in s.pending then Found else Done(NotFound))
      else s
    case Drain(session) =>
      s.(queued := s.queued - {session},
         drained := s.drained[session := At(s.drained, session) + At(s.queued, session)])
    case CallLocks(c) => OfCall(s, c, step)
    case CheckClaim(c) => OfCall(s, c, step)
    case PersistOk(c) => OfCall(s, c, step)
    case PersistFails(c) => OfCall(s, c, step)
    case DropClaim(c) => OfCall(s, c, step)
    case TakeSender(c) => OfCall(s, c, step)
    case Send(c) => OfCall(s, c, step)
    case _ => if step.id in s.requests then WaiterStep(s, step.id, step) else s
  }

  function OfCall(s: State, c: CallId, step: Step): State {
    if c in s.calls && s.calls[c].request in s.requests then CallStep(s, c, step) else s
  }

  /** Any interleaving whatsoever. */
  function Exec(s: State, steps: seq<Step>): State
    decreases |steps|
  {
    if steps == [] then s else Exec(Next(s, steps[0]), steps[1..])
  }

  lemma {:induction false} ExecAppend(s: State, a: seq<Step>, b: seq<Step>)
    ensures Exec(s, a + b) == Exec(Exec(s, a), b)
    decreases |a|
  {
    if a == [] {
      assert a + b == b;
    } else {
      assert (a + b)[1..] == a[1..] + b;
      ExecAppend(Next(s, a[0]), a[1..], b);
    }
  }
}
