/** What the result of a call says about its request, in every interleaving. */
module ElicitationReasons {
  import opened Text
  import opened ElicitationSteps
  import opened Elicitation

  /** The call came too late or to the wrong place exactly as its result says; any other call that got
      past the claim belongs to the session of the request. */
  predicate ReasonHolds(call: Call, r: Request) {
    match call.stage
    case Done(WrongSession) => call.session != r.session
    case Done(AlreadyCompleted) => call.session == r.session && !r.sender.InPlace?
    case Done(ReceiverGone) => call.session == r.session && r.waiter.Cancelled? && r.sender.Dropped?
    case Done(Delivered) => call.session == r.session && r.channel == Holds(call.response)
    case Done(SendFailed) => call.session == r.session && r.waiter.Cancelled?
    case Done(_) => call.session == r.session
    case Claimed => call.session == r.session
    case Persisted => call.session == r.session
    case Sending => call.session == r.session && !r.sender.InPlace?
    case _ => true
  }

  predicate HasRequest(call: Call) {
    !call.stage.Starting? && call.stage != Done(NotFound)
  }

  ghost predicate ReasonsHold(s: State) {
    forall c | c in s.calls && HasRequest(s.calls[c]) ::
      s.calls[c].request in s.requests && ReasonHolds(s.calls[c], s.requests[s.calls[c].request])
  }

  /** The request has moved on, if at all, without taking anything back. */
  predicate MovedOn(a: Request, b: Request) {
    && b.session == a.session
    && (!a.sender.InPlace? ==> !b.sender.InPlace?) && (a.sender.Dropped? ==> b.sender.Dropped?)
    && (a.waiter.Cancelled? ==> b.waiter.Cancelled?)
    && (a.channel.Holds? ==> b.channel == a.channel)
  }

  lemma {:induction false} ReasonsStay(call: Call, a: Request, b: Request)
    requires ReasonHolds(call, a) && MovedOn(a, b)
    ensures ReasonHolds(call, b)
  {
  }

  lemma {:induction false} EffectMovesOn(r: Request, id: RequestId, calls: map<CallId, Call>, c: CallId, step: Step)
    requires RequestInv(r, id, calls) && c in calls && calls[c].request == id && CallInv(calls[c], c, r)
    ensures var e := CallEffect(r, calls[c], c, step); e.Move? ==> MovedOn(r, e.request)
  {
  }

  lemma {:induction false} EffectHasItsReason(
    r: Request, id: RequestId, calls: map<CallId, Call>, c: CallId, step: Step)
    requires RequestInv(r, id, calls) && c in calls && calls[c].request == id && CallInv(calls[c], c, r)
    requires ReasonHolds(calls[c], r)
    ensures var e := CallEffect(r, calls[c], c, step);
      e.Move? && HasRequest(calls[c].(stage := e.stage)) ==> ReasonHolds(calls[c].(stage := e.stage), e.request)
  {
  }

  lemma {:induction false} WaiterMovesOn(r: Request, id: RequestId, calls: map<CallId, Call>, step: Step)
    requires RequestInv(r, id, calls)
    ensures var e := WaiterEffect(r, step); e.Some? ==> MovedOn(r, e.value)
  {
  }

  /** One request moves on, and perhaps one of its calls. */
  lemma {:induction false} ReasonsAfter(s: State, t: State, id: RequestId, mover: Option<CallId>)
    requires ReasonsHold(s) && id in s.requests && id in t.requests && MovedOn(s.requests[id], t.requests[id])
    requires t.requests == s.requests[id := t.requests[id]] && t.calls.Keys == s.calls.Keys
    requires forall c | c in s.calls && mover != Some(c) :: t.calls[c] == s.calls[c]
    requires mover.Some? ==>
               var c := mover.value;
               && c in t.calls && t.calls[c].request == id
               && (HasRequest(t.calls[c]) ==> ReasonHolds(t.calls[c], t.requests[id]))
    ensures ReasonsHold(t)
  {
    forall c | c in t.calls && HasRequest(t.calls[c])
      ensures t.calls[c].request in t.requests && ReasonHolds(t.calls[c], t.requests[t.calls[c].request])
    {
      if mover != Some(c) && t.calls[c].request == id { ReasonsStay(s.calls[c], s.requests[id], t.requests[id]); }
    }
  }

  lemma {:induction false} OfCallKeepsReasons(s: State, c: CallId, step: Step)
    requires RequestsInv(s) && CallsInv(s) && ReasonsHold(s)
    ensures ReasonsHold(OfCall(s, c, step))
  {
    if c in s.calls && s.calls[c].request in s.requests {
      var id := s.calls[c].request;
      var r := s.requests[id];
      var e := CallEffect(r, s.calls[c], c, step);
      if e.Move? {
        assert RequestInv(r, id, s.calls) && HasRequest(s.calls[c]) && CallInv(s.calls[c], c, r);
        assert ReasonHolds(s.calls[c], r);
        EffectMovesOn(r, id, s.calls, c, step);
        EffectHasItsReason(r, id, s.calls, c, step);
        MovedCallKeepsReasons(s, c, step, e.request, e.stage);
      }
    }
  }

  lemma {:induction false} MovedCallKeepsReasons(s: State, c: CallId, step: Step, r: Request, stage: Stage)
    requires ReasonsHold(s) && c in s.calls && s.calls[c].request in s.requests
    requires CallEffect(s.requests[s.calls[c].request], s.calls[c], c, step) == Move(r, stage)
    requires MovedOn(s.requests[s.calls[c].request], r)
    requires HasRequest(s.calls[c].(stage := stage)) ==> ReasonHolds(s.calls[c].(stage := stage), r)
    ensures ReasonsHold(CallStep(s, c, step))
  {
    var id, t := s.calls[c].request, CallStep(s, c, step);
    assert t.requests == s.requests[id := r] && t.calls == s.calls[c := s.calls[c].(stage := stage)];
    ReasonsAfter(s, t, id, Some(c));
  }

  lemma {:induction false} WaiterStepKeepsReasons(s: State, id: RequestId, step: Step)
    requires RequestsInv(s) && ReasonsHold(s) && id in s.requests
    ensures ReasonsHold(WaiterStep(s, id, step))
  {
    var t := WaiterStep(s, id, step);
    var e := WaiterEffect(s.requests[id], step);
    if e.Some? {
      WaiterMovesOn(s.requests[id], id, s.calls, step);
      assert t.requests == s.requests[id := e.value] && t.calls == s.calls;
      ReasonsAfter(s, t, id, None);
    }
  }

  lemma {:induction false} BeginningsKeepReasons(s: State, step: Step)
    requires RegistryInv(s) && ReasonsHold(s) && (step.Begin? || step.LookUp?)
    ensures ReasonsHold(Next(s, step))
  {
    var t := Next(s, step);
    assert t.requests == s.requests;
    forall c | c in t.calls && HasRequest(t.calls[c])
      ensures t.calls[c].request in t.requests && ReasonHolds(t.calls[c], t.requests[t.calls[c].request])
    {
      if c in s.calls && HasRequest(s.calls[c]) { assert s.calls[c].request in s.requests; }
    }
  }

  lemma {:induction false} OtherRequestsKeepReasons(s: State, step: Step)
    requires ReasonsHold(s) && (step.Register? || step.Drain?)
    ensures ReasonsHold(Next(s, step))
  {
    var t := Next(s, step);
    assert t.calls == s.calls;
    assert forall id | id in s.requests :: id in t.requests && t.requests[id] == s.requests[id];
  }

  lemma {:induction false} NextKeepsReasons(s: State, step: Step)
    requires Inv(s) && ReasonsHold(s)
    ensures ReasonsHold(Next(s, step))
  {
    match step
    case CallLocks(c) => OfCallKeepsReasons(s, c, step);
    case CheckClaim(c) => OfCallKeepsReasons(s, c, step);
    case PersistOk(c) => OfCallKeepsReasons(s, c, step);
    case PersistFails(c) => OfCallKeepsReasons(s, c, step);
    case DropClaim(c) => OfCallKeepsReasons(s, c, step);
    case TakeSender(c) => OfCallKeepsReasons(s, c, step);
    case Send(c) => OfCallKeepsReasons(s, c, step);
    case Register(_, _) => OtherRequestsKeepReasons(s, step);
    case Begin(_, _, _, _) => BeginningsKeepReasons(s, step);
    case LookUp(_) => BeginningsKeepReasons(s, step);
    case Drain(_) => OtherRequestsKeepReasons(s, step);
    case _ => if step.id in s.requests { WaiterStepKeepsReasons(s, step.id, step); }
  }

  lemma {:induction false} ExecKeepsReasons(s: State, steps: seq<Step>)
    requires Inv(s) && ReasonsHold(s)
    ensures ReasonsHold(Exec(s, steps))
    decreases |steps|
  {
    if steps != [] {
      NextKeepsInv(s, steps[0]);
      NextKeepsReasons(s, steps[0]);
      ExecKeepsReasons(Next(s, steps[0]), steps[1..]);
    }
  }

  /** Main: in every interleaving the result of a call tells the truth about its request. */
  lemma {:induction false} ResultsTellTheTruth(steps: seq<Step>, c: CallId)
    requires var s := Exec(INITIAL, steps); c in s.calls && HasRequest(s.calls[c])
    ensures var s := Exec(INITIAL, steps);
      s.calls[c].request in s.requests && ReasonHolds(s.calls[c], s.requests[s.calls[c].request])
  {
    InitialInv();
    ExecKeepsReasons(INITIAL, steps);
  }

  /** A look-up finds just the requests whose waiter has not returned. */
  lemma {:induction false} LookUpFindsTheWaiting(steps: seq<Step>, c: CallId)
    requires var s := Exec(INITIAL, steps); c in s.calls && s.calls[c].stage.Starting?
    ensures var s := Exec(INITIAL, steps); var id := s.calls[c].request; var t := Next(s, LookUp(c));
      t.calls[c].stage
      == if id in s.requests && !s.requests[id].waiter.Returned? then Found else Done(NotFound)
  {
    EveryInterleavingKeepsInv(steps);
  }

  /** The reason a call with a claim gives up, and that nothing of it was persisted. */
  lemma {:induction false} GivingUpSaysWhy(steps: seq<Step>, c: CallId)
    requires var s := Exec(INITIAL, steps); c in s.calls && s.calls[c].stage.Claimed?
    ensures var s := Exec(INITIAL, steps);
      && Next(s, PersistFails(c)).calls[c].stage == Done(PersistFailed)
      && Next(s, DropClaim(c)).calls[c].stage == Done(ClaimDropped)
      && Next(s, PersistOk(c)).calls[c].stage == Persisted && c in Next(s, PersistOk(c)).persisted
      && c !in s.persisted
  {
    var s := Exec(INITIAL, steps);
    assert Inv(s) by { EveryInterleavingKeepsInv(steps); }
    ClaimedGivesUp(s, c);
  }

  lemma {:induction false} ClaimedGivesUp(s: State, c: CallId)
    requires Inv(s) && c in s.calls && s.calls[c].stage.Claimed?
    ensures Next(s, PersistFails(c)).calls[c].stage == Done(PersistFailed)
    ensures Next(s, DropClaim(c)).calls[c].stage == Done(ClaimDropped)
    ensures Next(s, PersistOk(c)).calls[c].stage == Persisted && c in Next(s, PersistOk(c)).persisted
    ensures c !in s.persisted
  {
    assert PersistedBy(s.persisted, s.calls);
    var r := s.requests[s.calls[c].request];
    assert CallInv(s.calls[c], c, r);
    var t := Next(s, PersistOk(c));
    assert t.persisted[|s.persisted|] == c;
  }
}
