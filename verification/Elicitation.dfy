/** What holds in every interleaving of the elicitation hand-off. */
module Elicitation {
  import opened Text
  import opened ElicitationSteps

  // ---------------------------------------------------------------------------
  // The invariant
  // ---------------------------------------------------------------------------

  predicate HoldsLock(stage: Stage) {
    stage.Locked? || stage.Claimed? || stage.Persisted?
  }

  /** The stages of a call that took the sender out of its slot. */
  predicate TookSender(stage: Stage) {
    stage.Sending? || stage == Done(Delivered) || stage == Done(SendFailed)
  }

  /** What a request guarantees, given the calls. */
  predicate RequestInv(r: Request, id: RequestId, calls: map<CallId, Call>) {
    && (r.lock == Some(Timer) <==> r.waiter.Deciding?)
    && (r.lock.Some? && r.lock.value.Caller? ==>
          var c := r.lock.value.call;
          c in calls && calls[c].request == id && HoldsLock(calls[c].stage))
    && (match r.sender
        case InPlace => r.channel.Open? && (r.waiter.Listens() || r.waiter.Cancelled?)
        case TakenBy(c) => c in calls && calls[c].request == id && TookSender(calls[c].stage)
        case Dropped => r.channel.Closed?)
    && (r.channel.Closed? ==> !r.waiter.Listens())
    && (r.waiter.Finished? || r.waiter.Returned? ==>
          (r.waiter.result == Timeout && r.sender.Dropped?)
          || (r.waiter.result.Answered? && r.channel == Holds(r.waiter.result.value)))
  }

  /** What a call guarantees, given its request. */
  predicate CallInv(call: Call, c: CallId, r: Request) {
    && (HoldsLock(call.stage) ==> r.lock == Some(Caller(c)))
    && (call.stage.Claimed? || call.stage.Persisted? ==> r.sender.InPlace?)
    && (TookSender(call.stage) ==> r.sender == TakenBy(c))
    && (call.stage.Claimed? || call.stage.Persisted? || TookSender(call.stage) ==> call.session == r.session)
    && (call.stage.Sending? ==> r.channel.Open? && (r.waiter.Listens() || r.waiter.Cancelled?))
    && (call.stage == Done(Delivered) ==> r.channel == Holds(call.response))
    && (call.stage == Done(SendFailed) ==> r.waiter.Cancelled? && r.channel.Closed?)
    && (call.stage == Done(ReceiverGone) ==> r.waiter.Cancelled?)
    && call.stage != Done(NothingToSubmit)
  }

  ghost predicate RequestsInv(s: State) {
    forall id | id in s.requests :: RequestInv(s.requests[id], id, s.calls)
  }

  ghost predicate CallsInv(s: State) {
    forall c | c in s.calls && !s.calls[c].stage.Starting? && s.calls[c].stage != Done(NotFound) ::
      s.calls[c].request in s.requests && CallInv(s.calls[c], c, s.requests[s.calls[c].request])
  }

  ghost predicate RegistryInv(s: State) {
    forall id :: id in s.pending <==> id in s.requests && !s.requests[id].waiter.Returned?
  }

  /** Each persisted message belongs to one call, which holds the lock or took the sender. */
  ghost predicate PersistedInv(s: State) {
    PersistedBy(s.persisted, s.calls)
  }

  ghost predicate PersistedBy(persisted: seq<CallId>, calls: map<CallId, Call>) {
    && (forall i | 0 <= i < |persisted| ::
          var c := persisted[i];
          c in calls && (calls[c].stage.Persisted? || TookSender(calls[c].stage)))
    && (forall i, j | 0 <= i < j < |persisted| :: persisted[i] != persisted[j])
  }

  ghost predicate QueueInv(s: State) {
    forall x: SessionId :: At(s.enqueued, x) == At(s.drained, x) + At(s.queued, x)
  }

  ghost predicate Inv(s: State) {
    RequestsInv(s) && CallsInv(s) && RegistryInv(s) && PersistedInv(s) && QueueInv(s)
  }

  // ---------------------------------------------------------------------------
  // Every step keeps it
  // ---------------------------------------------------------------------------

  /** The calls on a request that have found it, other than `except`. */
  ghost predicate OthersInv(s: State, id: RequestId, r: Request, except: set<CallId>) {
    forall c | c in s.calls && s.calls[c].request == id && c !in except && !s.calls[c].stage.Starting?
               && s.calls[c].stage != Done(NotFound) :: CallInv(s.calls[c], c, r)
  }

  lemma RequestUpdate(s: State, id: RequestId, r: Request)
    requires RequestsInv(s) && CallsInv(s) && id in s.requests
    requires RequestInv(r, id, s.calls) && OthersInv(s, id, r, {})
    ensures var t := SetRequest(s, id, r); RequestsInv(t) && CallsInv(t)
  {
  }

  lemma CallUpdate(s: State, id: RequestId, r: Request, c: CallId, stage: Stage)
    requires RequestsInv(s) && CallsInv(s) && id in s.requests && c in s.calls && s.calls[c].request == id
    requires RequestInv(r, id, s.calls[c := s.calls[c].(stage := stage)])
    requires CallInv(s.calls[c].(stage := stage), c, r) && OthersInv(s, id, r, {c})
    ensures var t := SetStage(SetRequest(s, id, r), c, stage); RequestsInv(t) && CallsInv(t)
  {
    var t := SetStage(SetRequest(s, id, r), c, stage);
    forall i | i in t.requests ensures RequestInv(t.requests[i], i, t.calls) {
      if i != id { assert RequestInv(s.requests[i], i, s.calls); }
    }
  }

  /** A waiter's step changes its own request and no call. */
  lemma WaiterStepIsLocal(s: State, id: RequestId, step: Step)
    requires id in s.requests
    ensures var t := WaiterStep(s, id, step);
      || t == s
      || (id in t.requests && t.requests == s.requests[id := t.requests[id]] && t.calls == s.calls)
  {
  }

  lemma WaiterStepKeepsRequest(s: State, id: RequestId, step: Step)
    requires id in s.requests && RequestInv(s.requests[id], id, s.calls)
    ensures var t := WaiterStep(s, id, step);
      id in t.requests && RequestInv(t.requests[id], id, s.calls)
  {
  }

  lemma WaiterStepKeepsCall(s: State, id: RequestId, step: Step, c: CallId)
    requires id in s.requests && RequestInv(s.requests[id], id, s.calls)
    requires c in s.calls && CallInv(s.calls[c], c, s.requests[id])
    ensures var t := WaiterStep(s, id, step); id in t.requests && CallInv(s.calls[c], c, t.requests[id])
  {
  }

  lemma WaiterStepKeepsLocal(s: State, id: RequestId, step: Step)
    requires RequestsInv(s) && CallsInv(s) && id in s.requests
    ensures RequestsInv(WaiterStep(s, id, step)) && CallsInv(WaiterStep(s, id, step))
  {
    var t := WaiterStep(s, id, step);
    if t == s { return; }
    WaiterStepIsLocal(s, id, step);
    WaiterStepKeepsRequest(s, id, step);
    forall c | c in s.calls && s.calls[c].request == id && !s.calls[c].stage.Starting?
               && s.calls[c].stage != Done(NotFound) ensures CallInv(s.calls[c], c, t.requests[id]) {
      WaiterStepKeepsCall(s, id, step, c);
    }
    RequestUpdate(s, id, t.requests[id]);
    SameAsUpdate(s, id, t);
  }

  lemma SameAsUpdate(s: State, id: RequestId, t: State)
    requires id in t.requests && t.requests == s.requests[id := t.requests[id]] && t.calls == s.calls
    requires var u := SetRequest(s, id, t.requests[id]); RequestsInv(u) && CallsInv(u)
    ensures RequestsInv(t) && CallsInv(t)
  {
  }

  lemma EffectKeepsCall(r: Request, id: RequestId, calls: map<CallId, Call>, c: CallId, step: Step)
    requires RequestInv(r, id, calls) && c in calls && calls[c].request == id && CallInv(calls[c], c, r)
    ensures var e := CallEffect(r, calls[c], c, step);
      e.Move? ==> CallInv(calls[c].(stage := e.stage), c, e.request)
  {
  }

  lemma EffectKeepsRequest(r: Request, id: RequestId, calls: map<CallId, Call>, c: CallId, step: Step)
    requires RequestInv(r, id, calls) && c in calls && calls[c].request == id && CallInv(calls[c], c, r)
    ensures var e := CallEffect(r, calls[c], c, step);
      e.Move? ==> RequestInv(e.request, id, calls[c := calls[c].(stage := e.stage)])
  {
  }

  lemma EffectKeepsOthers(r: Request, id: RequestId, calls: map<CallId, Call>, c: CallId, step: Step, d: CallId)
    requires RequestInv(r, id, calls) && c in calls && calls[c].request == id && CallInv(calls[c], c, r)
    requires d in calls && d != c && CallInv(calls[d], d, r)
    ensures var e := CallEffect(r, calls[c], c, step); e.Move? ==> CallInv(calls[d], d, e.request)
  {
  }

  lemma CallStepKeepsLocal(s: State, c: CallId, step: Step)
    requires RequestsInv(s) && CallsInv(s) && c in s.calls && s.calls[c].request in s.requests
    ensures RequestsInv(CallStep(s, c, step)) && CallsInv(CallStep(s, c, step))
  {
    var id := s.calls[c].request;
    var r := s.requests[id];
    var e := CallEffect(r, s.calls[c], c, step);
    if e.Move? {
      assert RequestInv(r, id, s.calls) && CallInv(s.calls[c], c, r);
      EffectKeepsCall(r, id, s.calls, c, step);
      EffectKeepsRequest(r, id, s.calls, c, step);
      forall d | d in s.calls && s.calls[d].request == id && d != c && !s.calls[d].stage.Starting?
                 && s.calls[d].stage != Done(NotFound) ensures CallInv(s.calls[d], d, e.request) {
        EffectKeepsOthers(r, id, s.calls, c, step, d);
      }
      CallUpdate(s, id, e.request, c, e.stage);
    }
  }

  lemma NextKeepsLocal(s: State, step: Step)
    requires Inv(s)
    ensures RequestsInv(Next(s, step)) && CallsInv(Next(s, step))
  {
    match step
    case Register(id, session) =>
      if id !in s.requests { RegisterKeepsLocal(s, id, session); }
    case Begin(_, _, _, _) => BeginKeepsLocal(s, step);
    case LookUp(c) => LookUpKeepsLocal(s, c);
    case Drain(_) =>
    case CallLocks(c) => OfCallKeepsLocal(s, c, step);
    case CheckClaim(c) => OfCallKeepsLocal(s, c, step);
    case PersistOk(c) => OfCallKeepsLocal(s, c, step);
    case PersistFails(c) => OfCallKeepsLocal(s, c, step);
    case DropClaim(c) => OfCallKeepsLocal(s, c, step);
    case TakeSender(c) => OfCallKeepsLocal(s, c, step);
    case Send(c) => OfCallKeepsLocal(s, c, step);
    case _ => if step.id in s.requests { WaiterStepKeepsLocal(s, step.id, step); }
  }

  lemma RegisterKeepsLocal(s: State, id: RequestId, session: SessionId)
    requires RequestsInv(s) && CallsInv(s) && id !in s.requests
    ensures RequestsInv(Next(s, Register(id, session))) && CallsInv(Next(s, Register(id, session)))
  {
  }

  lemma BeginKeepsLocal(s: State, step: Step)
    requires RequestsInv(s) && CallsInv(s) && step.Begin?
    ensures RequestsInv(Next(s, step)) && CallsInv(Next(s, step))
  {
    forall id | id in s.requests ensures RequestInv(s.requests[id], id, Next(s, step).calls) {
      assert RequestInv(s.requests[id], id, s.calls);
    }
  }

  lemma LookUpKeepsLocal(s: State, c: CallId)
    requires RequestsInv(s) && CallsInv(s) && RegistryInv(s)
    ensures RequestsInv(Next(s, LookUp(c))) && CallsInv(Next(s, LookUp(c)))
  {
    forall id | id in s.requests ensures RequestInv(s.requests[id], id, Next(s, LookUp(c)).calls) {
      assert RequestInv(s.requests[id], id, s.calls);
    }
  }

  lemma OfCallKeepsLocal(s: State, c: CallId, step: Step)
    requires RequestsInv(s) && CallsInv(s)
    ensures RequestsInv(OfCall(s, c, step)) && CallsInv(OfCall(s, c, step))
  {
    if c in s.calls && s.calls[c].request in s.requests { CallStepKeepsLocal(s, c, step); }
  }

  lemma OfCallKeepsRegistry(s: State, c: CallId, step: Step)
    requires RegistryInv(s)
    ensures RegistryInv(OfCall(s, c, step))
  {
  }

  lemma WaiterStepKeepsRegistry(s: State, id: RequestId, step: Step)
    requires RegistryInv(s) && id in s.requests
    ensures RegistryInv(WaiterStep(s, id, step))
  {
    var t := WaiterStep(s, id, step);
    if t != s {
      assert t.requests == s.requests[id := t.requests[id]];
      assert step.Unregister? <==> t.requests[id].waiter.Returned?;
    }
  }

  lemma NextKeepsRegistry(s: State, step: Step)
    requires RegistryInv(s)
    ensures RegistryInv(Next(s, step))
  {
    match step
    case CallLocks(c) => OfCallKeepsRegistry(s, c, step);
    case CheckClaim(c) => OfCallKeepsRegistry(s, c, step);
    case PersistOk(c) => OfCallKeepsRegistry(s, c, step);
    case PersistFails(c) => OfCallKeepsRegistry(s, c, step);
    case DropClaim(c) => OfCallKeepsRegistry(s, c, step);
    case TakeSender(c) => OfCallKeepsRegistry(s, c, step);
    case Send(c) => OfCallKeepsRegistry(s, c, step);
    case Register(_, _) =>
    case Begin(_, _, _, _) =>
    case LookUp(_) =>
    case Drain(_) =>
    case _ => if step.id in s.requests { WaiterStepKeepsRegistry(s, step.id, step); }
  }

  lemma StageKeepsPersisted(persisted: seq<CallId>, calls: map<CallId, Call>, c: CallId, stage: Stage)
    requires PersistedBy(persisted, calls) && c in calls
    requires calls[c].stage.Persisted? ==> stage.Sending?
    requires TookSender(calls[c].stage) ==> TookSender(stage)
    ensures PersistedBy(if stage.Persisted? then persisted + [c] else persisted,
                        calls[c := calls[c].(stage := stage)])
  {
  }

  lemma EffectKeepsPersisted(r: Request, call: Call, c: CallId, step: Step)
    requires CallInv(call, c, r) || !(call.stage.Persisted? || TookSender(call.stage))
    ensures var e := CallEffect(r, call, c, step);
      e.Move? ==>
        && (call.stage.Persisted? ==> e.stage.Sending?)
        && (TookSender(call.stage) ==> TookSender(e.stage))
  {
  }

  lemma OfCallKeepsPersisted(s: State, c: CallId, step: Step)
    requires CallsInv(s) && PersistedInv(s)
    ensures PersistedInv(OfCall(s, c, step))
  {
    if c in s.calls && s.calls[c].request in s.requests {
      var r := s.requests[s.calls[c].request];
      var e := CallEffect(r, s.calls[c], c, step);
      EffectKeepsPersisted(r, s.calls[c], c, step);
      if e.Move? { StageKeepsPersisted(s.persisted, s.calls, c, e.stage); }
    }
  }

  lemma CallStartsUnpersisted(s: State, step: Step)
    requires PersistedInv(s) && (step.Begin? || step.LookUp?)
    ensures PersistedInv(Next(s, step))
  {
  }

  /** The steps of waiters and of the queues leave the calls alone. */
  lemma CallsStay(s: State, step: Step)
    requires step.Register? || step.Enqueue? || step.Receive? || step.SeeClosed? || step.PassDeadline?
          || step.TimerLocks? || step.TimerDecides? || step.Unregister? || step.CancelWaiter? || step.Drain?
    ensures Next(s, step).calls == s.calls && Next(s, step).persisted == s.persisted
  {
  }

  lemma NextKeepsPersisted(s: State, step: Step)
    requires CallsInv(s) && PersistedInv(s)
    ensures PersistedInv(Next(s, step))
  {
    match step
    case CallLocks(c) => OfCallKeepsPersisted(s, c, step);
    case CheckClaim(c) => OfCallKeepsPersisted(s, c, step);
    case PersistOk(c) => OfCallKeepsPersisted(s, c, step);
    case PersistFails(c) => OfCallKeepsPersisted(s, c, step);
    case DropClaim(c) => OfCallKeepsPersisted(s, c, step);
    case TakeSender(c) => OfCallKeepsPersisted(s, c, step);
    case Send(c) => OfCallKeepsPersisted(s, c, step);
    case Begin(_, _, _, _) => CallStartsUnpersisted(s, step);
    case LookUp(_) => CallStartsUnpersisted(s, step);
    case _ => CallsStay(s, step);
  }

  predicate SameQueues(s: State, t: State) {
    t.queued == s.queued && t.enqueued == s.enqueued && t.drained == s.drained
  }

  lemma OfCallKeepsQueues(s: State, c: CallId, step: Step)
    ensures SameQueues(s, OfCall(s, c, step))
  {
  }

  lemma WaiterStepKeepsQueues(s: State, id: RequestId, step: Step)
    requires id in s.requests && !step.Enqueue?
    ensures SameQueues(s, WaiterStep(s, id, step))
  {
  }

  /** Only queueing and draining touch the queues. */
  lemma QueuesStay(s: State, step: Step)
    requires !step.Drain? && (step.Enqueue? ==> Next(s, step) == s)
    ensures SameQueues(s, Next(s, step))
  {
    match step
    case CallLocks(c) => OfCallKeepsQueues(s, c, step);
    case CheckClaim(c) => OfCallKeepsQueues(s, c, step);
    case PersistOk(c) => OfCallKeepsQueues(s, c, step);
    case PersistFails(c) => OfCallKeepsQueues(s, c, step);
    case DropClaim(c) => OfCallKeepsQueues(s, c, step);
    case TakeSender(c) => OfCallKeepsQueues(s, c, step);
    case Send(c) => OfCallKeepsQueues(s, c, step);
    case Register(_, _) =>
    case Begin(_, _, _, _) =>
    case LookUp(_) =>
    case Drain(_) =>
    case Enqueue(_) =>
    case _ => if step.id in s.requests { WaiterStepKeepsQueues(s, step.id, step); }
  }

  lemma NextKeepsQueues(s: State, step: Step)
    requires QueueInv(s)
    ensures QueueInv(Next(s, step))
  {
    var t := Next(s, step);
    if step.Enqueue? && t != s {
      var x := s.requests[step.id].session;
      assert At(t.enqueued, x) == At(s.drained, x) + (At(s.queued, x) + [step.id]);
      assert At(t.drained, x) == At(s.drained, x) && At(t.queued, x) == At(s.queued, x) + [step.id];
    } else if !step.Drain? {
      QueuesStay(s, step);
      assert t.queued == s.queued && t.enqueued == s.enqueued && t.drained == s.drained;
    }
  }

  lemma NextKeepsInv(s: State, step: Step)
    requires Inv(s)
    ensures Inv(Next(s, step))
  {
    NextKeepsLocal(s, step);
    NextKeepsRegistry(s, step);
    NextKeepsPersisted(s, step);
    NextKeepsQueues(s, step);
  }

  /** Every interleaving keeps it. */
  lemma {:induction false} ExecKeepsInv(s: State, steps: seq<Step>)
    requires Inv(s)
    ensures Inv(Exec(s, steps))
    decreases |steps|
  {
    if steps != [] {
      NextKeepsInv(s, steps[0]);
      ExecKeepsInv(Next(s, steps[0]), steps[1..]);
    }
  }

  lemma InitialInv()
    ensures Inv(INITIAL)
  {
    assert forall x: SessionId :: At(INITIAL.enqueued, x) == [];
  }

  /** Main: every reachable state satisfies the invariant. */
  lemma EveryInterleavingKeepsInv(steps: seq<Step>)
    ensures Inv(Exec(INITIAL, steps))
  {
    InitialInv();
    ExecKeepsInv(INITIAL, steps);
  }

  // ---------------------------------------------------------------------------
  // One winner
  // ---------------------------------------------------------------------------

  predicate HasResult(w: Waiter) {
    w.Finished? || w.Returned?
  }

  /** A call touches neither the owner of a request nor its waiter. */
  lemma OfCallKeepsWaiters(s: State, c: CallId, step: Step, id: RequestId)
    requires id in s.requests
    ensures var t := OfCall(s, c, step);
      && t.requests.Keys == s.requests.Keys && t.pending == s.pending
      && t.requests[id].session == s.requests[id].session && t.requests[id].waiter == s.requests[id].waiter
  {
  }

  /** A waiter's step touches no other request, and of its own only until there is a result. */
  lemma WaiterStepKeepsResults(s: State, stepped: RequestId, step: Step, id: RequestId)
    requires id in s.requests && stepped in s.requests
    ensures var t := WaiterStep(s, stepped, step);
      && id in t.requests && (stepped != id ==> t.requests[id] == s.requests[id])
      && t.requests[id].session == s.requests[id].session
      && (HasResult(s.requests[id].waiter) ==>
            HasResult(t.requests[id].waiter) && t.requests[id].waiter.result == s.requests[id].waiter.result)
  {
    var r, t := s.requests[stepped], WaiterStep(s, stepped, step);
    if HasResult(r.waiter) {
      assert t == s || t.requests == s.requests[stepped := r.(waiter := Returned(r.waiter.result))];
    } else {
      assert t.requests.Keys == s.requests.Keys;
    }
  }

  /** What a waiter has come to, it keeps: a result is never replaced. */
  lemma NextKeepsResults(s: State, step: Step, id: RequestId)
    requires id in s.requests
    ensures var t := Next(s, step);
      && id in t.requests && t.requests[id].session == s.requests[id].session
      && (HasResult(s.requests[id].waiter) ==>
            HasResult(t.requests[id].waiter) && t.requests[id].waiter.result == s.requests[id].waiter.result)
  {
    match step
    case CallLocks(c) => OfCallKeepsWaiters(s, c, step, id);
    case CheckClaim(c) => OfCallKeepsWaiters(s, c, step, id);
    case PersistOk(c) => OfCallKeepsWaiters(s, c, step, id);
    case PersistFails(c) => OfCallKeepsWaiters(s, c, step, id);
    case DropClaim(c) => OfCallKeepsWaiters(s, c, step, id);
    case TakeSender(c) => OfCallKeepsWaiters(s, c, step, id);
    case Send(c) => OfCallKeepsWaiters(s, c, step, id);
    case Register(_, _) =>
    case Begin(_, _, _, _) =>
    case LookUp(_) =>
    case Drain(_) =>
    case _ => if step.id in s.requests { WaiterStepKeepsResults(s, step.id, step, id); }
  }

  lemma {:induction false} ExecKeepsResults(s: State, steps: seq<Step>, id: RequestId)
    requires id in s.requests && HasResult(s.requests[id].waiter)
    ensures var t := Exec(s, steps);
      && id in t.requests && HasResult(t.requests[id].waiter)
      && t.requests[id].waiter.result == s.requests[id].waiter.result
    decreases |steps|
  {
    if steps != [] {
      NextKeepsResults(s, steps[0], id);
      ExecKeepsResults(Next(s, steps[0]), steps[1..], id);
    }
  }

  /** A call that was told its submit succeeded has its very response returned by
      `request_and_wait`, whenever that returns; no other call on the request is told so. */
  lemma DeliveredIsReturned(steps: seq<Step>, c: CallId)
    requires var s := Exec(INITIAL, steps); c in s.calls && s.calls[c].stage == Done(Delivered)
    ensures var s := Exec(INITIAL, steps);
      var id := s.calls[c].request;
      && id in s.requests
      && (HasResult(s.requests[id].waiter) ==> s.requests[id].waiter.result == Answered(s.calls[c].response))
      && (forall d | d in s.calls && s.calls[d].request == id && s.calls[d].stage == Done(Delivered) :: d == c)
  {
    EveryInterleavingKeepsInv(steps);
    var s := Exec(INITIAL, steps);
    var id := s.calls[c].request;
    assert CallInv(s.calls[c], c, s.requests[id]);
    assert RequestInv(s.requests[id], id, s.calls);
    forall d | d in s.calls && s.calls[d].request == id && s.calls[d].stage == Done(Delivered) ensures d == c {
      assert CallInv(s.calls[d], d, s.requests[id]);
    }
  }

  /** Conversely, an answer comes from a call that was told so. */
  lemma AnswerWasDelivered(steps: seq<Step>, id: RequestId)
    requires var s := Exec(INITIAL, steps);
      id in s.requests && HasResult(s.requests[id].waiter) && s.requests[id].waiter.result.Answered?
    ensures var s := Exec(INITIAL, steps);
      exists c :: c in s.calls && s.calls[c].request == id && s.calls[c].stage == Done(Delivered)
                  && s.calls[c].response == s.requests[id].waiter.result.value
  {
    EveryInterleavingKeepsInv(steps);
    var s := Exec(INITIAL, steps);
    var r := s.requests[id];
    assert RequestInv(r, id, s.calls);
    var c := r.sender.call;
    assert CallInv(s.calls[c], c, r);
  }

  /** A request that timed out never had a successful submit and never will, and the waiter's
      "channel closed" exit is never taken. */
  lemma TimeoutIsFinal(steps: seq<Step>, more: seq<Step>, id: RequestId)
    requires var s := Exec(INITIAL, steps); id in s.requests && HasResult(s.requests[id].waiter)
    ensures var s := Exec(INITIAL, steps);
      var t := Exec(s, more);
      && s.requests[id].waiter.result != ChannelClosed
      && (s.requests[id].waiter.result == Timeout ==>
            forall c | c in t.calls && t.calls[c].request == id :: t.calls[c].stage != Done(Delivered))
  {
    var s := Exec(INITIAL, steps);
    var t := Exec(s, more);
    EveryInterleavingKeepsInv(steps);
    assert RequestInv(s.requests[id], id, s.calls);
    ExecKeepsInv(s, more);
    ExecKeepsResults(s, more, id);
    assert RequestInv(t.requests[id], id, t.calls);
    forall c | c in t.calls && t.calls[c].request == id && t.calls[c].stage == Done(Delivered)
      ensures s.requests[id].waiter.result != Timeout
    {
      assert CallInv(t.calls[c], c, t.requests[id]);
    }
  }

  /** Of the error exits of a call, "already completed" inside `submit` is never taken, and
      "channel closed" only when the waiter itself was cancelled. */
  lemma SubmitErrorsNeedACancelledWaiter(steps: seq<Step>, c: CallId)
    requires c in Exec(INITIAL, steps).calls
    ensures var s := Exec(INITIAL, steps);
      var call := s.calls[c];
      && call.stage != Done(NothingToSubmit)
      && (call.stage == Done(SendFailed) || call.stage == Done(ReceiverGone) ==>
            call.request in s.requests && s.requests[call.request].waiter.Cancelled?)
  {
    EveryInterleavingKeepsInv(steps);
    var s := Exec(INITIAL, steps);
    var call := s.calls[c];
    if !call.stage.Starting? && call.stage != Done(NotFound) {
      assert CallInv(call, c, s.requests[call.request]);
    }
  }

  /** Only calls of the session that owns the request get as far as a claim. */
  lemma OnlyTheOwnerClaims(steps: seq<Step>, c: CallId)
    requires c in Exec(INITIAL, steps).calls
    requires var stage := Exec(INITIAL, steps).calls[c].stage; stage.Claimed? || stage.Persisted? || TookSender(stage)
    ensures var s := Exec(INITIAL, steps);
      s.calls[c].request in s.requests && s.requests[s.calls[c].request].session == s.calls[c].session
  {
    EveryInterleavingKeepsInv(steps);
    var s := Exec(INITIAL, steps);
    assert CallInv(s.calls[c], c, s.requests[s.calls[c].request]);
  }

  // ---------------------------------------------------------------------------
  // Persisted means delivered
  // ---------------------------------------------------------------------------

  /** At most one message is persisted for a request. */
  lemma OneMessagePerRequest(steps: seq<Step>, i: nat, j: nat)
    requires var s := Exec(INITIAL, steps);
      i < |s.persisted| && j < |s.persisted|
      && s.persisted[i] in s.calls && s.persisted[j] in s.calls
      && s.calls[s.persisted[i]].request == s.calls[s.persisted[j]].request
    ensures i == j
  {
    EveryInterleavingKeepsInv(steps);
    var s := Exec(INITIAL, steps);
    var c, d := s.persisted[i], s.persisted[j];
    assert CallInv(s.calls[c], c, s.requests[s.calls[c].request]);
    assert CallInv(s.calls[d], d, s.requests[s.calls[d].request]);
    assert c == d;
  }

  /** If the message was persisted and the waiter is not cancelled, then the waiter has not
      come to anything but the persisted response. */
  lemma PersistedIsNeverLost(steps: seq<Step>, c: CallId)
    requires c in Exec(INITIAL, steps).persisted
    ensures var s := Exec(INITIAL, steps);
      && c in s.calls && s.calls[c].request in s.requests
      && var w := s.requests[s.calls[c].request].waiter;
         w.Cancelled? || w.Listens() || (HasResult(w) && w.result == Answered(s.calls[c].response))
  {
    EveryInterleavingKeepsInv(steps);
    var s := Exec(INITIAL, steps);
    var i :| 0 <= i < |s.persisted| && s.persisted[i] == c;
    assert CallInv(s.calls[c], c, s.requests[s.calls[c].request]);
    assert RequestInv(s.requests[s.calls[c].request], s.calls[c].request, s.calls);
  }

  /** The schedule on which a persisted response is submitted. */
  function SubmitSchedule(stage: Stage, c: CallId): seq<Step> {
    if stage.Persisted? then [TakeSender(c), Send(c)]
    else if stage.Sending? then [Send(c)]
    else []
  }

  /** The schedule on which a waiter picks up what the channel holds. */
  function ReceiveSchedule(r: Request, id: RequestId): seq<Step> {
    match r.waiter
    case Registered => [Enqueue(id), Receive(id)]
    case DeadlinePassed =>
      (if r.lock.Some? && r.lock.value.Caller? then [CheckClaim(r.lock.value.call)] else [])
      + [TimerLocks(id), TimerDecides(id), Receive(id)]
    case Deciding => [TimerDecides(id), Receive(id)]
    case _ => [Receive(id)]
  }

  lemma ExecOne(s: State, step: Step, rest: seq<Step>)
    ensures Exec(s, [step] + rest) == Exec(Next(s, step), rest)
    ensures Exec(s, [step]) == Next(s, step)
  {
    assert ([step] + rest)[1..] == rest && [step][1..] == [];
  }

  lemma ExecTwo(s: State, a: Step, b: Step)
    ensures Exec(s, [a, b]) == Next(Next(s, a), b)
  {
    assert [a, b] == [a] + [b];
    ExecOne(s, a, [b]);
    ExecOne(Next(s, a), b, []);
  }

  lemma SendDelivers(s: State, c: CallId)
    requires c in s.calls && s.calls[c].stage.Sending? && s.calls[c].request in s.requests
    requires s.requests[s.calls[c].request].waiter.Listens()
    ensures var t := Next(s, Send(c));
      var id := s.calls[c].request;
      && c in t.calls && t.calls[c].request == id && id in t.requests
      && t.requests[id].channel == Holds(s.calls[c].response)
      && t.requests[id].waiter == s.requests[id].waiter
  {
  }

  lemma TakingLeadsToSending(s: State, c: CallId)
    requires c in s.calls && s.calls[c].stage.Persisted? && s.calls[c].request in s.requests
    requires s.requests[s.calls[c].request].sender.InPlace?
    ensures var t := Next(s, TakeSender(c));
      var id := s.calls[c].request;
      && c in t.calls && t.calls[c] == s.calls[c].(stage := Sending) && id in t.requests
      && t.requests[id].waiter == s.requests[id].waiter
  {
  }

  lemma SubmitDelivers(s: State, c: CallId)
    requires Inv(s) && c in s.persisted && s.calls[c].request in s.requests
    requires s.requests[s.calls[c].request].waiter.Listens()
    ensures var t := Exec(s, SubmitSchedule(s.calls[c].stage, c));
      var id := s.calls[c].request;
      && c in t.calls && t.calls[c].request == id && id in t.requests
      && t.requests[id].channel == Holds(s.calls[c].response)
      && t.requests[id].waiter == s.requests[id].waiter
  {
    var i :| 0 <= i < |s.persisted| && s.persisted[i] == c;
    assert CallInv(s.calls[c], c, s.requests[s.calls[c].request]);
    if s.calls[c].stage.Persisted? {
      TakingLeadsToSending(s, c);
      SendDelivers(Next(s, TakeSender(c)), c);
      ExecTwo(s, TakeSender(c), Send(c));
    } else if s.calls[c].stage.Sending? {
      SendDelivers(s, c);
      ExecOne(s, Send(c), []);
    }
  }

  lemma EarlyValueIsReceived(s: State, id: RequestId)
    requires id in s.requests && s.requests[id].channel.Holds? && s.requests[id].waiter.Registered?
    ensures var t := Exec(s, [Enqueue(id), Receive(id)]);
      id in t.requests && t.requests[id].waiter == Finished(Answered(s.requests[id].channel.value))
  {
    ExecTwo(s, Enqueue(id), Receive(id));
  }

  lemma ValueBehindTheTimerIsReceived(s: State, id: RequestId)
    requires id in s.requests && s.requests[id].channel.Holds? && s.requests[id].waiter.Deciding?
    requires !s.requests[id].sender.InPlace?
    ensures var t := Exec(s, [TimerDecides(id), Receive(id)]);
      id in t.requests && t.requests[id].waiter == Finished(Answered(s.requests[id].channel.value))
  {
    ExecTwo(s, TimerDecides(id), Receive(id));
  }

  lemma HeldValueIsReceived(s: State, id: RequestId)
    requires Inv(s) && id in s.requests && s.requests[id].channel.Holds? && s.requests[id].waiter.Listens()
    ensures var t := Exec(s, ReceiveSchedule(s.requests[id], id));
      id in t.requests && t.requests[id].waiter == Finished(Answered(s.requests[id].channel.value))
  {
    var r := s.requests[id];
    assert RequestInv(r, id, s.calls);
    match r.waiter
    case Registered => EarlyValueIsReceived(s, id);
    case Deciding => ValueBehindTheTimerIsReceived(s, id);
    case DeadlinePassed => LateValueIsReceived(s, id);
    case Waiting => ExecOne(s, Receive(id), []);
    case Draining => ExecOne(s, Receive(id), []);
  }

  /** A call that finds the sender taken lets go of the lock. */
  lemma LockIsLetGo(s: State, id: RequestId, d: CallId)
    requires Inv(s) && id in s.requests && s.requests[id].channel.Holds?
    requires s.requests[id].lock == Some(Caller(d))
    ensures Next(s, CheckClaim(d)).requests == s.requests[id := s.requests[id].(lock := None)]
  {
    var r := s.requests[id];
    assert RequestInv(r, id, s.calls);
    assert CallInv(s.calls[d], d, r);
    assert s.calls[d].stage.Locked?;
  }

  /** The deadline has passed: the timer waits for the lock, finds the sender gone, and drains. */
  lemma LateValueIsReceived(s: State, id: RequestId)
    requires Inv(s) && id in s.requests && s.requests[id].channel.Holds? && s.requests[id].waiter.DeadlinePassed?
    ensures var t := Exec(s, ReceiveSchedule(s.requests[id], id));
      id in t.requests && t.requests[id].waiter == Finished(Answered(s.requests[id].channel.value))
  {
    var r := s.requests[id];
    assert RequestInv(r, id, s.calls);
    var tail := [TimerLocks(id), TimerDecides(id), Receive(id)];
    if r.lock.Some? {
      var d := r.lock.value.call;
      LockIsLetGo(s, id, d);
      ExecOne(s, CheckClaim(d), tail);
      UnlockedLateValueIsReceived(Next(s, CheckClaim(d)), id);
    } else {
      assert [] + tail == tail;
      UnlockedLateValueIsReceived(s, id);
    }
  }

  lemma UnlockedLateValueIsReceived(s: State, id: RequestId)
    requires id in s.requests
    requires var r := s.requests[id]; r.channel.Holds? && r.waiter.DeadlinePassed? && r.lock.None? && !r.sender.InPlace?
    ensures var t := Exec(s, [TimerLocks(id), TimerDecides(id), Receive(id)]);
      id in t.requests && t.requests[id].waiter == Finished(Answered(s.requests[id].channel.value))
  {
    var s1 := Next(s, TimerLocks(id));
    var s2 := Next(s1, TimerDecides(id));
    assert s2.requests[id] == s.requests[id].(waiter := Draining);
    ExecOne(s, TimerLocks(id), [TimerDecides(id), Receive(id)]);
    ExecOne(s1, TimerDecides(id), [Receive(id)]);
    ExecOne(s2, Receive(id), []);
  }

  /** Persisted means delivered: from every reachable state, unless the waiter was cancelled,
      the remaining steps of the call and of the waiter bring the persisted response to the
      caller of `request_and_wait`, even if the deadline passed while the claim was held. */
  lemma PersistedReachesTheWaiter(steps: seq<Step>, c: CallId) returns (rest: seq<Step>)
    requires c in Exec(INITIAL, steps).persisted
    requires var s := Exec(INITIAL, steps);
      c in s.calls && s.calls[c].request in s.requests && !s.requests[s.calls[c].request].waiter.Cancelled?
    ensures var s := Exec(INITIAL, steps);
      var id := s.calls[c].request;
      var t := Exec(INITIAL, steps + rest);
      id in t.requests && t.requests[id].waiter == Returned(Answered(s.calls[c].response))
  {
    var s := Exec(INITIAL, steps);
    EveryInterleavingKeepsInv(steps);
    PersistedIsNeverLost(steps, c);
    var id := s.calls[c].request;
    var delivery := [];
    if s.requests[id].waiter.Listens() {
      delivery := FinishDelivery(s, c);
    }
    rest := delivery + [Unregister(id)];
    ExecOne(Exec(s, delivery), Unregister(id), []);
    ExecAppend(s, delivery, [Unregister(id)]);
    ExecAppend(INITIAL, steps, rest);
  }

  lemma FinishDelivery(s: State, c: CallId) returns (rest: seq<Step>)
    requires Inv(s) && c in s.persisted && c in s.calls && s.calls[c].request in s.requests
    requires s.requests[s.calls[c].request].waiter.Listens()
    ensures var t := Exec(s, rest);
      var id := s.calls[c].request;
      id in t.requests && t.requests[id].waiter == Finished(Answered(s.calls[c].response))
  {
    var id := s.calls[c].request;
    var toSend := SubmitSchedule(s.calls[c].stage, c);
    var s1 := Exec(s, toSend);
    SubmitDelivers(s, c);
    ExecKeepsInv(s, toSend);
    var toReceive := ReceiveSchedule(s1.requests[id], id);
    HeldValueIsReceived(s1, id);
    rest := toSend + toReceive;
    ExecAppend(s, toSend, toReceive);
  }

  // ---------------------------------------------------------------------------
  // Nothing moves back
  // ---------------------------------------------------------------------------

  function StageRank(stage: Stage): nat {
    match stage
    case Starting => 0
    case Found => 1
    case Locked => 2
    case Claimed => 3
    case Persisted => 4
    case Sending => 5
    case Done(_) => 6
  }

  function WaiterRank(w: Waiter): nat {
    match w
    case Registered => 0
    case Waiting => 1
    case DeadlinePassed => 2
    case Deciding => 3
    case Draining => 4
    case Finished(_) => 5
    case Returned(_) => 6
    case Cancelled => 7
  }

  /** Calls and waiters of `s` are in `t` where they were or further on, persisted messages stay,
      and no waiter was cancelled but perhaps that of `id`. */
  ghost predicate Onward(s: State, t: State, cancelled: Option<RequestId>) {
    && (forall c | c in s.calls :: c in t.calls && CallOnward(s.calls[c], t.calls[c]))
    && (forall id | id in s.requests :: id in t.requests &&
          WaiterOnward(s.requests[id].waiter, t.requests[id].waiter, cancelled == Some(id)))
    && s.persisted <= t.persisted
  }

  predicate CallOnward(a: Call, b: Call) {
    && b == a.(stage := b.stage)
    && (a.stage == b.stage || StageRank(a.stage) < StageRank(b.stage))
  }

  predicate WaiterOnward(a: Waiter, b: Waiter, cancelled: bool) {
    && (a == b || WaiterRank(a) < WaiterRank(b))
    && (b.Cancelled? ==> a.Cancelled? || cancelled)
  }

  lemma EffectIsOnward(r: Request, call: Call, c: CallId, step: Step)
    ensures var e := CallEffect(r, call, c, step);
      e.Move? ==> e.request.waiter == r.waiter && StageRank(call.stage) < StageRank(e.stage)
  {
  }

  lemma OfCallIsOnward(s: State, c: CallId, step: Step)
    ensures Onward(s, OfCall(s, c, step), None)
  {
    if c in s.calls && s.calls[c].request in s.requests {
      EffectIsOnward(s.requests[s.calls[c].request], s.calls[c], c, step);
    }
  }

  lemma WaiterEffectIsOnward(r: Request, step: Step)
    ensures var e := WaiterEffect(r, step); e.Some? ==> WaiterOnward(r.waiter, e.value.waiter, step.CancelWaiter?)
  {
  }

  lemma RequestIsOnward(s: State, t: State, id: RequestId, cancelled: bool)
    requires id in s.requests && id in t.requests && t.requests == s.requests[id := t.requests[id]]
    requires t.calls == s.calls && t.persisted == s.persisted
    requires WaiterOnward(s.requests[id].waiter, t.requests[id].waiter, cancelled)
    ensures Onward(s, t, if cancelled then Some(id) else None)
  {
  }

  lemma WaiterStepIsOnward(s: State, id: RequestId, step: Step)
    requires id in s.requests
    ensures Onward(s, WaiterStep(s, id, step), if step.CancelWaiter? then Some(id) else None)
  {
    WaiterEffectIsOnward(s.requests[id], step);
    if WaiterEffect(s.requests[id], step).Some? {
      RequestIsOnward(s, WaiterStep(s, id, step), id, step.CancelWaiter?);
    }
  }

  lemma NewCallIsOnward(s: State, step: Step)
    requires step.Begin? || step.LookUp?
    ensures Onward(s, Next(s, step), None)
  {
    var t := Next(s, step);
    assert t.requests == s.requests && t.persisted == s.persisted;
    assert t.calls == s.calls || (step.call in t.calls && t.calls == s.calls[step.call := t.calls[step.call]]);
  }

  lemma NewRequestIsOnward(s: State, step: Step)
    requires step.Register? || step.Drain?
    ensures Onward(s, Next(s, step), None)
  {
    var t := Next(s, step);
    assert t.calls == s.calls && t.persisted == s.persisted;
    assert forall id | id in s.requests :: id in t.requests && t.requests[id] == s.requests[id];
  }

  function CancelledBy(step: Step): Option<RequestId> {
    if step.CancelWaiter? then Some(step.id) else None
  }

  /** Main: no step moves any call or any waiter back, undoes a persisted message, or cancels a
      waiter but its own cancellation. */
  lemma StepsMoveOnward(s: State, step: Step)
    ensures Onward(s, Next(s, step), CancelledBy(step))
  {
    match step
    case CallLocks(c) => OfCallIsOnward(s, c, step);
    case CheckClaim(c) => OfCallIsOnward(s, c, step);
    case PersistOk(c) => OfCallIsOnward(s, c, step);
    case PersistFails(c) => OfCallIsOnward(s, c, step);
    case DropClaim(c) => OfCallIsOnward(s, c, step);
    case TakeSender(c) => OfCallIsOnward(s, c, step);
    case Send(c) => OfCallIsOnward(s, c, step);
    case Register(_, _) => NewRequestIsOnward(s, step);
    case Begin(_, _, _, _) => NewCallIsOnward(s, step);
    case LookUp(_) => NewCallIsOnward(s, step);
    case Drain(_) => NewRequestIsOnward(s, step);
    case _ => if step.id in s.requests { WaiterStepIsOnward(s, step.id, step); }
  }

  lemma {:induction false} PersistedStaysPersisted(s: State, more: seq<Step>, c: CallId, id: RequestId)
    requires c in s.persisted && c in s.calls && s.calls[c].request == id && id in s.requests
    requires !s.requests[id].waiter.Cancelled? && CancelWaiter(id) !in more
    ensures var t := Exec(s, more);
      && c in t.persisted && c in t.calls && t.calls[c] == s.calls[c].(stage := t.calls[c].stage)
      && id in t.requests && !t.requests[id].waiter.Cancelled?
    decreases |more|
  {
    if more != [] {
      StepsMoveOnward(s, more[0]);
      PersistedStaysPersisted(Next(s, more[0]), more[1..], c, id);
    }
  }

  /** Main: whatever other steps come first, short of cancelling the waiter, a persisted response
      can still be brought to the caller. */
  lemma NothingPreventsDelivery(steps: seq<Step>, more: seq<Step>, c: CallId) returns (rest: seq<Step>)
    requires c in Exec(INITIAL, steps).persisted
    requires var s := Exec(INITIAL, steps);
      && c in s.calls && s.calls[c].request in s.requests && !s.requests[s.calls[c].request].waiter.Cancelled?
      && CancelWaiter(s.calls[c].request) !in more
    ensures var s, t := Exec(INITIAL, steps), Exec(INITIAL, steps + more + rest);
      var id := s.calls[c].request;
      id in t.requests && t.requests[id].waiter == Returned(Answered(s.calls[c].response))
  {
    var s := Exec(INITIAL, steps);
    PersistedStaysPersisted(s, more, c, s.calls[c].request);
    ExecAppend(INITIAL, steps, more);
    rest := PersistedReachesTheWaiter(steps + more, c);
  }

  /** A failed persist, or a dropped claim, leaves the sender in place and the lock free. */
  lemma FailedPersistKeepsTheRequestOpen(steps: seq<Step>, c: CallId, step: Step)
    requires step == PersistFails(c) || step == DropClaim(c)
    requires var s := Exec(INITIAL, steps); c in s.calls && s.calls[c].stage.Claimed?
    ensures var s := Exec(INITIAL, steps);
      var id := s.calls[c].request;
      var t := Next(s, step);
      && id in s.requests && id in t.requests
      && t.requests[id] == s.requests[id].(lock := None) && t.requests[id].sender.InPlace?
      && t.persisted == s.persisted && c !in t.persisted
  {
    EveryInterleavingKeepsInv(steps);
    var s := Exec(INITIAL, steps);
    assert CallInv(s.calls[c], c, s.requests[s.calls[c].request]);
  }

  /** An open, unlocked request whose waiter listens can be claimed by every call of its
      session that has found it: until the deadline wins, it stays claimable. */
  lemma OpenRequestIsClaimable(s: State, d: CallId)
    requires d in s.calls && s.calls[d].stage.Found? && s.calls[d].request in s.requests
    requires var r := s.requests[s.calls[d].request];
      r.lock.None? && r.sender.InPlace? && r.waiter.Listens() && r.session == s.calls[d].session
    ensures var t := Exec(s, [CallLocks(d), CheckClaim(d)]); d in t.calls && t.calls[d].stage.Claimed?
  {
    ExecTwo(s, CallLocks(d), CheckClaim(d));
  }

  /** Main: in every reachable state, a request whose waiter listens and whose sender no call has
      taken is pending, with the sender still in place. */
  lemma RequestStaysOpen(steps: seq<Step>, id: RequestId)
    requires var s := Exec(INITIAL, steps);
      && id in s.requests && s.requests[id].waiter.Listens()
      && forall c | c in s.calls && s.calls[c].request == id :: !TookSender(s.calls[c].stage)
    ensures var s := Exec(INITIAL, steps); id in s.pending && s.requests[id].sender.InPlace?
  {
    EveryInterleavingKeepsInv(steps);
    var s := Exec(INITIAL, steps);
    assert RequestInv(s.requests[id], id, s.calls);
  }

  /** So until the deadline wins or a response is submitted, whenever nobody holds the lock a new
      call of the owning session gets a claim. */
  lemma RequestStaysClaimable(steps: seq<Step>, id: RequestId, d: CallId, response: Response)
    requires var s := Exec(INITIAL, steps);
      && id in s.requests && s.requests[id].waiter.Listens() && s.requests[id].lock.None? && d !in s.calls
      && forall c | c in s.calls && s.calls[c].request == id :: !TookSender(s.calls[c].stage)
    ensures var s := Exec(INITIAL, steps);
      var arrival := [Begin(d, s.requests[id].session, id, response), LookUp(d)];
      var t := Exec(INITIAL, steps + (arrival + [CallLocks(d), CheckClaim(d)]));
      d in t.calls && t.calls[d].stage.Claimed?
  {
    var s := Exec(INITIAL, steps);
    var arrival := [Begin(d, s.requests[id].session, id, response), LookUp(d)];
    var claim := [CallLocks(d), CheckClaim(d)];
    RequestStaysOpen(steps, id);
    ExecTwo(s, arrival[0], arrival[1]);
    var found := Exec(s, arrival);
    assert found == s.(calls := s.calls[d := Call(s.requests[id].session, id, response, Found)]);
    OpenRequestIsClaimable(found, d);
    ExecAppend(s, arrival, claim);
    ExecAppend(INITIAL, steps, arrival + claim);
  }

  // ---------------------------------------------------------------------------
  // The request queue
  // ---------------------------------------------------------------------------

  /** Per session, what was drained and what is still queued is what was enqueued, in order. */
  lemma NoRequestMessageIsLost(steps: seq<Step>, session: SessionId)
    ensures var s := Exec(INITIAL, steps);
      At(s.enqueued, session) == At(s.drained, session) + At(s.queued, session)
  {
    EveryInterleavingKeepsInv(steps);
  }

  /** A request is announced once: its id is queued only when it leaves `Registered`. */
  lemma EnqueueAppends(s: State, id: RequestId)
    requires id in s.requests && s.requests[id].waiter.Registered?
    ensures var t := Next(s, Enqueue(id));
      var x := s.requests[id].session;
      && At(t.queued, x) == At(s.queued, x) + [id]
      && (forall y | y != x :: At(t.queued, y) == At(s.queued, y))
      && Next(t, Enqueue(id)) == t
  {
  }
}
