/** `ActionRequiredManager` as objects: a table of shared pending requests and the queues of
    messages. Each method is one atomic section and is one step of the state machine. Where the
    waiter and the responding calls have got to is ghost state. */
module ActionRequired {
  import opened Text
  import opened ElicitationSteps

  /** A step of a call that moves its request to `r` and itself to `stage`. */
  lemma CallMoves(s: State, c: CallId, step: Step, r: Request, stage: Stage)
    requires c in s.calls && s.calls[c].request in s.requests
    requires step.CheckClaim? || step.PersistOk? || step.PersistFails? || step.TakeSender? || step.Send?
    requires step.call == c && CallEffect(s.requests[s.calls[c].request], s.calls[c], c, step) == Move(r, stage)
    ensures Next(s, step)
         == s.(requests := s.requests[s.calls[c].request := r],
               calls := s.calls[c := s.calls[c].(stage := stage)],
               persisted := if stage.Persisted? then s.persisted + [c] else s.persisted)
  {
    assert Next(s, step) == CallStep(s, c, step);
  }

  /** The first step of a new request. */
  lemma RegisterAdds(s: State, id: RequestId, session: SessionId)
    requires id !in s.requests
    ensures Next(s, Step.Register(id, session))
         == s.(requests := s.requests[id := Request(session, InPlace, Open, None, Registered)],
               pending := s.pending + {id})
  {
  }

  class PendingRequest {
    const sessionId: SessionId
    var responseTx: Sender
    var channel: Channel
    var lock: Option<Holder>
    ghost var waiter: Waiter

    constructor (sessionId: SessionId)
      ensures Contents() == Request(sessionId, InPlace, Open, None, Registered)
    {
      this.sessionId := sessionId;
      responseTx := InPlace;
      channel := Open;
      lock := None;
      waiter := Registered;
    }

    ghost function Contents(): Request
      reads this
    {
      Request(sessionId, responseTx, channel, lock, waiter)
    }

    /** The rest of `claim_response`, under the lock; `receiverDropped` is what `is_closed` tells.
        In this and the next methods `stage` is where the call goes from here. */
    method CheckClaim(c: CallId, ghost call: Call, session: SessionId, receiverDropped: bool)
      returns (stage: Stage)
      requires call.stage.Locked? && call.session == session && receiverDropped == !waiter.Listens()
      modifies this
      ensures CallEffect(old(Contents()), call, c, Step.CheckClaim(c)) == Move(Contents(), stage)
    {
      if sessionId != session {
        stage := Done(WrongSession);
      } else if !responseTx.InPlace? {
        stage := Done(AlreadyCompleted);
      } else if receiverDropped {
        stage := Done(ReceiverGone);
        responseTx, channel := Dropped, Closed;
      } else {
        return Claimed;
      }
      lock := None;
    }

    /** `add_message` under the claim; when it fails the claim is dropped. */
    method Persist(c: CallId, ghost call: Call, ok: bool) returns (stage: Stage)
      requires call.stage.Claimed?
      modifies this
      ensures CallEffect(old(Contents()), call, c, if ok then PersistOk(c) else PersistFails(c))
           == Move(Contents(), stage)
    {
      stage := if ok then Persisted else Done(PersistFailed);
      if !ok { lock := None; }
    }

    /** `submit`, up to letting go of the lock. */
    method TakeSender(c: CallId, ghost call: Call) returns (stage: Stage)
      requires call.stage.Claimed? || call.stage.Persisted?
      modifies this
      ensures CallEffect(old(Contents()), call, c, Step.TakeSender(c)) == Move(Contents(), stage)
    {
      stage := Done(NothingToSubmit);
      if responseTx.InPlace? {
        responseTx := TakenBy(c);
        stage := Sending;
      }
      lock := None;
    }

    /** The send of `submit`, outside the lock. */
    method Send(c: CallId, ghost call: Call, response: Response, receiverDropped: bool) returns (stage: Stage)
      requires call.stage.Sending? && call.response == response && receiverDropped == !waiter.Listens()
      modifies this
      ensures CallEffect(old(Contents()), call, c, Step.Send(c)) == Move(Contents(), stage)
      ensures stage == Done(Delivered) ==> channel == Holds(response)
    {
      channel := if receiverDropped then Closed else Holds(response);
      stage := if receiverDropped then Done(SendFailed) else Done(Delivered);
    }
  }

  ghost function ContentsOf(requests: map<RequestId, PendingRequest>): map<RequestId, Request>
    reads requests.Values
  {
    map id | id in requests :: requests[id].Contents()
  }

  lemma ContentsWith(requests: map<RequestId, PendingRequest>, id: RequestId, request: PendingRequest)
    ensures ContentsOf(requests[id := request]) == ContentsOf(requests)[id := request.Contents()]
  {
  }

  class ActionRequiredManager {
    var pending: map<RequestId, PendingRequest>
    var queuedRequests: map<SessionId, seq<RequestId>>

    // Every request ever made, the responding calls, and what was persisted and queued.
    ghost var requests: map<RequestId, PendingRequest>
    ghost var calls: map<CallId, Call>
    ghost var persisted: seq<CallId>
    ghost var enqueued: map<SessionId, seq<RequestId>>
    ghost var drained: map<SessionId, seq<RequestId>>

    ghost predicate Valid()
      reads this
    {
      && (forall id | id in pending :: id in requests && pending[id] == requests[id])
      && (forall i, j | i in requests && j in requests && i != j :: requests[i] != requests[j])
    }

    ghost function Contents(): State
      reads this, requests.Values
    {
      State(pending.Keys, ContentsOf(requests), calls, persisted, queuedRequests, enqueued, drained)
    }

    constructor ()
      ensures Valid() && Contents() == INITIAL
    {
      pending, queuedRequests, requests := map[], map[], map[];
      calls, persisted, enqueued, drained := map[], [], map[], map[];
    }

    /** The first section of `request_and_wait`. */
    method Register(id: RequestId, sessionId: SessionId) returns (request: PendingRequest)
      requires Valid() && id !in requests
      modifies this
      ensures Valid() && fresh(request) && requests == old(requests)[id := request]
      ensures Contents() == Next(old(Contents()), Step.Register(id, sessionId))
    {
      ghost var s := Contents();
      request := new PendingRequest(sessionId);
      assert ContentsOf(requests[id := request]) == s.requests[id := request.Contents()] by {
        assert ContentsOf(requests) == s.requests;
        ContentsWith(requests, id, request);
      }
      pending := pending[id := request];
      requests := requests[id := request];
      assert pending.Keys == s.pending + {id};
      RegisterAdds(s, id, sessionId);
    }

    /** The second section: the message is queued and the wait begins. */
    method Enqueue(id: RequestId, sessionId: SessionId, request: PendingRequest)
      requires Valid() && id in requests && requests[id] == request
      requires request.sessionId == sessionId && request.waiter.Registered?
      modifies this, request
      ensures Valid() && requests == old(requests)
      ensures Contents() == Next(old(Contents()), Step.Enqueue(id))
    {
      ghost var s := Contents();
      var queue := if sessionId in queuedRequests then queuedRequests[sessionId] else [];
      queuedRequests := queuedRequests[sessionId := queue + [id]];
      enqueued := enqueued[sessionId := ElicitationSteps.At(enqueued, sessionId) + [id]];
      request.waiter := Waiting;
      assert Contents().requests == s.requests[id := request.Contents()];
    }

    /** The deadline has passed and `wait_for_response` holds the lock: take the sender and time
        out, or let go and wait for the call that took it. */
    method DecideTimeout(id: RequestId, request: PendingRequest) returns (timedOut: bool)
      requires Valid() && id in requests && requests[id] == request && request.waiter.Deciding?
      modifies request
      ensures Valid() && timedOut == old(request.responseTx).InPlace?
      ensures Contents() == Next(old(Contents()), TimerDecides(id))
    {
      timedOut := request.responseTx.InPlace?;
      request.lock := None;
      if timedOut {
        request.responseTx, request.channel := Dropped, Closed;
        request.waiter := Finished(Timeout);
      } else {
        request.waiter := Draining;
      }
    }

    /** The last section of `request_and_wait`. */
    method Unregister(id: RequestId, request: PendingRequest)
      requires Valid() && id in requests && requests[id] == request && request.waiter.Finished?
      modifies this, request
      ensures Valid() && requests == old(requests)
      ensures Contents() == Next(old(Contents()), Step.Unregister(id))
    {
      ghost var s := Contents();
      pending := pending - {id};
      request.waiter := Returned(request.waiter.result);
      assert Contents().requests == s.requests[id := request.Contents()];
      assert pending.Keys == s.pending - {id};
    }

    /** `pending_request`. */
    method LookUp(ghost c: CallId, id: RequestId) returns (request: PendingRequest?)
      requires Valid() && c in calls && calls[c].stage.Starting? && calls[c].request == id
      modifies this
      ensures Valid() && requests == old(requests)
      ensures request != null ==> id in pending && request == pending[id]
      ensures Contents() == Next(old(Contents()), Step.LookUp(c))
    {
      request := if id in pending then pending[id] else null;
      calls := calls[c := calls[c].(stage := if id in pending then Found else Done(NotFound))];
    }

    /** The call `c` responds to `request` and is at `stage`. */
    ghost predicate At(c: CallId, request: PendingRequest, stage: Stage)
      reads this
    {
      c in calls && calls[c].stage == stage && calls[c].request in requests
      && requests[calls[c].request] == request
    }

    /** A call that holds the lock claims the request, or is refused and lets go. */
    method ClaimResponse(c: CallId, sessionId: SessionId, request: PendingRequest, receiverDropped: bool)
      returns (stage: Stage)
      requires Valid() && At(c, request, Locked) && calls[c].session == sessionId
      requires receiverDropped == !request.waiter.Listens()
      modifies this, request
      ensures Valid() && requests == old(requests) && At(c, request, stage)
      ensures Contents() == Next(old(Contents()), Step.CheckClaim(c))
    {
      ghost var s, id := Contents(), calls[c].request;
      stage := request.CheckClaim(c, calls[c], sessionId, receiverDropped);
      calls := calls[c := calls[c].(stage := stage)];
      assert Contents().requests == s.requests[id := request.Contents()];
      CallMoves(s, c, Step.CheckClaim(c), request.Contents(), stage);
    }

    /** A call that holds a claim persists its message, or fails to and drops the claim. */
    method PersistResponse(c: CallId, request: PendingRequest, ok: bool) returns (stage: Stage)
      requires Valid() && At(c, request, Claimed)
      modifies this, request
      ensures Valid() && requests == old(requests) && At(c, request, stage)
      ensures Contents() == Next(old(Contents()), if ok then PersistOk(c) else PersistFails(c))
    {
      ghost var s, id := Contents(), calls[c].request;
      stage := request.Persist(c, calls[c], ok);
      calls := calls[c := calls[c].(stage := stage)];
      persisted := if ok then persisted + [c] else persisted;
      assert Contents().requests == s.requests[id := request.Contents()];
      CallMoves(s, c, if ok then PersistOk(c) else PersistFails(c), request.Contents(), stage);
    }

    /** It takes the sender and lets go of the lock. */
    method SubmitResponse(c: CallId, request: PendingRequest) returns (stage: Stage)
      requires Valid() && (At(c, request, Claimed) || At(c, request, Persisted))
      modifies this, request
      ensures Valid() && requests == old(requests) && At(c, request, stage)
      ensures Contents() == Next(old(Contents()), Step.TakeSender(c))
    {
      ghost var s, id := Contents(), calls[c].request;
      stage := request.TakeSender(c, calls[c]);
      calls := calls[c := calls[c].(stage := stage)];
      assert Contents().requests == s.requests[id := request.Contents()];
      CallMoves(s, c, Step.TakeSender(c), request.Contents(), stage);
    }

    /** And sends. */
    method SendResponse(c: CallId, response: Response, request: PendingRequest, receiverDropped: bool)
      returns (stage: Stage)
      requires Valid() && At(c, request, Sending) && calls[c].response == response
      requires receiverDropped == !request.waiter.Listens()
      modifies this, request
      ensures Valid() && requests == old(requests) && At(c, request, stage)
      ensures Contents() == Next(old(Contents()), Step.Send(c))
    {
      ghost var s, id := Contents(), calls[c].request;
      stage := request.Send(c, calls[c], response, receiverDropped);
      calls := calls[c := calls[c].(stage := stage)];
      assert Contents().requests == s.requests[id := request.Contents()];
      CallMoves(s, c, Step.Send(c), request.Contents(), stage);
    }

    /** `drain_requests_for_session`. */
    method DrainRequestsForSession(sessionId: SessionId) returns (messages: seq<RequestId>)
      requires Valid()
      modifies this
      ensures Valid() && requests == old(requests)
      ensures messages == ElicitationSteps.At(old(queuedRequests), sessionId)
      ensures Contents() == Next(old(Contents()), Drain(sessionId))
    {
      messages := if sessionId in queuedRequests then queuedRequests[sessionId] else [];
      queuedRequests := queuedRequests - {sessionId};
      drained := drained[sessionId := ElicitationSteps.At(drained, sessionId) + messages];
    }
  }
}
