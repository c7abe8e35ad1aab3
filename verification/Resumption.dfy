/** How a download goes on after each answer, told by the requests it sends. */
module Resumption {
  import opened Text
  import opened Download

  /** Nothing usable came: no connection, a passing HTTP error, or an answer out of place. */
  predicate NothingCame(remote: Bytes, request: Request, round: Round) {
    !Conforms(round.reply, remote, request.offset) || round.reply.ConnectionError? || round.reply == HttpError(true)
  }

  /** A body began and broke off. */
  predicate BrokeOff(remote: Bytes, request: Request, round: Round) {
    && Conforms(round.reply, remote, request.offset)
    && (round.reply.Full? || round.reply.Partial?) && round.reply.ending.StreamError?
  }

  predicate MayPass(remote: Bytes, request: Request, round: Round) {
    NothingCame(remote, request, round) || BrokeOff(remote, request, round)
  }

  /** The next request behind an answer: the same again if nothing came; from behind the bytes that
      came if the body broke off, which are on disk; and from the start if the server says that
      there is nothing at that offset. Behind any other answer there is none. */
  predicate AsksNext(remote: Bytes, request: Request, round: Round, next: Request) {
    if NothingCame(remote, request, round) then next == request
    else
      match round.reply
      case Partial(_, _, chunks, StreamError) =>
        && next.offset == request.offset + |Concat(chunks)| <= |remote|
        && next.part == Some(remote[..next.offset])
      case Full(_, chunks, StreamError) =>
        && next.offset == |Concat(chunks)| <= |remote| && next.part == Some(remote[..next.offset])
      case RangeNotSatisfiable =>
        next.offset == 0 && next.part == if round.removed then None else request.part
      case _ => false
  }

  /** How many of the answers were failures that may pass. */
  function Failures(remote: Bytes, sent: seq<Request>, script: seq<Round>): nat
    requires |sent| <= |script|
    decreases |sent|
  {
    if sent == [] then 0
    else (if MayPass(remote, sent[0], script[0]) then 1 else 0) + Failures(remote, sent[1..], script[1..])
  }

  /** The last answer is one that ends the download in failure: a lasting HTTP error, or the eleventh
      failure that may pass. */
  predicate Defeated(remote: Bytes, sent: seq<Request>, script: seq<Round>)
    requires |sent| <= |script|
  {
    && sent != []
    && var k := |sent| - 1;
       if MayPass(remote, sent[k], script[k]) then Failures(remote, sent, script) == 11
       else script[k].reply == HttpError(false)
  }

  lemma {:induction false} TurnAsksNext(remote: Bytes, p: Progress, round: Round)
    requires Sound(p, remote)
    ensures var request, turn := Request(p.fileBytes, p.part), TakeTurn(remote, p, round);
      turn.Again? ==>
        && AsksNext(remote, request, round, Request(turn.next.fileBytes, turn.next.part))
        && turn.next.retries == p.retries + if MayPass(remote, request, round) then 1 else 0
  {
    var reply := round.reply;
    if Conforms(reply, remote, p.fileBytes) && (reply.Full? || reply.Partial?) {
      TakenIsAPrefix(remote, p, reply, round.removed);
    }
  }

  lemma {:induction false} TurnEnds(remote: Bytes, p: Progress, round: Round)
    requires Sound(p, remote)
    ensures var request, turn := Request(p.fileBytes, p.part), TakeTurn(remote, p, round);
      turn.Over? ==>
        && (turn.outcome.Failed? <==>
              if MayPass(remote, request, round) then p.retries == MAX_RETRIES else round.reply == HttpError(false))
        && !turn.outcome.Unfinished?
  {
  }

  /** What holds of the requests of a run that began with `retries` failures behind it. */
  ghost predicate GoesOn(remote: Bytes, retries: nat, script: seq<Round>, r: Result) {
    && |r.sent| <= |script|
    && (forall k | 0 <= k < |r.sent| - 1 :: AsksNext(remote, r.sent[k], script[k], r.sent[k + 1]))
    && retries + Failures(remote, r.sent, script) <= MAX_RETRIES + 1
    && (r.outcome.Failed? <==>
          r.sent != [] &&
          if MayPass(remote, r.sent[|r.sent| - 1], script[|r.sent| - 1])
          then retries + Failures(remote, r.sent, script) == MAX_RETRIES + 1
          else script[|r.sent| - 1].reply == HttpError(false))
  }

  lemma {:induction false} OneMoreRequest(
    remote: Bytes, retries: nat, more: nat, script: seq<Round>, request: Request, r: Result)
    requires script != [] && GoesOn(remote, more, script[1..], r)
    requires more == retries + if MayPass(remote, request, script[0]) then 1 else 0
    requires more <= MAX_RETRIES
    requires r.sent != [] ==> AsksNext(remote, request, script[0], r.sent[0])
    requires r.sent == [] ==> script[0].reply != HttpError(false)
    ensures GoesOn(remote, retries, script, Sending(request, r))
  {
    var s := Sending(request, r);
    assert s.sent == [request] + r.sent && s.sent[1..] == r.sent;
    forall k | 0 <= k < |s.sent| - 1 ensures AsksNext(remote, s.sent[k], script[k], s.sent[k + 1]) {
      if k > 0 { assert AsksNext(remote, r.sent[k - 1], script[1..][k - 1], r.sent[k]); }
    }
    if r.sent != [] {
      assert s.sent[|s.sent| - 1] == r.sent[|r.sent| - 1] && script[|s.sent| - 1] == script[1..][|r.sent| - 1];
    }
  }

  lemma {:induction false} RunsGoOn(remote: Bytes, p: Progress, script: seq<Round>)
    requires Sound(p, remote)
    ensures var r := RunScript(remote, p, script);
      && GoesOn(remote, p.retries, script, r)
      && (r.sent != [] ==> r.sent[0] == Request(p.fileBytes, p.part))
    decreases |script|
  {
    if script != [] && !script[0].cancelled {
      var request, turn := Request(p.fileBytes, p.part), TakeTurn(remote, p, script[0]);
      TurnAsksNext(remote, p, script[0]);
      if turn.Again? {
        TurnIsSound(remote, p, script[0]);
        RunsGoOn(remote, turn.next, script[1..]);
        var rest := RunScript(remote, turn.next, script[1..]);
        OneMoreRequest(remote, p.retries, turn.next.retries, script, request, rest);
      } else {
        TurnEnds(remote, p, script[0]);
        assert [request][1..] == [];
      }
    }
  }

  /** Main: a download resumes. The first request asks for what is behind the part file, unless that
      was dropped as too long; each further one goes on as the answer before it demands; and it fails
      exactly for a lasting HTTP error or the eleventh failure that may pass. */
  lemma {:induction false} DownloadsResume(
    remote: Bytes, headTotal: nat, initial: Option<Bytes>, removedFirst: bool, script: seq<Round>)
    requires (headTotal == 0 || headTotal == |remote|) && Resumable(initial, remote)
    ensures var r := DownloadOf(remote, headTotal, initial, removedFirst, script);
      && |r.sent| <= |script|
      && (r.sent != [] ==>
            r.sent[0] == if headTotal > 0 && Size(initial) > headTotal
                         then Request(0, if removedFirst then None else initial)
                         else Request(Size(initial), initial))
      && (forall k | 0 <= k < |r.sent| - 1 :: AsksNext(remote, r.sent[k], script[k], r.sent[k + 1]))
      && (r.outcome.Failed? <==> Defeated(remote, r.sent, script))
  {
    var begun := Begin(headTotal, initial, removedFirst);
    if begun.Again? { RunsGoOn(remote, begun.next, script); }
  }

  /** So an offset falls only behind a 416 or a 200 that ignores the Range. */
  lemma {:induction false} OffsetsFallOnlyWhenTold(
    remote: Bytes, headTotal: nat, initial: Option<Bytes>, removedFirst: bool, script: seq<Round>, k: nat)
    requires (headTotal == 0 || headTotal == |remote|) && Resumable(initial, remote)
    requires var sent := DownloadOf(remote, headTotal, initial, removedFirst, script).sent;
      k + 1 < |sent| && sent[k + 1].offset < sent[k].offset
    ensures k < |script| && (script[k].reply.RangeNotSatisfiable? || script[k].reply.Full?)
  {
    DownloadsResume(remote, headTotal, initial, removedFirst, script);
  }

  // ---------------------------------------------------------------------------
  // When nothing is left to ask for
  // ---------------------------------------------------------------------------

  /** The headers of this answer tell the size of the file. */
  predicate TellsSize(remote: Bytes, request: Request, round: Round) {
    && Conforms(round.reply, remote, request.offset)
    && (round.reply.Full? || round.reply.Partial?) && round.reply.total.Some? && |remote| > 0
  }

  /** The server says that there is nothing behind the offset. */
  predicate NothingLeft(remote: Bytes, request: Request, round: Round) {
    round.reply.RangeNotSatisfiable? && Conforms(round.reply, remote, request.offset)
  }

  /** Each such answer ends the download in success exactly when the size was known and reached. */
  ghost predicate EndsWhenReached(remote: Bytes, known: bool, script: seq<Round>, r: Result) {
    && |r.sent| <= |script|
    && forall k | 0 <= k < |r.sent| && NothingLeft(remote, r.sent[k], script[k]) ::
         (k == |r.sent| - 1 && r.outcome.Completed?) <==>
         ((known || exists j | 0 <= j < k :: TellsSize(remote, r.sent[j], script[j])) && r.sent[k].offset == |remote|)
  }

  lemma {:induction false} TurnKnowsTheSize(remote: Bytes, p: Progress, round: Round)
    requires Sound(p, remote)
    ensures var request, turn := Request(p.fileBytes, p.part), TakeTurn(remote, p, round);
      && (turn.Again? ==> (turn.next.fileTotal > 0 <==> p.fileTotal > 0 || TellsSize(remote, request, round)))
      && (NothingLeft(remote, request, round) ==>
            ((turn.Over? && turn.outcome.Completed?) <==> p.fileTotal > 0 && p.fileBytes == |remote|))
      && (turn.Over? && NothingLeft(remote, request, round) ==> turn.outcome.Completed?)
  {
  }

  lemma {:induction false} ReachedBehindOne(
    remote: Bytes, known: bool, later: bool, script: seq<Round>, request: Request, r: Result)
    requires script != [] && EndsWhenReached(remote, later, script[1..], r)
    requires later <==> known || TellsSize(remote, request, script[0])
    requires NothingLeft(remote, request, script[0]) ==>
               !(known && request.offset == |remote|) && (r.outcome.Completed? ==> r.sent != [])
    ensures EndsWhenReached(remote, known, script, Sending(request, r))
  {
    var s := Sending(request, r);
    assert s.sent == [request] + r.sent;
    forall k | 0 <= k < |s.sent| && NothingLeft(remote, s.sent[k], script[k])
      ensures (k == |s.sent| - 1 && s.outcome.Completed?) <==>
        ((known || exists j | 0 <= j < k :: TellsSize(remote, s.sent[j], script[j])) && s.sent[k].offset == |remote|)
    {
      if k > 0 {
        assert NothingLeft(remote, r.sent[k - 1], script[1..][k - 1]);
        if j :| 0 <= j < k - 1 && TellsSize(remote, r.sent[j], script[1..][j]) {
          assert TellsSize(remote, s.sent[j + 1], script[j + 1]);
        }
        if j :| 0 <= j < k && TellsSize(remote, s.sent[j], script[j]) {
          if j > 0 { assert TellsSize(remote, r.sent[j - 1], script[1..][j - 1]); }
        }
      }
    }
  }

  lemma {:induction false} RunsEndWhenReached(remote: Bytes, p: Progress, script: seq<Round>)
    requires Sound(p, remote)
    ensures EndsWhenReached(remote, p.fileTotal > 0, script, RunScript(remote, p, script))
    ensures RunScript(remote, p, script).outcome.Completed? ==> RunScript(remote, p, script).sent != []
    decreases |script|
  {
    if script != [] && !script[0].cancelled {
      var turn := TakeTurn(remote, p, script[0]);
      TurnKnowsTheSize(remote, p, script[0]);
      if turn.Again? {
        TurnIsSound(remote, p, script[0]);
        RunsEndWhenReached(remote, turn.next, script[1..]);
        ReachedBehindOne(remote, p.fileTotal > 0, turn.next.fileTotal > 0, script, Request(p.fileBytes, p.part),
                         RunScript(remote, turn.next, script[1..]));
      }
    }
  }

  /** Main: a part file of the right size is the file, without a request; and an answer that nothing
      is left ends the download in success exactly when the size was known, from the headers of some
      answer or beforehand, and reached. */
  lemma {:induction false} ReachedIsCompleted(
    remote: Bytes, headTotal: nat, initial: Option<Bytes>, removedFirst: bool, script: seq<Round>)
    requires (headTotal == 0 || headTotal == |remote|) && Resumable(initial, remote)
    ensures var r := DownloadOf(remote, headTotal, initial, removedFirst, script);
      if headTotal > 0 && Size(initial) == headTotal then
        r.outcome.Completed? && r.sent == [] && r.files == Files(None, Some(remote))
      else EndsWhenReached(remote, headTotal > 0, script, r)
  {
    var begun := Begin(headTotal, initial, removedFirst);
    if begun.Again? {
      RunsEndWhenReached(remote, begun.next, script);
    } else {
      KeptIsAPrefix(initial, headTotal, remote);
      assert remote[..|remote|] == remote;
    }
  }

  // ---------------------------------------------------------------------------
  // What is left on disk
  // ---------------------------------------------------------------------------

  /** The part file behind an answer that does not complete. */
  function PartBehind(remote: Bytes, request: Request, round: Round): Option<Bytes> {
    if NothingCame(remote, request, round) then request.part
    else
      match round.reply
      case Partial(_, _, chunks, _) =>
        var n := request.offset + |Concat(chunks)|;
        if n <= |remote| then Some(remote[..n]) else None
      case Full(_, chunks, _) =>
        var n := |Concat(chunks)|;
        if n <= |remote| then Some(remote[..n]) else None
      case RangeNotSatisfiable => if round.removed then None else request.part
      case _ => request.part
  }

  /** The part file when the last request has been answered. */
  function LastPart(remote: Bytes, first: Option<Bytes>, sent: seq<Request>, script: seq<Round>): Option<Bytes>
    requires |sent| <= |script|
  {
    if sent == [] then first else PartBehind(remote, sent[|sent| - 1], script[|sent| - 1])
  }

  /** The user cancelled while the last body came, or in the wait behind the last answer. */
  predicate CancelledInBody(remote: Bytes, request: Request, round: Round) {
    && Conforms(round.reply, remote, request.offset)
    && (round.reply.Full? || round.reply.Partial?) && round.reply.ending.Cancellation?
  }

  predicate CancelledAsleep(remote: Bytes, request: Request, round: Round) {
    MayPass(remote, request, round) && round.cancelledAsleep
  }

  /** A failed download keeps its part file; a cancelled one deletes it, if it can, except when it was
      cancelled asleep. */
  ghost predicate Leaves(remote: Bytes, first: Option<Bytes>, script: seq<Round>, r: Result) {
    && |r.sent| <= |script|
    && var n, part := |r.sent|, LastPart(remote, first, r.sent, script);
       match r.outcome
       case Completed => true
       case Cancelled =>
         r.files.destination.None? &&
         if n > 0 && CancelledInBody(remote, r.sent[n - 1], script[n - 1]) then
           r.files.part == if script[n - 1].removed then None else part
         else if n > 0 && CancelledAsleep(remote, r.sent[n - 1], script[n - 1]) then r.files.part == part
         else n < |script| && script[n].cancelled && r.files.part == if script[n].removed then None else part
       case _ => r.files == Files(part, None)
  }

  lemma {:induction false} TurnLeaves(remote: Bytes, p: Progress, round: Round)
    requires Sound(p, remote)
    ensures var request := Request(p.fileBytes, p.part);
      var part := PartBehind(remote, request, round);
      match TakeTurn(remote, p, round)
      case Again(next) =>
        next.part == part && !CancelledInBody(remote, request, round) && !CancelledAsleep(remote, request, round)
      case Over(outcome, files, last) =>
        match outcome
        case Completed => true
        case Cancelled =>
          files == Files(if CancelledInBody(remote, request, round) && round.removed then None else part, None)
          && (CancelledInBody(remote, request, round) || CancelledAsleep(remote, request, round))
        case _ => files == Files(part, None)
  {
    var reply := round.reply;
    if Conforms(reply, remote, p.fileBytes) && (reply.Full? || reply.Partial?) {
      TakenIsAPrefix(remote, p, reply, round.removed);
    }
  }

  lemma {:induction false} LeavesBehindOne(
    remote: Bytes, first: Option<Bytes>, script: seq<Round>, request: Request, next: Option<Bytes>, r: Result)
    requires script != [] && Leaves(remote, next, script[1..], r)
    requires next == PartBehind(remote, request, script[0])
    requires !CancelledInBody(remote, request, script[0]) && !CancelledAsleep(remote, request, script[0])
    ensures Leaves(remote, first, script, Sending(request, r))
  {
    var s := Sending(request, r);
    assert s.sent == [request] + r.sent;
    if r.sent != [] {
      assert s.sent[|s.sent| - 1] == r.sent[|r.sent| - 1] && script[|s.sent| - 1] == script[1..][|r.sent| - 1];
    }
  }

  lemma {:induction false} RunsLeave(remote: Bytes, p: Progress, script: seq<Round>)
    requires Sound(p, remote)
    ensures Leaves(remote, p.part, script, RunScript(remote, p, script))
    decreases |script|
  {
    if script != [] && !script[0].cancelled {
      var turn := TakeTurn(remote, p, script[0]);
      TurnLeaves(remote, p, script[0]);
      if turn.Again? {
        TurnIsSound(remote, p, script[0]);
        RunsLeave(remote, turn.next, script[1..]);
        LeavesBehindOne(remote, p.part, script, Request(p.fileBytes, p.part), turn.next.part,
                        RunScript(remote, turn.next, script[1..]));
      }
    }
  }

  /** Main: what a download that does not complete leaves on disk. */
  lemma {:induction false} DownloadsLeave(
    remote: Bytes, headTotal: nat, initial: Option<Bytes>, removedFirst: bool, script: seq<Round>)
    requires (headTotal == 0 || headTotal == |remote|) && Resumable(initial, remote)
    ensures Leaves(remote, if headTotal > 0 && Size(initial) > headTotal && removedFirst then None else initial,
                   script, DownloadOf(remote, headTotal, initial, removedFirst, script))
  {
    var begun := Begin(headTotal, initial, removedFirst);
    if begun.Again? { RunsLeave(remote, begun.next, script); }
  }
}
