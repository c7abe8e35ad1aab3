/** Resumable download of one file, and of several in sequence. The server answers as sections
    14.2, 15.3.7 and 15.5.17 of RFC 9110 allow, on a file that does not change. */
module Download {
  import opened Text

  newtype byte = x: int | 0 <= x < 256

  type Bytes = seq<byte>

  const MAX_RETRIES: nat := 10

  // ---------------------------------------------------------------------------
  // The server
  // ---------------------------------------------------------------------------

  /** How a body ends: complete, broken off, or abandoned because the download was cancelled. */
  datatype Ending = Clean | StreamError | Cancellation

  /** What one GET brings. `total` is the size of the file when the headers tell it. */
  datatype Reply =
    | ConnectionError
    | HttpError(transient: bool)
    | RangeNotSatisfiable
    | Full(total: Option<nat>, chunks: seq<Bytes>, ending: Ending)
    | Partial(total: Option<nat>, stop: nat, chunks: seq<Bytes>, ending: Ending)

  function Concat(chunks: seq<Bytes>): Bytes {
    if chunks == [] then [] else Concat(chunks[..|chunks| - 1]) + chunks[|chunks| - 1]
  }

  /** The chunks are a body cut anywhere, all of it when it ends cleanly. */
  predicate Delivers(chunks: seq<Bytes>, ending: Ending, body: Bytes) {
    Concat(chunks) <= body && (ending.Clean? ==> Concat(chunks) == body)
  }

  /** The answers allowed to a request for the bytes from `offset` on; offset 0 asks for the whole
      file without a Range. A 206 starts at the offset but may stop short of the end. */
  predicate Conforms(reply: Reply, remote: Bytes, offset: nat) {
    match reply
    case RangeNotSatisfiable => offset > 0 && offset >= |remote|
    case Full(total, chunks, ending) =>
      (total.Some? ==> total.value == |remote|) && Delivers(chunks, ending, remote)
    case Partial(total, stop, chunks, ending) =>
      && (total.Some? ==> total.value == |remote|)
      && 0 < offset < stop <= |remote| && Delivers(chunks, ending, remote[offset..stop])
    case _ => true
  }

  /** Any answer that conforms; a script entry that would not stands for a failed connection. */
  function Answer(remote: Bytes, offset: nat, wish: Reply): (reply: Reply)
    ensures Conforms(reply, remote, offset)
  {
    if Conforms(wish, remote, offset) then wish else ConnectionError
  }

  // ---------------------------------------------------------------------------
  // One file
  // ---------------------------------------------------------------------------

  /** One turn of the retry loop. `cancelled` and `cancelledAsleep`: the user has cancelled when the
      turn begins, or while it waits before a retry. `removed`: deleting the part file succeeds if
      it is tried. */
  datatype Round = Round(cancelled: bool, reply: Reply, removed: bool, cancelledAsleep: bool)

  datatype Files = Files(part: Option<Bytes>, destination: Option<Bytes>)

  datatype Outcome = Completed | Cancelled | Failed | Unfinished

  /** A GET with its Range offset, and the part file at that moment. */
  datatype Request = Request(offset: nat, part: Option<Bytes>)

  function SaturatingSub(a: nat, b: nat): nat {
    if a < b then 0 else a - b
  }

  function Remove(file: Option<Bytes>, removed: bool): Option<Bytes> {
    if removed then None else file
  }

  function Size(file: Option<Bytes>): nat {
    if file.Some? then |file.value| else 0
  }

  /** `create` followed by `set_len`. */
  function SetLen(file: Option<Bytes>, n: nat): Bytes {
    var bytes := if file.Some? then file.value else [];
    if n <= |bytes| then bytes[..n] else bytes + seq(n - |bytes|, _ => 0)
  }

  // ---------------------------------------------------------------------------
  // What the retry loop does, as a function of the script
  // ---------------------------------------------------------------------------

  /** The variables of the loop. */
  datatype Progress = Progress(part: Option<Bytes>, fileBytes: nat, fileTotal: nat, retries: nat)

  datatype Turn = Again(next: Progress) | Over(outcome: Outcome, files: Files, last: Progress)

  datatype Result = Result(outcome: Outcome, files: Files, last: Progress, sent: seq<Request>)

  /** After a failure that may pass: wait and try again, up to the limit. */
  function Retry(p: Progress, round: Round): Turn {
    if p.retries >= MAX_RETRIES then Over(Failed, Files(p.part, None), p)
    else
      var next := p.(retries := p.retries + 1);
      if round.cancelledAsleep then Over(Cancelled, Files(p.part, None), next) else Again(next)
  }

  /** A 200 or 206 taken in; a 200 that ignores the Range restarts the file. */
  function Taken(p: Progress, reply: Reply, removed: bool): Progress
    requires reply.Full? || reply.Partial?
  {
    var restart := p.fileBytes > 0 && reply.Full?;
    var kept := if restart then 0 else p.fileBytes;
    var part := if restart then Remove(p.part, removed) else p.part;
    var body := Concat(reply.chunks);
    p.(part := Some(SetLen(part, kept) + body), fileBytes := kept + |body|,
       fileTotal := if p.fileTotal == 0 && reply.total.Some? then reply.total.value else p.fileTotal)
  }

  function TakeTurn(remote: Bytes, p: Progress, round: Round): Turn {
    var reply := Answer(remote, p.fileBytes, round.reply);
    match reply
    case ConnectionError => Retry(p, round)
    case HttpError(transient) => if transient then Retry(p, round) else Over(Failed, Files(p.part, None), p)
    case RangeNotSatisfiable =>
      if p.fileTotal > 0 && p.fileBytes == p.fileTotal then Over(Completed, Files(None, p.part), p)
      else Again(p.(fileBytes := 0, part := Remove(p.part, round.removed)))
    case _ =>
      var q := Taken(p, reply, round.removed);
      match reply.ending
      case Clean => Over(Completed, Files(None, q.part), q)
      case Cancellation => Over(Cancelled, Files(Remove(q.part, round.removed), None), q)
      case StreamError => Retry(q, round)
  }

  function RunScript(remote: Bytes, p: Progress, script: seq<Round>): Result
    decreases |script|
  {
    if script == [] then Result(Unfinished, Files(p.part, None), p, [])
    else if script[0].cancelled then Result(Cancelled, Files(Remove(p.part, script[0].removed), None), p, [])
    else
      match TakeTurn(remote, p, script[0])
      case Over(outcome, files, last) => Result(outcome, files, last, [Request(p.fileBytes, p.part)])
      case Again(next) => Sending(Request(p.fileBytes, p.part), RunScript(remote, next, script[1..]))
  }

  function Sending(request: Request, r: Result): Result {
    r.(sent := [request] + r.sent)
  }

  /** Before the loop: a part file of the right size is promoted, one that is too long dropped. */
  function Begin(headTotal: nat, initial: Option<Bytes>, removedFirst: bool): Turn {
    var p := Progress(initial, Size(initial), headTotal, 0);
    if headTotal > 0 && p.fileBytes == headTotal then Over(Completed, Files(None, initial), p)
    else if headTotal > 0 && p.fileBytes > headTotal then
      Again(p.(fileBytes := 0, part := Remove(initial, removedFirst)))
    else Again(p)
  }

  function DownloadOf(
    remote: Bytes, headTotal: nat, initial: Option<Bytes>, removedFirst: bool, script: seq<Round>): Result
  {
    match Begin(headTotal, initial, removedFirst)
    case Over(outcome, files, last) => Result(outcome, files, last, [])
    case Again(p) => RunScript(remote, p, script)
  }

  /** Requests already made, in front of a result. */
  function After(sent: seq<Request>, r: Result): Result {
    r.(sent := sent + r.sent)
  }

  /** One turn of the loop, at position `i` of the script. */
  lemma ScriptStep(remote: Bytes, p: Progress, script: seq<Round>, i: nat, sent: seq<Request>)
    requires i < |script|
    ensures var request := Request(p.fileBytes, p.part);
      After(sent, RunScript(remote, p, script[i..]))
      == if script[i].cancelled then Result(Cancelled, Files(Remove(p.part, script[i].removed), None), p, sent)
         else
           match TakeTurn(remote, p, script[i])
           case Over(outcome, files, last) => Result(outcome, files, last, sent + [request])
           case Again(next) => After(sent + [request], RunScript(remote, next, script[i + 1..]))
  {
    assert script[i..][0] == script[i] && script[i..][1..] == script[i + 1..];
    var request := Request(p.fileBytes, p.part);
    if !script[i].cancelled {
      var turn := TakeTurn(remote, p, script[i]);
      if turn.Again? {
        var rest := RunScript(remote, turn.next, script[i + 1..]);
        assert sent + ([request] + rest.sent) == sent + [request] + rest.sent;
      }
    } else {
      assert sent + [] == sent;
    }
  }

  lemma NoScriptLeft(remote: Bytes, p: Progress, script: seq<Round>, sent: seq<Request>)
    ensures After(sent, RunScript(remote, p, script[|script|..])) == Result(Unfinished, Files(p.part, None), p, sent)
  {
    assert sent + [] == sent;
  }

  // ---------------------------------------------------------------------------
  // Why a download ends
  // ---------------------------------------------------------------------------

  /** A 200 or 206 that ends cleanly. */
  predicate CleanlyServed(remote: Bytes, request: Request, round: Round) {
    && Conforms(round.reply, remote, request.offset)
    && (round.reply.Full? || round.reply.Partial?) && round.reply.ending.Clean?
  }

  /** The user cancelled: at the start of a turn, in the body of the last answer, or in the wait
      behind it. */
  predicate UserCancelled(script: seq<Round>, made: nat) {
    || (made < |script| && script[made].cancelled)
    || (0 < made <= |script| &&
          var last := script[made - 1];
          last.cancelledAsleep || ((last.reply.Full? || last.reply.Partial?) && last.reply.ending.Cancellation?))
  }

  /** Only the user cancels; a clean answer completes; and no turn behind a cancelled one is made. */
  lemma {:induction false} ScriptsEndForAReason(remote: Bytes, p: Progress, script: seq<Round>)
    ensures var r := RunScript(remote, p, script);
      && |r.sent| <= |script|
      && (r.outcome.Cancelled? ==> UserCancelled(script, |r.sent|))
      && (r.outcome.Unfinished? ==> |r.sent| == |script|)
      && (forall k | 0 <= k < |r.sent| :: !script[k].cancelled)
      && (!r.outcome.Completed? ==>
            forall k | 0 <= k < |r.sent| :: !CleanlyServed(remote, r.sent[k], script[k]))
    decreases |script|
  {
    if script != [] && !script[0].cancelled {
      var turn := TakeTurn(remote, p, script[0]);
      if turn.Again? {
        var rest, r := RunScript(remote, turn.next, script[1..]), RunScript(remote, p, script);
        ScriptsEndForAReason(remote, turn.next, script[1..]);
        assert forall k | 0 < k <= |script[1..]| :: script[k] == script[1..][k - 1];
        assert forall k | 0 < k < |r.sent| :: r.sent[k] == rest.sent[k - 1];
      }
    }
  }

  // ---------------------------------------------------------------------------
  // What every run keeps
  // ---------------------------------------------------------------------------

  /** Left by an earlier download of this file, or too long to be that. */
  predicate Resumable(part: Option<Bytes>, remote: Bytes) {
    part.Some? ==> part.value <= remote || |part.value| > |remote|
  }

  /** How far the last answer reached. */
  function Reach(remote: Bytes, script: seq<Round>, rounds: nat): nat
    requires rounds <= |script|
  {
    if 0 < rounds && script[rounds - 1].reply.Partial? then script[rounds - 1].reply.stop else |remote|
  }

  /** The part file agrees with the count of kept bytes. */
  predicate Kept(part: Option<Bytes>, fileBytes: nat, remote: Bytes) {
    fileBytes > 0 ==> Size(part) == fileBytes && Resumable(part, remote)
  }

  predicate Sound(p: Progress, remote: Bytes) {
    Kept(p.part, p.fileBytes, remote) && (p.fileTotal == 0 || p.fileTotal == |remote|) && p.retries <= MAX_RETRIES
  }

  /** A request for a part of the file finds exactly the bytes before it on disk. */
  predicate SentWell(request: Request, remote: Bytes) {
    0 < request.offset <= |remote| ==> request.part == Some(remote[..request.offset])
  }

  lemma KeptIsAPrefix(part: Option<Bytes>, fileBytes: nat, remote: Bytes)
    requires Kept(part, fileBytes, remote) && 0 < fileBytes <= |remote|
    ensures part == Some(remote[..fileBytes])
  {
    assert part.value == remote[..fileBytes];
  }

  /** Where a served body ends when it is complete. */
  function StopOf(reply: Reply, remote: Bytes): nat {
    if reply.Partial? then reply.stop else |remote|
  }

  /** Prefix plus delivered body is a longer prefix. */
  lemma DeliveredIsAPrefix(remote: Bytes, offset: nat, stop: nat, got: Bytes)
    requires offset <= stop <= |remote| && got <= remote[offset..stop]
    ensures remote[..offset] + got == remote[..offset + |got|]
  {
    assert got == remote[offset..stop][..|got|];
  }

  /** What is on disk after a 200 or a 206 is a prefix of the remote file, up to where the answer
      reached if it ended cleanly. */
  lemma TakenIsAPrefix(remote: Bytes, p: Progress, reply: Reply, removed: bool)
    requires Sound(p, remote) && Conforms(reply, remote, p.fileBytes) && (reply.Full? || reply.Partial?)
    ensures var q := Taken(p, reply, removed);
      && Sound(q, remote) && q.retries == p.retries
      && q.fileBytes <= StopOf(reply, remote) <= |remote| && q.part == Some(remote[..q.fileBytes])
      && (reply.ending.Clean? ==> q.fileBytes == StopOf(reply, remote))
  {
    var restart := p.fileBytes > 0 && reply.Full?;
    var kept := if restart then 0 else p.fileBytes;
    if kept > 0 { KeptIsAPrefix(p.part, kept, remote); }
    assert SetLen(if restart then Remove(p.part, removed) else p.part, kept) == remote[..kept];
    assert reply.Full? ==> remote[0..|remote|] == remote;
    DeliveredIsAPrefix(remote, kept, StopOf(reply, remote), Concat(reply.chunks));
  }

  /** How many requests may still follow: each retry can be followed by one 416. */
  function Allowance(p: Progress): int {
    2 * (MAX_RETRIES - p.retries) + 1 + if p.fileBytes > 0 then 1 else 0
  }

  lemma RetryIsSound(remote: Bytes, p: Progress, round: Round)
    requires Sound(p, remote)
    ensures match Retry(p, round)
            case Again(next) => Sound(next, remote) && next.retries == p.retries + 1
            case Over(outcome, files, last) =>
              && files.destination.None? && !outcome.Completed? && Sound(last, remote)
              && (outcome.Failed? ==> last.retries == MAX_RETRIES)
  {
  }

  /** One turn keeps the part file sound and uses up the allowance; if it is the last, it says why. */
  lemma TurnIsSound(remote: Bytes, p: Progress, round: Round)
    requires Sound(p, remote)
    ensures SentWell(Request(p.fileBytes, p.part), remote)
    ensures match TakeTurn(remote, p, round)
            case Again(next) => Sound(next, remote) && Allowance(next) < Allowance(p)
            case Over(outcome, files, last) =>
              && last.retries <= MAX_RETRIES
              && (outcome.Completed? ==>
                    var reach := if round.reply.Partial? then round.reply.stop else |remote|;
                    reach <= |remote| && files == Files(None, Some(remote[..reach])) && last.fileBytes == reach)
              && (outcome.Failed? ==> last.retries == MAX_RETRIES || round.reply == HttpError(false))
              && (!outcome.Completed? ==> files.destination.None?)
  {
    var reply := Answer(remote, p.fileBytes, round.reply);
    if 0 < p.fileBytes <= |remote| { KeptIsAPrefix(p.part, p.fileBytes, remote); }
    RetryIsSound(remote, p, round);
    if reply.Full? || reply.Partial? {
      TakenIsAPrefix(remote, p, reply, round.removed);
      RetryIsSound(remote, Taken(p, reply, round.removed), round);
    }
  }

  /** What a result promises about the remote file and the script. */
  predicate Promises(remote: Bytes, script: seq<Round>, r: Result) {
    && r.last.retries <= MAX_RETRIES && |r.sent| <= |script|
    && (forall k | 0 <= k < |r.sent| :: SentWell(r.sent[k], remote))
    && (r.outcome.Completed? ==>
          var reach := Reach(remote, script, |r.sent|);
          reach <= |remote| && r.files == Files(None, Some(remote[..reach])) && r.last.fileBytes == reach)
    && (r.outcome.Failed? ==>
          0 < |r.sent| && (r.last.retries == MAX_RETRIES || script[|r.sent| - 1].reply == HttpError(false)))
    && (!r.outcome.Completed? ==> r.files.destination.None?)
  }

  lemma SendingKeepsPromises(remote: Bytes, script: seq<Round>, request: Request, r: Result)
    requires script != [] && SentWell(request, remote) && Promises(remote, script[1..], r)
    requires r.outcome.Completed? ==> r.sent != []
    ensures Promises(remote, script, Sending(request, r))
  {
    var s := Sending(request, r);
    assert forall k | 0 < k < |s.sent| :: s.sent[k] == r.sent[k - 1];
    if r.sent != [] { assert script[|s.sent| - 1] == script[1..][|r.sent| - 1]; }
  }

  lemma {:induction false} RunsKeepTheirPromises(remote: Bytes, p: Progress, script: seq<Round>)
    requires Sound(p, remote)
    ensures var r := RunScript(remote, p, script);
      && Promises(remote, script, r) && |r.sent| <= Allowance(p)
      && (r.outcome.Unfinished? ==> |r.sent| < Allowance(p))
      && (r.outcome.Completed? ==> r.sent != [])
    decreases |script|
  {
    if script != [] && !script[0].cancelled {
      TurnIsSound(remote, p, script[0]);
      var turn := TakeTurn(remote, p, script[0]);
      if turn.Again? {
        RunsKeepTheirPromises(remote, turn.next, script[1..]);
        SendingKeepsPromises(remote, script, Request(p.fileBytes, p.part), RunScript(remote, turn.next, script[1..]));
      }
    }
  }

  /** Main: against every conforming server a request with a Range finds exactly that prefix on disk,
      there are at most 10 retries and 22 requests, and what completes is the remote file up to
      where the last answer reached; only the user cancels, and a clean answer completes. */
  lemma DownloadsKeepTheirPromises(
    remote: Bytes, headTotal: nat, initial: Option<Bytes>, removedFirst: bool, script: seq<Round>)
    requires (headTotal == 0 || headTotal == |remote|) && Resumable(initial, remote)
    ensures var r := DownloadOf(remote, headTotal, initial, removedFirst, script);
      && Promises(remote, script, r) && |r.sent| <= 2 * MAX_RETRIES + 2
      && (r.outcome.Unfinished? ==> |r.sent| == |script| <= 2 * MAX_RETRIES + 1)
      && (r.outcome.Cancelled? ==> UserCancelled(script, |r.sent|))
      && (forall k | 0 <= k < |r.sent| :: !script[k].cancelled)
      && (!r.outcome.Completed? ==>
            forall k | 0 <= k < |r.sent| :: !CleanlyServed(remote, r.sent[k], script[k]))
  {
    var begun := Begin(headTotal, initial, removedFirst);
    if begun.Again? {
      RunsKeepTheirPromises(remote, begun.next, script);
      ScriptsEndForAReason(remote, begun.next, script);
    } else {
      KeptIsAPrefix(initial, headTotal, remote);
    }
  }

  /** Main: a completed download is the remote file exactly when the last answer reached its end. */
  lemma CompletedIsWholeExactlyWhen(
    remote: Bytes, headTotal: nat, initial: Option<Bytes>, removedFirst: bool, script: seq<Round>)
    requires (headTotal == 0 || headTotal == |remote|) && Resumable(initial, remote)
    requires DownloadOf(remote, headTotal, initial, removedFirst, script).outcome.Completed?
    ensures var r := DownloadOf(remote, headTotal, initial, removedFirst, script);
      |r.sent| <= |script|
      && (r.files.destination == Some(remote) <==> Reach(remote, script, |r.sent|) == |remote|)
  {
    DownloadsKeepTheirPromises(remote, headTotal, initial, removedFirst, script);
    var reach := Reach(remote, script, |DownloadOf(remote, headTotal, initial, removedFirst, script).sent|);
    assert reach < |remote| ==> |remote[..reach]| < |remote|;
    assert remote[..|remote|] == remote;
  }

  /** So whenever bytes are kept, a 206 that stops short ends the download with a cut-off file. */
  lemma ShortRangeCutsTheFile(remote: Bytes, headTotal: nat, kept: nat, stop: nat, removedFirst: bool)
    requires (headTotal == 0 || headTotal == |remote|) && 0 < kept < stop < |remote|
    ensures var short := Round(false, Partial(Some(|remote|), stop, [remote[kept..stop]], Clean), false, false);
      var r := DownloadOf(remote, headTotal, Some(remote[..kept]), removedFirst, [short]);
      && r.outcome.Completed? && r.files.destination == Some(remote[..stop]) && remote[..stop] != remote
  {
    var chunks := [remote[kept..stop]];
    assert chunks[..0] == [] && Concat(chunks) == remote[kept..stop];
    assert remote[..kept] + remote[kept..stop] == remote[..stop];
    var p := Progress(Some(remote[..kept]), kept, headTotal, 0);
    var short := Round(false, Partial(Some(|remote|), stop, chunks, Clean), false, false);
    assert Answer(remote, kept, short.reply) == short.reply;
    var q := Taken(p, short.reply, false);
    assert remote[..kept][..kept] == remote[..kept];
    assert q.part == Some(remote[..stop]);
    assert TakeTurn(remote, p, short) == Over(Completed, Files(None, q.part), q);
    assert Begin(headTotal, Some(remote[..kept]), removedFirst) == Again(p);
    assert |remote[..stop]| == stop;
  }

  // ---------------------------------------------------------------------------
  // The loop itself
  // ---------------------------------------------------------------------------

  /** The chunk loop: it appends what arrives and counts it twice. */
  method ReceiveBody(chunks: seq<Bytes>, file: Bytes, fileBytes: nat, cumulative: nat)
    returns (file': Bytes, fileBytes': nat, cumulative': nat)
    ensures file' == file + Concat(chunks)
    ensures fileBytes' == fileBytes + |Concat(chunks)| && cumulative' == cumulative + |Concat(chunks)|
  {
    file', fileBytes', cumulative' := file, fileBytes, cumulative;
    assert chunks[..0] == [];
    for k := 0 to |chunks|
      invariant file' == file + Concat(chunks[..k])
      invariant fileBytes' == fileBytes + |Concat(chunks[..k])| && cumulative' == cumulative + |Concat(chunks[..k])|
    {
      assert chunks[..k + 1][..k] == chunks[..k];
      file' := file' + chunks[k];
      fileBytes' := fileBytes' + |chunks[k]|;
      cumulative' := cumulative' + |chunks[k]|;
    }
    assert chunks[..|chunks|] == chunks;
  }

  /** Taking in a 200 or a 206: restart from scratch when the Range was ignored, learn the size, cut
      the part file to the kept bytes, append the body. */
  method Serve(reply: Reply, p: Progress, cumulative: nat, removed: bool)
    returns (part: Option<Bytes>, fileBytes: nat, fileTotal: nat, cumulative': nat)
    requires (reply.Full? || reply.Partial?) && p.fileBytes <= cumulative
    ensures Progress(part, fileBytes, fileTotal, p.retries) == Taken(p, reply, removed)
    ensures cumulative' - fileBytes == cumulative - p.fileBytes
  {
    part, fileBytes, fileTotal, cumulative' := p.part, p.fileBytes, p.fileTotal, cumulative;
    if fileBytes > 0 && reply.Full? {
      cumulative' := SaturatingSub(cumulative, fileBytes);
      fileBytes := 0;
      part := Remove(part, removed);
    }
    if fileTotal == 0 && reply.total.Some? {
      fileTotal := reply.total.value;
    }
    var file := SetLen(part, fileBytes);
    file, fileBytes, cumulative' := ReceiveBody(reply.chunks, file, fileBytes, cumulative');
    part := Some(file);
  }

  /** The body of the retry loop behind the check for cancellation. */
  method RunTurn(remote: Bytes, p: Progress, round: Round, cumulativeBefore: nat)
    returns (turn: Turn, cumulative: nat)
    requires p.fileBytes <= cumulativeBefore
    ensures turn == TakeTurn(remote, p, round)
    ensures cumulative - (if turn.Again? then turn.next else turn.last).fileBytes == cumulativeBefore - p.fileBytes
  {
    var part, fileBytes, fileTotal, retries := p.part, p.fileBytes, p.fileTotal, p.retries;
    cumulative := cumulativeBefore;
    var reply := Answer(remote, fileBytes, round.reply);
    if reply.RangeNotSatisfiable? {
      if fileTotal > 0 && fileBytes == fileTotal {
        return Over(Completed, Files(None, part), p), cumulative;
      }
      cumulative := SaturatingSub(cumulative, fileBytes);
      fileBytes := 0;
      part := Remove(part, round.removed);
      return Again(Progress(part, fileBytes, fileTotal, retries)), cumulative;
    }
    if reply.HttpError? && !reply.transient {
      return Over(Failed, Files(part, None), p), cumulative;
    }
    if !reply.ConnectionError? && !reply.HttpError? {
      part, fileBytes, fileTotal, cumulative := Serve(reply, p, cumulative, round.removed);
      var q := Progress(part, fileBytes, fileTotal, retries);
      if reply.ending.Clean? { return Over(Completed, Files(None, part), q), cumulative; }
      if reply.ending.Cancellation? {
        return Over(Cancelled, Files(Remove(part, round.removed), None), q), cumulative;
      }
    }
    if retries >= MAX_RETRIES {
      return Over(Failed, Files(part, None), Progress(part, fileBytes, fileTotal, retries)), cumulative;
    }
    retries := retries + 1;
    var next := Progress(part, fileBytes, fileTotal, retries);
    turn := if round.cancelledAsleep then Over(Cancelled, Files(part, None), next) else Again(next);
  }

  /** The retry loop. */
  method RetryLoop(remote: Bytes, first: Progress, script: seq<Round>, cumulativeBefore: nat)
    returns (result: Result, cumulative: nat)
    requires first.fileBytes <= cumulativeBefore
    ensures result == RunScript(remote, first, script)
    ensures cumulative - result.last.fileBytes == cumulativeBefore - first.fileBytes
  {
    var p, sent := first, [];
    cumulative := cumulativeBefore;
    ghost var whole := RunScript(remote, first, script);
    assert script[0..] == script && [] + whole.sent == whole.sent;
    for i := 0 to |script|
      invariant cumulative - p.fileBytes == cumulativeBefore - first.fileBytes
      invariant whole == After(sent, RunScript(remote, p, script[i..]))
    {
      ScriptStep(remote, p, script, i, sent);
      if script[i].cancelled {
        return Result(Cancelled, Files(Remove(p.part, script[i].removed), None), p, sent), cumulative;
      }
      sent := sent + [Request(p.fileBytes, p.part)];
      var turn;
      turn, cumulative := RunTurn(remote, p, script[i], cumulative);
      if turn.Over? {
        return Result(turn.outcome, turn.files, turn.last, sent), cumulative;
      }
      p := turn.next;
    }
    NoScriptLeft(remote, p, script, sent);
    result := Result(Unfinished, Files(p.part, None), p, sent);
  }

  /** `download_one_file`, up to the end of the script. No subtraction from the cumulative count
      saturates. */
  method DownloadOneFile(
    remote: Bytes, headTotal: nat, initial: Option<Bytes>, removedFirst: bool, script: seq<Round>,
    cumulativeBefore: nat)
    returns (result: Result, cumulative: nat)
    requires Size(initial) <= cumulativeBefore
    ensures result == DownloadOf(remote, headTotal, initial, removedFirst, script)
    ensures cumulative - result.last.fileBytes == cumulativeBefore - Size(initial)
    ensures (headTotal == 0 || headTotal == |remote|) && Resumable(initial, remote) ==>
              Promises(remote, script, result) && |result.sent| <= 2 * MAX_RETRIES + 2
  {
    if (headTotal == 0 || headTotal == |remote|) && Resumable(initial, remote) {
      DownloadsKeepTheirPromises(remote, headTotal, initial, removedFirst, script);
    }
    cumulative := cumulativeBefore;
    var p := Progress(initial, Size(initial), headTotal, 0);
    if p.fileTotal > 0 && p.fileBytes == p.fileTotal {
      return Result(Completed, Files(None, p.part), p, []), cumulative;
    }
    if p.fileTotal > 0 && p.fileBytes > p.fileTotal {
      cumulative := SaturatingSub(cumulative, p.fileBytes);
      p := p.(fileBytes := 0, part := Remove(p.part, removedFirst));
    }
    result, cumulative := RetryLoop(remote, p, script, cumulative);
  }

  // ---------------------------------------------------------------------------
  // Several files
  // ---------------------------------------------------------------------------

  /** A file to download: what the server holds, what the disk holds, and what will happen. */
  datatype Shard = Shard(
    remote: Bytes, headTotal: nat, files: Files, cancelled: bool, removedFirst: bool, script: seq<Round>)

  predicate WellPosed(shard: Shard) {
    && (shard.headTotal == 0 || shard.headTotal == |shard.remote|)
    && (shard.files.destination.None? ==> Resumable(shard.files.part, shard.remote))
  }

  /** The bytes on disk that count for a file. */
  function Held(files: Files): nat {
    if files.destination.Some? then |files.destination.value| else Size(files.part)
  }

  function HeldInAll(shards: seq<Shard>): nat {
    if shards == [] then 0 else HeldInAll(shards[1..]) + Held(shards[0].files)
  }

  function BytesIn(files: seq<Files>): nat {
    if files == [] then 0 else BytesIn(files[..|files| - 1]) + Held(files[|files| - 1])
  }

  /** No 206 of the script stops short of the end. */
  predicate ServesToTheEnd(shard: Shard) {
    forall k | 0 <= k < |shard.script| ::
      shard.script[k].reply.Partial? ==> shard.script[k].reply.stop == |shard.remote|
  }

  /** What a finished shard has on disk. */
  predicate Finished(shard: Shard, files: Files) {
    if shard.files.destination.Some? then files == shard.files
    else
      && files.part.None? && files.destination.Some? && files.destination.value <= shard.remote
      && (ServesToTheEnd(shard) ==> files.destination.value == shard.remote)
  }

  /** What the download of a shard comes to. */
  function ShardResult(shard: Shard): Result {
    DownloadOf(shard.remote, shard.headTotal, shard.files.part, shard.removedFirst, shard.script)
  }

  /** The shard at which the sequence ends, and why. */
  predicate EndsAt(shard: Shard, outcome: Outcome) {
    if shard.cancelled then outcome.Cancelled?
    else shard.files.destination.None? && outcome == ShardResult(shard).outcome && !outcome.Completed?
  }

  /** How far the sequence gets: the shards that are skipped or completed. */
  predicate GetsPast(shard: Shard) {
    !shard.cancelled && (shard.files.destination.Some? || ShardResult(shard).outcome.Completed?)
  }

  lemma CompletedShardIsFinished(shard: Shard)
    requires WellPosed(shard) && shard.files.destination.None? && ShardResult(shard).outcome.Completed?
    ensures Finished(shard, ShardResult(shard).files)
    ensures Held(ShardResult(shard).files) == ShardResult(shard).last.fileBytes
  {
    DownloadsKeepTheirPromises(shard.remote, shard.headTotal, shard.files.part, shard.removedFirst, shard.script);
  }

  /** `download_files_sequentially`. */
  method DownloadFilesSequentially(shards: seq<Shard>)
    returns (outcome: Outcome, done: seq<Files>, cumulative: nat)
    requires forall i | 0 <= i < |shards| :: WellPosed(shards[i])
    ensures |done| <= |shards|
    ensures forall i | 0 <= i < |done| :: GetsPast(shards[i]) && Finished(shards[i], done[i])
    ensures outcome.Completed? <==> |done| == |shards|
    ensures outcome.Completed? ==> cumulative == BytesIn(done)
    ensures !outcome.Completed? ==> EndsAt(shards[|done|], outcome)
  {
    cumulative := 0;
    for i := 0 to |shards|
      invariant cumulative + HeldInAll(shards[i..]) == HeldInAll(shards)
    {
      cumulative := cumulative + Held(shards[i].files);
      assert shards[i..][1..] == shards[i + 1..];
    }
    done := [];
    assert shards[0..] == shards;
    for i := 0 to |shards|
      invariant |done| == i && forall k | 0 <= k < i :: GetsPast(shards[k]) && Finished(shards[k], done[k])
      invariant cumulative == BytesIn(done) + HeldInAll(shards[i..])
    {
      var shard := shards[i];
      assert shards[i..][1..] == shards[i + 1..];
      if shard.cancelled { return Cancelled, done, cumulative; }
      var files := shard.files;
      if shard.files.destination.None? {
        var result;
        result, cumulative := DownloadOneFile(
          shard.remote, shard.headTotal, shard.files.part, shard.removedFirst, shard.script, cumulative);
        if !result.outcome.Completed? { return result.outcome, done, cumulative; }
        CompletedShardIsFinished(shard);
        files := result.files;
      }
      assert (done + [files])[..i] == done;
      done := done + [files];
    }
    outcome := Completed;
  }
}
