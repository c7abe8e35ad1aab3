/** Who may download a model: the shared progress map, the calls that start a download, and the
    background tasks they spawn, interleaved in any way. */
module DownloadGate {
  import opened Text

  type ModelId = string
  type CallId = nat

  datatype Status = Downloading | Completed | Failed | Cancelled

  datatype Progress = Progress(status: Status, taskExited: bool)

  type Downloads = map<ModelId, Progress>

  // ---------------------------------------------------------------------------
  // The operations on the map
  // ---------------------------------------------------------------------------

  /** The model is taken: downloading, or cancelled with its task still running. */
  predicate Taken(downloads: Downloads, id: ModelId) {
    id in downloads
    && (downloads[id].status.Downloading? || (downloads[id].status.Cancelled? && !downloads[id].taskExited))
  }

  function Reserved(downloads: Downloads, id: ModelId, progress: Progress): Downloads {
    if Taken(downloads, id) then downloads else downloads[id := progress]
  }

  function AfterCancel(downloads: Downloads, id: ModelId): Downloads {
    if id in downloads then downloads[id := downloads[id].(status := Cancelled)] else downloads
  }

  function AfterExit(downloads: Downloads, id: ModelId, ok: bool): Downloads {
    if id !in downloads then downloads
    else
      var status :=
        if ok then Completed else if downloads[id].status.Cancelled? then Cancelled else Failed;
      downloads[id := Progress(status, true)]
  }

  function Cleared(downloads: Downloads, id: ModelId): Downloads {
    if id in downloads && !downloads[id].status.Downloading? && downloads[id].taskExited then downloads - {id}
    else downloads
  }

  datatype StartResult = Started | AlreadyInProgress | BeingCancelled

  /** `DownloadManager`; each method is one section under the lock. */
  class DownloadManager {
    var downloads: Downloads

    constructor ()
      ensures downloads == map[]
    {
      downloads := map[];
    }

    /** `reserve_download`. */
    method ReserveDownload(id: ModelId, progress: Progress) returns (reserved: bool)
      modifies this
      ensures downloads == Reserved(old(downloads), id, progress) && reserved == !Taken(old(downloads), id)
    {
      if id in downloads {
        var existing := downloads[id];
        if existing.status.Downloading? || (existing.status.Cancelled? && !existing.taskExited) {
          return false;
        }
      }
      downloads := downloads[id := progress];
      reserved := true;
    }

    /** `cancel_download`. */
    method CancelDownload(id: ModelId) returns (found: bool)
      modifies this
      ensures downloads == AfterCancel(old(downloads), id) && found == (id in old(downloads))
    {
      found := id in downloads;
      if found { downloads := downloads[id := downloads[id].(status := Cancelled)]; }
    }

    /** The first section of `download_model_sharded_with_bearer_token`. */
    method Start(id: ModelId) returns (result: StartResult)
      modifies this
      ensures downloads == Reserved(old(downloads), id, Progress(Downloading, false))
      ensures result.Started? <==> !Taken(old(downloads), id)
      ensures result.AlreadyInProgress? <==> id in old(downloads) && old(downloads)[id].status.Downloading?
    {
      if id in downloads {
        if downloads[id].status.Downloading? { return AlreadyInProgress; }
        if downloads[id].status.Cancelled? && !downloads[id].taskExited { return BeingCancelled; }
      }
      downloads := downloads[id := Progress(Downloading, false)];
      result := Started;
    }

    /** The last section of the background task. */
    method FinishTask(id: ModelId, ok: bool)
      modifies this
      ensures downloads == AfterExit(old(downloads), id, ok)
    {
      if id in downloads {
        if ok {
          downloads := downloads[id := Progress(Completed, true)];
        } else {
          var status := downloads[id].status;
          if !status.Cancelled? { status := Failed; }
          downloads := downloads[id := Progress(status, true)];
        }
      }
    }

    /** `clear_completed`. */
    method ClearCompleted(id: ModelId)
      modifies this
      ensures downloads == Cleared(old(downloads), id)
    {
      if id in downloads {
        var status := downloads[id].status;
        if (status.Completed? || status.Failed? || status.Cancelled?) && downloads[id].taskExited {
          downloads := downloads - {id};
        }
      }
    }
  }

  // ---------------------------------------------------------------------------
  // Interleavings
  // ---------------------------------------------------------------------------

  /** A call that got through the gate makes directories, then spawns a task, which runs and exits. */
  datatype Phase = Preparing | Running | Over

  datatype Call = Call(id: ModelId, phase: Phase)

  datatype State = State(downloads: Downloads, calls: map<CallId, Call>)

  const INITIAL := State(map[], map[])

  datatype Step =
    | Start(call: CallId, id: ModelId)
    | DirectoriesFail(call: CallId)
    | Spawn(call: CallId)
    | TaskExits(call: CallId, ok: bool)
    | Reserve(id: ModelId, progress: Progress)
    | Cancel(id: ModelId)
    | Clear(id: ModelId)

  function SetPhase(s: State, c: CallId, phase: Phase): State
    requires c in s.calls
  {
    s.(calls := s.calls[c := s.calls[c].(phase := phase)])
  }

  function Next(s: State, step: Step): State {
    match step
    case Start(c, id) =>
      if c in s.calls || Taken(s.downloads, id) then s
      else State(Reserved(s.downloads, id, Progress(Downloading, false)), s.calls[c := Call(id, Preparing)])
    case DirectoriesFail(c) => if c in s.calls && s.calls[c].phase.Preparing? then SetPhase(s, c, Over) else s
    case Spawn(c) => if c in s.calls && s.calls[c].phase.Preparing? then SetPhase(s, c, Running) else s
    case TaskExits(c, ok) =>
      if c in s.calls && s.calls[c].phase.Running? then
        SetPhase(s, c, Over).(downloads := AfterExit(s.downloads, s.calls[c].id, ok))
      else s
    case Reserve(id, progress) => s.(downloads := Reserved(s.downloads, id, progress))
    case Cancel(id) => s.(downloads := AfterCancel(s.downloads, id))
    case Clear(id) => s.(downloads := Cleared(s.downloads, id))
  }

  function Exec(s: State, steps: seq<Step>): State
    decreases |steps|
  {
    if steps == [] then s else Exec(Next(s, steps[0]), steps[1..])
  }

  predicate Live(s: State, c: CallId) {
    c in s.calls && !s.calls[c].phase.Over?
  }

  ghost predicate OnlyOneEach(s: State) {
    forall c, d | Live(s, c) && Live(s, d) && s.calls[c].id == s.calls[d].id :: c == d
  }

  /** A live call owns its model's entry, which has not been marked as exited. */
  ghost predicate LiveIsTaken(s: State) {
    forall c | Live(s, c) :: Taken(s.downloads, s.calls[c].id) && !s.downloads[s.calls[c].id].taskExited
  }

  ghost predicate Inv(s: State) {
    OnlyOneEach(s) && LiveIsTaken(s)
  }

  lemma NextKeepsInv(s: State, step: Step)
    requires Inv(s)
    ensures Inv(Next(s, step))
  {
    var t := Next(s, step);
    forall c | Live(t, c)
      ensures Taken(t.downloads, t.calls[c].id) && !t.downloads[t.calls[c].id].taskExited
    {
      if !step.Start? || step.call != c {
        assert Live(s, c);
        if step.TaskExits? { assert t != s ==> Live(s, step.call); }
      }
    }
    forall c, d | Live(t, c) && Live(t, d) && t.calls[c].id == t.calls[d].id ensures c == d {
      if !step.Start? { assert Live(s, c) && Live(s, d); }
    }
  }

  lemma {:induction false} ExecKeepsInv(s: State, steps: seq<Step>)
    requires Inv(s)
    ensures Inv(Exec(s, steps))
    decreases |steps|
  {
    if steps != [] {
      NextKeepsInv(s, steps[0]);
      ExecKeepsInv(Next(s, steps[0]), steps[1..]);
    }
  }

  /** Main: in every interleaving a model has at most one committed download, and while it has one
      the gate is shut to `start` and `reserve`. */
  lemma AtMostOneDownload(steps: seq<Step>, c: CallId)
    requires Live(Exec(INITIAL, steps), c)
    ensures var s := Exec(INITIAL, steps); var id := s.calls[c].id;
      && (forall d | Live(s, d) && s.calls[d].id == id :: d == c)
      && id in s.downloads && !s.downloads[id].taskExited
      && (s.downloads[id].status.Downloading? || s.downloads[id].status.Cancelled?)
      && (forall d :: Next(s, Start(d, id)) == s)
      && (forall progress :: Next(s, Reserve(id, progress)) == s)
      && Next(s, Clear(id)) == s
  {
    ExecKeepsInv(INITIAL, steps);
  }

  // ---------------------------------------------------------------------------
  // When a model can be started again
  // ---------------------------------------------------------------------------

  /** The entry is taken and no live call will ever give it back. */
  ghost predicate Stuck(s: State, id: ModelId) {
    Taken(s.downloads, id) && !s.downloads[id].taskExited
    && forall c | Live(s, c) :: s.calls[c].id != id
  }

  lemma StuckStays(s: State, step: Step, id: ModelId)
    requires Stuck(s, id)
    ensures Stuck(Next(s, step), id)
  {
    var t := Next(s, step);
    forall c | Live(t, c) ensures t.calls[c].id != id {
      if !step.Start? { assert Live(s, c); }
    }
    if step.TaskExits? && t != s { assert Live(s, step.call); }
  }

  lemma {:induction false} StuckForever(s: State, steps: seq<Step>, id: ModelId)
    requires Stuck(s, id)
    ensures Stuck(Exec(s, steps), id)
    decreases |steps|
  {
    if steps != [] {
      StuckStays(s, steps[0], id);
      StuckForever(Next(s, steps[0]), steps[1..], id);
    }
  }

  /** From `s`, some interleaving ends with a download of `id` being accepted. */
  ghost predicate CanStart(s: State, id: ModelId) {
    exists steps :: !Taken(Exec(s, steps).downloads, id)
  }

  /** A download that could not make its directories leaves its entry behind for good. */
  lemma FailedDirectoriesStick(steps: seq<Step>, c: CallId)
    requires var s := Exec(INITIAL, steps); Live(s, c) && s.calls[c].phase.Preparing?
    ensures var s := Exec(INITIAL, steps);
      Stuck(Next(s, DirectoriesFail(c)), s.calls[c].id)
      && !CanStart(Next(s, DirectoriesFail(c)), s.calls[c].id)
  {
    ExecKeepsInv(INITIAL, steps);
    var s := Exec(INITIAL, steps);
    var t, id := Next(s, DirectoriesFail(c)), s.calls[c].id;
    forall d | Live(t, d) ensures t.calls[d].id != id { assert Live(s, d); }
    forall more ensures Taken(Exec(t, more).downloads, id) { StuckForever(t, more, id); }
  }

  /** A live call can exit, and then the gate is open. */
  lemma LiveCallGivesBack(s: State, c: CallId)
    requires Inv(s) && Live(s, c)
    ensures CanStart(s, s.calls[c].id)
  {
    var id := s.calls[c].id;
    var exit := [TaskExits(c, true)];
    assert exit[1..] == [];
    if s.calls[c].phase.Running? {
      assert !Taken(Exec(s, exit).downloads, id);
    } else {
      var steps := [Spawn(c)] + exit;
      assert steps[1..] == exit;
      assert Exec(s, steps) == Exec(Next(s, Spawn(c)), exit);
      assert !Taken(Exec(s, steps).downloads, id);
    }
  }

  /** The entry says it is downloading although its task has exited, which only a reservation with
      such a progress can bring about. */
  predicate Contradictory(downloads: Downloads, id: ModelId) {
    id in downloads && downloads[id] == Progress(Downloading, true)
  }

  /** Main: under these operations a model can be started again exactly when it is not stuck. */
  lemma CanStartIffNotStuck(steps: seq<Step>, id: ModelId)
    ensures var s := Exec(INITIAL, steps); CanStart(s, id) <==> !Stuck(s, id)
  {
    ExecKeepsInv(INITIAL, steps);
    var s := Exec(INITIAL, steps);
    if Stuck(s, id) {
      forall more ensures Taken(Exec(s, more).downloads, id) { StuckForever(s, more, id); }
    } else if !Taken(s.downloads, id) {
      assert !Taken(Exec(s, []).downloads, id);
    } else if Contradictory(s.downloads, id) {
      var cancel := [Cancel(id)];
      assert cancel[1..] == [];
      assert !Taken(Exec(s, cancel).downloads, id);
    } else {
      var c :| Live(s, c) && s.calls[c].id == id;
      LiveCallGivesBack(s, c);
    }
  }

  // ---------------------------------------------------------------------------
  // How a download ends
  // ---------------------------------------------------------------------------

  lemma {:induction false} OverStaysOver(s: State, steps: seq<Step>, c: CallId)
    requires c in s.calls && s.calls[c].phase.Over?
    ensures var t := Exec(s, steps); c in t.calls && t.calls[c].phase.Over?
    decreases |steps|
  {
    if steps != [] { OverStaysOver(Next(s, steps[0]), steps[1..], c); }
  }

  /** While a call is live, nothing but cancelling changes the status of its model. */
  lemma StepKeepsStatus(s: State, step: Step, c: CallId)
    requires Inv(s) && Live(s, c) && Live(Next(s, step), c)
    ensures var t, id := Next(s, step), s.calls[c].id;
      && t.calls[c].id == id && id in t.downloads && id in s.downloads
      && t.downloads[id].status == if step == Cancel(id) then Cancelled else s.downloads[id].status
  {
    if step.TaskExits? && Live(s, step.call) && s.calls[step.call].id == s.calls[c].id {
      assert step.call == c;
    }
  }

  lemma {:induction false} StatusWhileLive(s: State, steps: seq<Step>, c: CallId)
    requires Inv(s) && Live(s, c) && Live(Exec(s, steps), c)
    ensures var t, id := Exec(s, steps), s.calls[c].id;
      && t.calls[c].id == id && id in t.downloads && id in s.downloads
      && t.downloads[id].status == if Cancel(id) in steps then Cancelled else s.downloads[id].status
    decreases |steps|
  {
    assert Taken(s.downloads, s.calls[c].id);
    if steps != [] {
      var next := Next(s, steps[0]);
      if !Live(next, c) { OverStaysOver(next, steps[1..], c); }
      NextKeepsInv(s, steps[0]);
      StepKeepsStatus(s, steps[0], c);
      StatusWhileLive(next, steps[1..], c);
      assert steps == [steps[0]] + steps[1..];
    }
  }

  lemma {:induction false} ExecAppend(s: State, a: seq<Step>, b: seq<Step>)
    ensures Exec(s, a + b) == Exec(Exec(s, a), b)
    decreases |a|
  {
    if a == [] {
      assert a + b == b;
    } else {
      assert (a + b)[1..] == a[1..] + b;
      ExecAppend(Next(s, a[0]), a[1..], b);
    }
  }

  /** Main: when the task of an accepted start exits, its model is completed if the task succeeded,
      cancelled if it failed and the model was cancelled since the start, and failed otherwise. No
      other model is affected, and the entry can then be cleared, reserved or started afresh. */
  lemma ExitsLeaveTheirStatus(before: seq<Step>, c: CallId, id: ModelId, during: seq<Step>, ok: bool)
    requires var s := Exec(INITIAL, before); c !in s.calls && !Taken(s.downloads, id)
    requires var s := Exec(INITIAL, before + [Start(c, id)] + during); c in s.calls && s.calls[c].phase.Running?
    ensures var s := Exec(INITIAL, before + [Start(c, id)] + during);
      var t := Next(s, TaskExits(c, ok));
      && id in t.downloads && t.downloads[id].taskExited
      && t.downloads[id].status == (if ok then Completed else if Cancel(id) in during then Cancelled else Failed)
      && t.downloads - {id} == s.downloads - {id}
      && Next(t, Clear(id)).downloads == s.downloads - {id}
      && (forall d | d !in t.calls ::
            Next(t, Start(d, id)).downloads == t.downloads[id := Progress(Downloading, false)])
      && (forall p :: Next(t, Reserve(id, p)).downloads == t.downloads[id := p])
  {
    var begun := before + [Start(c, id)];
    var s1 := Exec(INITIAL, begun);
    ExecAppend(INITIAL, before, [Start(c, id)]);
    assert [Start(c, id)][1..] == [];
    ExecAppend(INITIAL, begun, during);
    ExecKeepsInv(INITIAL, begun);
    StatusWhileLive(s1, during, c);
  }
}
