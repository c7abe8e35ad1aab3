/** What each operation of the incremental, line-oriented patch parser does to the
    parser's state, as functions. */
module ParserSteps {
  import opened Text
  import opened Patch

  datatype Mode =
    | NotStarted
    | StartedPatch
    | AddingFile
    | DeletingFile
    | UpdatingFile(hunkLineNumber: nat)
    | EndedPatch

  datatype ParserState = ParserState(
    lineBuffer: string,
    mode: Mode,
    hunks: seq<Hunk>,
    environmentId: Option<string>,
    lineNumber: nat)

  const INITIAL := ParserState("", NotStarted, [], None, 0)

  /** What an operation leaves behind: the state, and the error if it failed. */
  datatype Step = Step(state: ParserState, error: Option<ParseError>)

  datatype Handled = Done(state: ParserState) | NotAHeader | Refused(error: ParseError)

  datatype Continued = Grown(hunk: Hunk) | Rejected(fault: HunkFault)

  // ---------------------------------------------------------------------------
  // Lines as functions of the state
  // ---------------------------------------------------------------------------

  function EmptinessError(st: ParserState, line: string): Option<ParseError> {
    if st.hunks == [] || !Last(st.hunks).UpdateFile? then None
    else
      var chunks := Last(st.hunks).chunks;
      if chunks == [] then
        if st.mode.UpdatingFile? then Some(InvalidHunk(EmptyUpdateHunk, st.mode.hunkLineNumber)) else None
      else if Last(chunks).IsEmpty() then
        Some(InvalidHunk(if line == END_PATCH then HunkWithoutLines else UnexpectedLine, st.lineNumber))
      else None
  }

  /** Closes the hunk being read, if it may be closed, and moves on to `next`. */
  function CloseHunk(st: ParserState, line: string, next: ParserState): Handled {
    match EmptinessError(st, line)
    case Some(e) => Refused(e)
    case None => Done(next)
  }

  function HandleHeader(st: ParserState, trimmed: string): Handled {
    if st.mode == StartedPatch && ENVIRONMENT_ID <= trimmed then
      if st.environmentId.Some? then Refused(InvalidPatch(DuplicateEnvironmentId))
      else
        var id := Trim(trimmed[|ENVIRONMENT_ID|..]);
        if id == "" then Refused(InvalidPatch(EmptyEnvironmentId)) else Done(st.(environmentId := Some(id)))
    else if trimmed == END_PATCH then
      CloseHunk(st, trimmed, st.(mode := EndedPatch))
    else if ADD_FILE <= trimmed then
      CloseHunk(st, trimmed, st.(hunks := st.hunks + [AddFile(trimmed[|ADD_FILE|..], "")], mode := AddingFile))
    else if DELETE_FILE <= trimmed then
      CloseHunk(st, trimmed, st.(hunks := st.hunks + [DeleteFile(trimmed[|DELETE_FILE|..])], mode := DeletingFile))
    else if UPDATE_FILE <= trimmed then
      CloseHunk(st, trimmed, st.(hunks := st.hunks + [UpdateFile(trimmed[|UPDATE_FILE|..], None, [])],
                                 mode := UpdatingFile(st.lineNumber)))
    else NotAHeader
  }

  /** Adds a line to the last chunk, opening a first chunk if there is none. */
  function Extend(chunks: seq<Chunk>, olds: seq<string>, news: seq<string>): seq<Chunk> {
    var cs := if chunks == [] then [NewChunk(None)] else chunks;
    var c := Last(cs);
    DropLast(cs) + [c.(oldLines := c.oldLines + olds, newLines := c.newLines + news)]
  }

  /** One line of an update hunk that is not a hunk header. */
  function ContinueUpdate(h: Hunk, line: string): Continued
    requires h.UpdateFile?
  {
    var mark := TrimEnd(line);
    var chunks := h.chunks;
    var isContext := mark == EMPTY_CHANGE_CONTEXT || CHANGE_CONTEXT <= mark;
    var lastEmpty := chunks != [] && Last(chunks).IsEmpty();
    if chunks != [] && Last(chunks).isEndOfFile && mark == "" then Grown(h)
    else if chunks != [] && Last(chunks).isEndOfFile && !isContext then Rejected(ExpectedContextMarker)
    else if chunks == [] && h.movePath.None? && MOVE_TO <= mark then
      Grown(h.(movePath := Some(mark[|MOVE_TO|..])))
    else if isContext && lastEmpty then Rejected(UnexpectedLine)
    else if mark == EMPTY_CHANGE_CONTEXT then
      Grown(h.(chunks := chunks + [NewChunk(None)]))
    else if CHANGE_CONTEXT <= mark then
      Grown(h.(chunks := chunks + [NewChunk(Some(mark[|CHANGE_CONTEXT|..]))]))
    else if mark == EOF_MARKER then
      if lastEmpty then Rejected(HunkWithoutLines)
      else if chunks == [] then Grown(h)
      else Grown(h.(chunks := DropLast(chunks) + [Last(chunks).(isEndOfFile := true)]))
    else if line == "" then Grown(h.(chunks := Extend(chunks, [""], [""])))
    else if line[0] == ' ' then Grown(h.(chunks := Extend(chunks, [line[1..]], [line[1..]])))
    else if line[0] == '+' then Grown(h.(chunks := Extend(chunks, [], [line[1..]])))
    else if line[0] == '-' then Grown(h.(chunks := Extend(chunks, [line[1..]], [])))
    else if chunks != [] && !lastEmpty then Rejected(ExpectedContextMarker)
    else Rejected(UnexpectedLine)
  }

  function Fail(st: ParserState, e: ParseError): Step {
    Step(st, Some(e))
  }

  function ProcessLine(st: ParserState, line: string): Step {
    if st.mode.NotStarted? then
      if Trim(line) == BEGIN_PATCH then Step(st.(mode := StartedPatch), None)
      else Fail(st, InvalidPatch(FirstLineNotBegin))
    else if st.mode.EndedPatch? then
      if Trim(line) == "" then Step(st, None) else Fail(st, InvalidPatch(LastLineNotEnd))
    else
      match HandleHeader(st, if st.mode.UpdatingFile? then TrimEnd(line) else Trim(line))
      case Done(next) => Step(next, None)
      case Refused(e) => Fail(st, e)
      case NotAHeader =>
        if st.mode.UpdatingFile? then ProcessUpdateLine(st, line)
        else if st.mode.AddingFile? then ProcessAddedLine(st, line)
        else Fail(st, InvalidHunk(NotAHunkHeader, st.lineNumber))
  }

  function ProcessAddedLine(st: ParserState, line: string): Step {
    if line != "" && line[0] == '+' && st.hunks != [] && Last(st.hunks).AddFile? then
      var h := Last(st.hunks);
      Step(st.(hunks := DropLast(st.hunks) + [h.(contents := h.contents + line[1..] + "\n")]), None)
    else Fail(st, InvalidHunk(NotAHunkHeader, st.lineNumber))
  }

  function ProcessUpdateLine(st: ParserState, line: string): Step {
    if st.hunks == [] || !Last(st.hunks).UpdateFile? then Fail(st, InvalidHunk(UnexpectedLine, st.lineNumber))
    else
      match ContinueUpdate(Last(st.hunks), line)
      case Grown(h) => Step(st.(hunks := DropLast(st.hunks) + [h]), None)
      case Rejected(fault) => Fail(st, InvalidHunk(fault, st.lineNumber))
  }

  /** A newline arrived: the buffered line is taken, counted and processed. */
  function EndLine(st: ParserState): Step {
    ProcessLine(st.(lineBuffer := "", lineNumber := st.lineNumber + 1), StripCr(st.lineBuffer))
  }

  function Push(st: ParserState, delta: string): Step
    decreases |delta|
  {
    if delta == "" then Step(st, None)
    else if delta[0] == '\n' then
      var r := EndLine(st);
      if r.error.Some? then r else Push(r.state, delta[1..])
    else Push(st.(lineBuffer := st.lineBuffer + [delta[0]]), delta[1..])
  }

  lemma PushStep(st: ParserState, delta: string, i: nat)
    requires i < |delta|
    ensures delta[i] == '\n' ==>
      var r := EndLine(st);
      Push(st, delta[i..]) == if r.error.Some? then r else Push(r.state, delta[i + 1..])
    ensures delta[i] != '\n' ==>
      Push(st, delta[i..]) == Push(st.(lineBuffer := st.lineBuffer + [delta[i]]), delta[i + 1..])
  {
    assert delta[i..][1..] == delta[i + 1..];
  }

  /** `finish`: an unterminated last line counts as a line, and the patch must be over. */
  function Finish(st: ParserState): Step {
    var r := FinishLine(st);
    if r.error.Some? then r
    else if r.state.mode != EndedPatch then Fail(r.state, InvalidPatch(LastLineNotEnd))
    else r
  }

  function FinishLine(st: ParserState): Step {
    if st.lineBuffer == "" then Step(st, None)
    else FinishTaken(st.(lineBuffer := "", lineNumber := st.lineNumber + 1), st.lineBuffer)
  }

  function FinishTaken(st: ParserState, line: string): Step {
    if Trim(line) == END_PATCH then
      match CloseHunk(st, Trim(line), st.(mode := EndedPatch))
      case Refused(e) => Fail(st, e)
      case Done(next) => Step(next, None)
      case NotAHeader => Step(st, None)
    else ProcessLine(st, line)
  }
}
