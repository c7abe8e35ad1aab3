/** The parser object: its methods update the fields in place, each as the function of
    the same name in `ParserSteps` says. */
module StreamingParser {
  import opened Text
  import opened Patch
  import opened ParserSteps

  class StreamingPatchParser {
    var lineBuffer: string
    var mode: Mode
    var hunks: seq<Hunk>
    var environmentId: Option<string>
    var lineNumber: nat

    ghost function State(): ParserState
      reads this
    {
      ParserState(lineBuffer, mode, hunks, environmentId, lineNumber)
    }

    constructor ()
      ensures State() == INITIAL
    {
      lineBuffer, mode, hunks, environmentId, lineNumber := "", NotStarted, [], None, 0;
    }

    method EnsureUpdateHunkIsNotEmpty(line: string) returns (error: Option<ParseError>)
      ensures error == EmptinessError(State(), line)
    {
      if hunks != [] && Last(hunks).UpdateFile? {
        var chunks := Last(hunks).chunks;
        if chunks == [] && mode.UpdatingFile? {
          return Some(InvalidHunk(EmptyUpdateHunk, mode.hunkLineNumber));
        }
        if chunks != [] && Last(chunks).IsEmpty() {
          if line == END_PATCH {
            return Some(InvalidHunk(HunkWithoutLines, lineNumber));
          }
          return Some(InvalidHunk(UnexpectedLine, lineNumber));
        }
      }
      return None;
    }

    method HandleHunkHeadersAndEndPatch(trimmed: string) returns (handled: bool, error: Option<ParseError>)
      modifies this
      ensures match HandleHeader(old(State()), trimmed)
              case Done(next) => handled && error.None? && State() == next
              case Refused(e) => error == Some(e) && State() == old(State())
              case NotAHeader => !handled && error.None? && State() == old(State())
    {
      if mode == StartedPatch && ENVIRONMENT_ID <= trimmed {
        if environmentId.Some? {
          return false, Some(InvalidPatch(DuplicateEnvironmentId));
        }
        var id := Trim(trimmed[|ENVIRONMENT_ID|..]);
        if id == "" {
          return false, Some(InvalidPatch(EmptyEnvironmentId));
        }
        environmentId := Some(id);
        return true, None;
      }
      if trimmed == END_PATCH {
        error := EnsureUpdateHunkIsNotEmpty(trimmed);
        if error.Some? { return false, error; }
        mode := EndedPatch;
        return true, None;
      }
      if ADD_FILE <= trimmed {
        error := EnsureUpdateHunkIsNotEmpty(trimmed);
        if error.Some? { return false, error; }
        hunks := hunks + [AddFile(trimmed[|ADD_FILE|..], "")];
        mode := AddingFile;
        return true, None;
      }
      if DELETE_FILE <= trimmed {
        error := EnsureUpdateHunkIsNotEmpty(trimmed);
        if error.Some? { return false, error; }
        hunks := hunks + [DeleteFile(trimmed[|DELETE_FILE|..])];
        mode := DeletingFile;
        return true, None;
      }
      if UPDATE_FILE <= trimmed {
        error := EnsureUpdateHunkIsNotEmpty(trimmed);
        if error.Some? { return false, error; }
        hunks := hunks + [UpdateFile(trimmed[|UPDATE_FILE|..], None, [])];
        mode := UpdatingFile(lineNumber);
        return true, None;
      }
      return false, None;
    }

    /** Replaces the last hunk, which must be an update, by the same hunk with other chunks. */
    method SetChunks(chunks: seq<Chunk>)
      requires hunks != [] && Last(hunks).UpdateFile?
      modifies this`hunks
      ensures hunks == DropLast(old(hunks)) + [Last(old(hunks)).(chunks := chunks)]
    {
      hunks := hunks[|hunks| - 1 := Last(hunks).(chunks := chunks)];
    }

    method ProcessUpdateLine(line: string) returns (error: Option<ParseError>)
      requires hunks != [] && Last(hunks).UpdateFile?
      modifies this`hunks
      ensures match ContinueUpdate(Last(old(hunks)), line)
              case Grown(h) => error.None? && hunks == DropLast(old(hunks)) + [h]
              case Rejected(fault) => error == Some(InvalidHunk(fault, lineNumber)) && hunks == old(hunks)
    {
      var updateLine := TrimEnd(line);
      var h := Last(hunks);
      var chunks := h.chunks;
      assert hunks == DropLast(hunks) + [h] && h == h.(chunks := chunks);
      if chunks != [] && Last(chunks).isEndOfFile {
        if updateLine == "" {
          return None;
        }
        if updateLine != EMPTY_CHANGE_CONTEXT && !(CHANGE_CONTEXT <= updateLine) {
          return Some(InvalidHunk(ExpectedContextMarker, lineNumber));
        }
      }
      if chunks == [] && h.movePath.None? && MOVE_TO <= updateLine {
        hunks := hunks[|hunks| - 1 := h.(movePath := Some(updateLine[|MOVE_TO|..]))];
        return None;
      }
      if (updateLine == EMPTY_CHANGE_CONTEXT || CHANGE_CONTEXT <= updateLine)
         && chunks != [] && Last(chunks).IsEmpty() {
        return Some(InvalidHunk(UnexpectedLine, lineNumber));
      }
      if updateLine == EMPTY_CHANGE_CONTEXT {
        SetChunks(chunks + [NewChunk(None)]);
        return None;
      }
      if CHANGE_CONTEXT <= updateLine {
        SetChunks(chunks + [NewChunk(Some(updateLine[|CHANGE_CONTEXT|..]))]);
        return None;
      }
      if updateLine == EOF_MARKER {
        if chunks != [] && Last(chunks).IsEmpty() {
          return Some(InvalidHunk(HunkWithoutLines, lineNumber));
        }
        if chunks != [] {
          SetChunks(DropLast(chunks) + [Last(chunks).(isEndOfFile := true)]);
        }
        return None;
      }
      if line == "" {
        SetChunks(Extend(chunks, [""], [""]));
        return None;
      }
      if line[0] == ' ' {
        SetChunks(Extend(chunks, [line[1..]], [line[1..]]));
        return None;
      }
      if line[0] == '+' {
        SetChunks(Extend(chunks, [], [line[1..]]));
        return None;
      }
      if line[0] == '-' {
        SetChunks(Extend(chunks, [line[1..]], []));
        return None;
      }
      if chunks != [] && !Last(chunks).IsEmpty() {
        return Some(InvalidHunk(ExpectedContextMarker, lineNumber));
      }
      return Some(InvalidHunk(UnexpectedLine, lineNumber));
    }

    method ProcessLine(line: string) returns (error: Option<ParseError>)
      modifies this
      ensures Step(State(), error) == ParserSteps.ProcessLine(old(State()), line)
    {
      var trimmed := Trim(line);
      if mode.NotStarted? {
        if trimmed == BEGIN_PATCH {
          mode := StartedPatch;
          return None;
        }
        return Some(InvalidPatch(FirstLineNotBegin));
      }
      if mode.EndedPatch? {
        return if trimmed == "" then None else Some(InvalidPatch(LastLineNotEnd));
      }
      var handled;
      handled, error := HandleHunkHeadersAndEndPatch(if mode.UpdatingFile? then TrimEnd(line) else trimmed);
      if error.Some? || handled { return; }
      if mode.UpdatingFile? {
        if hunks != [] && Last(hunks).UpdateFile? {
          error := ProcessUpdateLine(line);
          return;
        }
        return Some(InvalidHunk(UnexpectedLine, lineNumber));
      }
      if mode.AddingFile? && line != "" && line[0] == '+' && hunks != [] && Last(hunks).AddFile? {
        var h := Last(hunks);
        hunks := DropLast(hunks) + [h.(contents := h.contents + line[1..] + "\n")];
        return None;
      }
      return Some(InvalidHunk(NotAHunkHeader, lineNumber));
    }

    /** The buffered line is taken and counted. */
    method TakeLine() returns (line: string)
      modifies this
      ensures line == old(lineBuffer)
      ensures State() == old(State()).(lineBuffer := "", lineNumber := old(lineNumber) + 1)
    {
      line := lineBuffer;
      lineBuffer := "";
      lineNumber := lineNumber + 1;
    }

    /** The newline case of `push_delta`. */
    method EndLine() returns (error: Option<ParseError>)
      modifies this
      ensures Step(State(), error) == ParserSteps.EndLine(old(State()))
    {
      var line := TakeLine();
      error := ProcessLine(StripCr(line));
    }

    /** `push_delta`: `error` is `None` exactly when the source returns the hunks so far. */
    method PushDelta(delta: string) returns (error: Option<ParseError>)
      modifies this
      ensures Step(State(), error) == Push(old(State()), delta)
    {
      error := None;
      for i := 0 to |delta|
        invariant error.None?
        invariant Push(State(), delta[i..]) == Push(old(State()), delta)
      {
        PushStep(State(), delta, i);
        if delta[i] == '\n' {
          error := EndLine();
          if error.Some? { return; }
        } else {
          lineBuffer := lineBuffer + [delta[i]];
        }
      }
    }

    /** The unterminated last line, the first half of `finish`. */
    method FinishLine() returns (error: Option<ParseError>)
      modifies this
      ensures Step(State(), error) == ParserSteps.FinishLine(old(State()))
    {
      ghost var st := State();
      if lineBuffer == "" { return None; }
      var line := TakeLine();
      assert State() == st.(lineBuffer := "", lineNumber := st.lineNumber + 1);
      error := FinishTaken(line);
    }

    method FinishTaken(line: string) returns (error: Option<ParseError>)
      modifies this
      ensures Step(State(), error) == ParserSteps.FinishTaken(old(State()), line)
    {
      if Trim(line) == END_PATCH {
        error := EnsureUpdateHunkIsNotEmpty(Trim(line));
        if error.None? { mode := EndedPatch; }
      } else {
        error := this.ProcessLine(line);
      }
    }

    method Finish() returns (error: Option<ParseError>)
      modifies this
      ensures Step(State(), error) == ParserSteps.Finish(old(State()))
    {
      error := FinishLine();
      if error.Some? { return; }
      if mode != EndedPatch {
        return Some(InvalidPatch(LastLineNotEnd));
      }
      return None;
    }
  }
}
