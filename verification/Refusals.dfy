/** Why a patch is refused: the complaint about each line that cannot stand where it does, and the
    boundaries of a patch, spelled out. */
module Refusals {
  import opened Text
  import opened Patch
  import opened ParserSteps
  import opened WellFormed
  import opened RoundTrip
  import opened PatchParser
  import Heredoc
  import AcceptedPatches

  predicate IsHeaderOrEnd(mark: string) {
    || mark == "*** End Patch"
    || "*** Add File: " <= mark || "*** Delete File: " <= mark || "*** Update File: " <= mark
  }

  /** The last chunk of an update was opened and has no line yet. */
  predicate LastChunkBare(h: Hunk)
    requires h.UpdateFile?
  {
    h.chunks != [] && Last(h.chunks).oldLines == [] && Last(h.chunks).newLines == []
  }

  /** What is wrong with a line of an update. An update without a chunk is blamed when it ends; a bare
      chunk when it ends the patch or the file; otherwise a line that is none of a chunk is taken for
      a missing context marker behind a chunk with lines, and is unexpected before one. */
  function UpdateComplaint(h: Hunk, mark: string): HunkFault
    requires h.UpdateFile?
  {
    if IsHeaderOrEnd(mark) && h.chunks == [] then EmptyUpdateHunk
    else if LastChunkBare(h) && (mark == "*** End Patch" || mark == "*** End of File") then HunkWithoutLines
    else if h.chunks != [] && !LastChunkBare(h) then ExpectedContextMarker
    else UnexpectedLine
  }

  /** What is wrong with a line that is refused in this state. */
  function Complaint(st: ParserState, line: string): ParseError {
    match st.mode
    case NotStarted => InvalidPatch(FirstLineNotBegin)
    case EndedPatch => InvalidPatch(LastLineNotEnd)
    case UpdatingFile(header) =>
      if st.hunks != [] && Last(st.hunks).UpdateFile? then
        var fault := UpdateComplaint(Last(st.hunks), TrimEnd(line));
        InvalidHunk(fault, if fault.EmptyUpdateHunk? then header else st.lineNumber + 1)
      else InvalidHunk(UnexpectedLine, st.lineNumber + 1)
    case _ =>
      if st.mode.StartedPatch? && "*** Environment ID:" <= Trim(line) then
        InvalidPatch(if st.environmentId.Some? then DuplicateEnvironmentId else EmptyEnvironmentId)
      else InvalidHunk(NotAHunkHeader, st.lineNumber + 1)
  }

  lemma {:induction false} CompleteHunksClose(st: ParserState, line: string)
    requires Inv(st) && !st.mode.UpdatingFile? && (st.hunks == [] || AllComplete(st.hunks))
    ensures EmptinessError(st, line).None?
  {
    if st.hunks != [] { assert Last(st.hunks) in st.hunks; }
  }

  lemma {:induction false} OuterComplaint(st: ParserState, line: string)
    requires Inv(st) && !st.mode.UpdatingFile? && RunLine(st, line).error.Some?
    ensures RunLine(st, line).error.value == Complaint(st, line)
  {
    var taken := st.(lineBuffer := "", lineNumber := st.lineNumber + 1);
    if st.mode.StartedPatch? || st.mode.AddingFile? || st.mode.DeletingFile? { CompleteHunksClose(taken, Trim(line)); }
  }

  lemma {:induction false} HeaderComplaint(st: ParserState, mark: string)
    requires Inv(st) && st.mode.UpdatingFile? && HandleHeader(st, mark).Refused?
    ensures IsHeaderOrEnd(mark)
    ensures var fault := UpdateComplaint(Last(st.hunks), mark);
      HandleHeader(st, mark).error
      == InvalidHunk(fault, if fault.EmptyUpdateHunk? then st.mode.hunkLineNumber else st.lineNumber)
  {
    assert "*** End of File"[4] == 'E' && "*** End of File"[8] == 'o' && END_PATCH[8] == 'P' && ADD_FILE[4] == 'A'
        && DELETE_FILE[4] == 'D' && UPDATE_FILE[4] == 'U';
  }

  lemma {:induction false} LineComplaint(h: Hunk, line: string)
    requires h.UpdateFile? && HunkPending(h) && ContinueUpdate(h, line).Rejected? && !IsHeaderOrEnd(TrimEnd(line))
    ensures ContinueUpdate(h, line).fault == UpdateComplaint(h, TrimEnd(line))
  {
    assert "*** End of File"[0] == '*' && CHANGE_CONTEXT[0] == '@' && EMPTY_CHANGE_CONTEXT[0] == '@';
    assert h.chunks != [] ==> Last(h.chunks) in h.chunks;
  }

  lemma {:induction false} HeadersAreRecognised(st: ParserState, mark: string)
    requires st.mode.UpdatingFile?
    ensures HandleHeader(st, mark).NotAHeader? <==> !IsHeaderOrEnd(mark)
  {
  }

  lemma {:induction false} UpdatingComplaint(st: ParserState, line: string)
    requires Inv(st) && st.mode.UpdatingFile? && RunLine(st, line).error.Some?
    ensures RunLine(st, line).error.value == Complaint(st, line)
  {
    var taken := st.(lineBuffer := "", lineNumber := st.lineNumber + 1);
    var mark := TrimEnd(line);
    HeadersAreRecognised(taken, mark);
    if HandleHeader(taken, mark).Refused? {
      HeaderComplaint(taken, mark);
    } else {
      LineComplaint(Last(st.hunks), line);
      assert !UpdateComplaint(Last(st.hunks), mark).EmptyUpdateHunk?;
    }
  }

  /** A refused line draws just this complaint. */
  lemma {:induction false} RefusedLinesSayWhy(st: ParserState, line: string)
    requires Inv(st) && RunLine(st, line).error.Some?
    ensures RunLine(st, line).error.value == Complaint(st, line)
  {
    if st.mode.UpdatingFile? { UpdatingComplaint(st, line); } else { OuterComplaint(st, line); }
  }

  /** So does an unterminated end marker that cannot stand there. */
  lemma {:induction false} RefusedEndSaysWhy(st: ParserState, last: string)
    requires Inv(st) && st.lineBuffer == "" && Trim(last) == END_PATCH
    requires Finish(st.(lineBuffer := last)).error.Some?
    ensures st.mode.UpdatingFile? && Finish(st.(lineBuffer := last)).error.value == Complaint(st, "*** End Patch")
  {
    assert last != "" by { TrimShape(last); }
    TrimOfInk(END_PATCH);
    var taken := st.(lineNumber := st.lineNumber + 1);
    assert st.(lineBuffer := last).(lineBuffer := "", lineNumber := st.lineNumber + 1) == taken;
    if !st.mode.UpdatingFile? {
      CompleteHunksClose(taken, END_PATCH);
    } else {
      assert FinishTaken(taken, last).error == EmptinessError(taken, END_PATCH);
      assert HandleHeader(taken, END_PATCH) == Refused(EmptinessError(taken, END_PATCH).value);
      HeaderComplaint(taken, END_PATCH);
    }
  }

  // ---------------------------------------------------------------------------
  // Whole patches
  // ---------------------------------------------------------------------------

  lemma {:induction false} RunKeepsInv(st: ParserState, lines: seq<string>)
    requires Inv(st) && st.lineBuffer == "" && NewlineFree(lines)
    ensures Inv(RunLines(st, lines).state)
    decreases |lines|
  {
    if lines != [] {
      LineKeepsInv(st, lines[0]);
      if RunLine(st, lines[0]).error.None? { RunKeepsInv(RunLine(st, lines[0]).state, lines[1..]); }
    }
  }

  lemma {:induction false} LineKeepsInv(st: ParserState, line: string)
    requires Inv(st) && st.lineBuffer == "" && '\n' !in line
    ensures Inv(RunLine(st, line).state) && RunLine(st, line).state.lineBuffer == ""
  {
    var taken := st.(lineBuffer := "", lineNumber := st.lineNumber + 1);
    var r := RunLine(st, line);
    assert r == ProcessLine(taken, line);
    assert Inv(taken) by { TakingKeepsInv(st); }
    assert Inv(r.state) by { ProcessLineKeepsInv(taken, line); }
    LineBufferStaysEmpty(st, line);
  }

  /** The first refused line. */
  lemma {:induction false} FirstRefusedLine(st: ParserState, lines: seq<string>) returns (i: nat)
    requires RunLines(st, lines).error.Some?
    ensures i < |lines| && RunLines(st, lines[..i]).error.None?
    ensures RunLine(RunLines(st, lines[..i]).state, lines[i]).error == RunLines(st, lines).error
    decreases |lines|
  {
    var r := RunLine(st, lines[0]);
    if r.error.Some? {
      i := 0;
    } else {
      var k := FirstRefusedLine(r.state, lines[1..]);
      i := k + 1;
      assert lines[..i][1..] == lines[1..][..k] && lines[..i][0] == lines[0];
    }
  }

  /** The complaint is about the first line that cannot stand where it does, or about the end. */
  ghost predicate Complains(lines: seq<string>, error: ParseError) {
    exists i | 0 <= i < |lines| ::
      var r := RunLines(INITIAL, lines[..i]);
      && r.error.None?
      && error == Complaint(r.state, if i == |lines| - 1 then "*** End Patch" else lines[i])
  }

  lemma {:induction false} RefusedLinesComplain(lines: seq<string>, error: ParseError)
    requires lines != [] && NewlineFree(lines) && Trim(Last(lines)) == END_PATCH && ParseLines(lines) == Invalid(error)
    ensures Complains(StripCrs(lines), error)
  {
    var init, last, all := DropLast(lines), Last(lines), StripCrs(lines);
    var stripped := StripCrs(init);
    assert lines == init + [last] && last in lines && NewlineFree(init);
    assert all[..|all| - 1] == stripped;
    PushLines(INITIAL, init, last);
    AcceptedPatches.StrippedLinesHaveNoNewline(init);
    if RunLines(INITIAL, stripped).error.Some? {
      var i := FirstRefusedLine(INITIAL, stripped);
      assert stripped[..i] == all[..i] && stripped[i] == all[i];
      RefusedComplains(stripped, i);
    } else {
      var st := RunLines(INITIAL, stripped).state;
      RunKeepsInv(INITIAL, stripped);
      RunLinesEmptiesBuffer(INITIAL, stripped);
      RefusedEndSaysWhy(st, last);
    }
  }

  lemma {:induction false} RefusedComplains(lines: seq<string>, i: nat)
    requires NewlineFree(lines) && i < |lines| && RunLines(INITIAL, lines[..i]).error.None?
    requires RunLine(RunLines(INITIAL, lines[..i]).state, lines[i]).error.Some?
    ensures RunLine(RunLines(INITIAL, lines[..i]).state, lines[i]).error.value
         == Complaint(RunLines(INITIAL, lines[..i]).state, lines[i])
  {
    assert NewlineFree(lines[..i]);
    RunKeepsInv(INITIAL, lines[..i]);
    RefusedLinesSayWhy(RunLines(INITIAL, lines[..i]).state, lines[i]);
  }

  /** A stream that ends: its last line, if it is not an end marker, is a line like any other, and
      then the patch must be over. */
  lemma {:induction false} UnfinishedStreamSaysWhy(st: ParserState)
    requires Trim(st.lineBuffer) != "*** End Patch"
    ensures var r := if st.lineBuffer == "" then Step(st, None) else RunLine(st.(lineBuffer := ""), st.lineBuffer);
      Finish(st).error
      == if r.error.Some? then r.error
         else if r.state.mode.EndedPatch? then None else Some(InvalidPatch(LastLineNotEnd))
  {
    var taken := st.(lineBuffer := "", lineNumber := st.lineNumber + 1);
    assert st.(lineBuffer := "").(lineBuffer := "", lineNumber := st.lineNumber + 1) == taken;
  }

  // ---------------------------------------------------------------------------
  // The boundaries
  // ---------------------------------------------------------------------------

  predicate Bounded(lines: seq<string>) {
    lines != [] && Trim(lines[0]) == "*** Begin Patch" && Trim(lines[|lines| - 1]) == "*** End Patch"
  }

  ghost predicate InHeredoc(lines: seq<string>) {
    && |lines| >= 4 && lines[0] in ["<<EOF", "<<'EOF'", "<<\"EOF\""]
    && exists head :: lines[|lines| - 1] == head + "EOF"
  }

  /** Main: a patch is its lines from the begin marker to the end marker, or what a heredoc has
      between its first and last line if that is such a patch. */
  lemma {:induction false} BoundariesMean(lines: seq<string>)
    ensures CheckLenient(lines).Within? <==> Bounded(lines) || (InHeredoc(lines) && Bounded(lines[1..|lines| - 1]))
    ensures CheckLenient(lines).Within? ==>
      CheckLenient(lines).lines == if Bounded(lines) then lines else lines[1..|lines| - 1]
    ensures CheckLenient(lines).Outside? ==>
      var seen := if InHeredoc(lines) then lines[1..|lines| - 1] else lines;
      CheckLenient(lines).fault
      == if seen != [] && Trim(seen[0]) != "*** Begin Patch" then FirstLineNotBegin else LastLineNotEnd
  {
    EofAtTheEnd(lines);
    StrictBoundariesMean(lines);
    if InHeredoc(lines) { StrictBoundariesMean(lines[1..|lines| - 1]); }
  }

  lemma {:induction false} StrictBoundariesMean(lines: seq<string>)
    ensures CheckStrict(lines) == if Bounded(lines) then Within(lines)
      else Outside(if lines != [] && Trim(lines[0]) != "*** Begin Patch" then FirstLineNotBegin else LastLineNotEnd)
  {
  }

  lemma {:induction false} EofAtTheEnd(lines: seq<string>)
    ensures InHeredoc(lines) <==> IsHeredoc(lines)
  {
    if |lines| >= 4 {
      var l := lines[|lines| - 1];
      if EndsWithEof(l) { assert l == l[..|l| - 3] + "EOF"; }
      if head :| l == head + "EOF" { assert l[|l| - 3..] == "EOF"; }
    }
  }

  /** Main: a refused patch is not within its boundaries, or draws the complaint about its first
      line that cannot stand where it does. */
  lemma {:induction false} RefusedPatchSaysWhy(patch: string)
    requires ParsePatch(patch).Invalid?
    ensures var lines, error := Lines(Trim(patch)), ParsePatch(patch).error;
      match CheckLenient(lines)
      case Outside(fault) => error == InvalidPatch(fault)
      case Within(body) => Complains(StripCrs(body), error)
  {
    var lines := Lines(Trim(patch));
    if CheckLenient(lines).Within? {
      Heredoc.WithinBegins(lines);
      RefusedLinesComplain(CheckLenient(lines).lines, ParsePatch(patch).error);
    }
  }
}
