/** Where errors point: the line number of a refused patch names the line that is at fault. */
module ErrorLines {
  import opened Text
  import opened Patch
  import opened ParserSteps
  import opened WellFormed
  import opened RoundTrip
  import opened PatchParser

  predicate IsUpdateHeader(line: string) {
    UPDATE_FILE <= Trim(line)
  }

  /** An update is being read, as the last hunk. */
  predicate InUpdate(st: ParserState) {
    st.mode.UpdatingFile? ==> st.hunks != [] && Last(st.hunks).UpdateFile?
  }

  /** These lines are accepted and leave the parser in the update of line `n`, still without a chunk. */
  predicate LeavesEmpty(lines: seq<string>, n: nat) {
    var r := RunLines(INITIAL, lines);
    && r.error.None? && r.state.mode == UpdatingFile(n)
    && r.state.hunks != [] && Last(r.state.hunks).UpdateFile? && Last(r.state.hunks).chunks == []
  }

  /** Each line was counted; an update remembers the line of its header, and as long as it has no
      chunk it had none since then. */
  ghost predicate Located(st: ParserState, lines: seq<string>) {
    && st.lineNumber == |lines| && InUpdate(st)
    && (st.mode.UpdatingFile? ==>
          var n := st.mode.hunkLineNumber;
          && 0 < n <= |lines| && IsUpdateHeader(lines[n - 1])
          && (Last(st.hunks).chunks == [] ==> forall m | n <= m <= |lines| :: LeavesEmpty(lines[..m], n)))
  }

  /** Line `k` is the first that is not accepted; the last one is left to `finish`. */
  predicate FirstRefused(lines: seq<string>, k: nat) {
    && 0 < k <= |lines|
    && RunLines(INITIAL, lines[..k - 1]).error.None?
    && (k < |lines| ==> RunLines(INITIAL, lines[..k]).error.Some?)
  }

  /** `n` is the header of an update that no line up to the first refused one gave a chunk. */
  ghost predicate StayedEmpty(lines: seq<string>, n: nat) {
    && 0 < n < |lines| && IsUpdateHeader(lines[n - 1])
    && exists k | n < k <= |lines| ::
         FirstRefused(lines, k) && forall m | n <= m < k :: LeavesEmpty(lines[..m], n)
  }

  /** `n` is the line to blame for `fault` in `lines`. */
  ghost predicate Blames(lines: seq<string>, fault: HunkFault, n: nat) {
    if fault.EmptyUpdateHunk? then StayedEmpty(lines, n) else FirstRefused(lines, n)
  }

  // ---------------------------------------------------------------------------
  // One line
  // ---------------------------------------------------------------------------

  lemma HeaderLocates(st: ParserState, trimmed: string)
    ensures match HandleHeader(st, trimmed)
            case Done(next) =>
              next.lineNumber == st.lineNumber
              && (next.mode.UpdatingFile? ==>
                    UPDATE_FILE <= trimmed && next.mode.hunkLineNumber == st.lineNumber && InUpdate(next))
            case Refused(InvalidHunk(EmptyUpdateHunk, n)) =>
              st.mode == UpdatingFile(n) && st.hunks != [] && Last(st.hunks).UpdateFile? && Last(st.hunks).chunks == []
            case Refused(InvalidHunk(_, n)) => n == st.lineNumber
            case _ => true
    ensures HandleHeader(st, trimmed).Done? && st.mode == StartedPatch && ENVIRONMENT_ID <= trimmed ==>
              !HandleHeader(st, trimmed).state.mode.UpdatingFile?
  {
  }

  lemma TrimmedMarker(line: string)
    requires UPDATE_FILE <= TrimEnd(line)
    ensures Trim(line) == TrimEnd(line)
  {
    assert TrimEnd(line)[0] == '*';
  }

  lemma ContinuedStaysInUpdate(h: Hunk, line: string)
    requires h.UpdateFile?
    ensures var r := ContinueUpdate(h, line);
      r.Grown? ==> r.hunk.UpdateFile? && (r.hunk.chunks == [] ==> h.chunks == [])
  {
  }

  /** The update goes on, and a chunk is not lost. */
  predicate GoesOn(st: ParserState, next: ParserState) {
    && next.mode == st.mode && st.hunks != [] && Last(st.hunks).UpdateFile?
    && next.hunks != [] && Last(next.hunks).UpdateFile?
    && (Last(next.hunks).chunks == [] ==> Last(st.hunks).chunks == [])
  }

  lemma UpdateLineGoesOn(st: ParserState, line: string)
    ensures var r := ProcessUpdateLine(st, line);
      && r.state.lineNumber == st.lineNumber
      && (r.error.None? ==> GoesOn(st, r.state))
      && (r.error.Some? ==> r.error.value.InvalidHunk? && r.error.value.lineNumber == st.lineNumber
                            && !r.error.value.hunkFault.EmptyUpdateHunk?)
  {
    if st.hunks != [] && Last(st.hunks).UpdateFile? { ContinuedStaysInUpdate(Last(st.hunks), line); }
  }

  /** One line keeps the count, opens an update only by its header, and blames itself or the
      header of an empty update. */
  lemma ProcessLineLocates(st: ParserState, line: string)
    requires InUpdate(st)
    ensures var r := ProcessLine(st, line);
      && r.state.lineNumber == st.lineNumber
      && (r.error.None? && r.state.mode.UpdatingFile? ==>
            || GoesOn(st, r.state)
            || (r.state.mode.hunkLineNumber == st.lineNumber && IsUpdateHeader(line) && InUpdate(r.state)))
      && (r.error.Some? && r.error.value.InvalidHunk? ==>
            if r.error.value.hunkFault.EmptyUpdateHunk? then
              st.mode == UpdatingFile(r.error.value.lineNumber) && Last(st.hunks).chunks == []
            else r.error.value.lineNumber == st.lineNumber)
  {
    if !st.mode.NotStarted? && !st.mode.EndedPatch? {
      HeaderLocates(st, if st.mode.UpdatingFile? then TrimEnd(line) else Trim(line));
      if UPDATE_FILE <= TrimEnd(line) { TrimmedMarker(line); }
      if st.mode.UpdatingFile? { UpdateLineGoesOn(st, line); }
    }
  }

  // ---------------------------------------------------------------------------
  // Runs of lines
  // ---------------------------------------------------------------------------

  lemma RunLastLine(init: seq<string>, last: string)
    requires RunLines(INITIAL, init).error.None?
    ensures RunLines(INITIAL, init + [last]) == RunLine(RunLines(INITIAL, init).state, last)
  {
    RunLinesAppend(INITIAL, init, [last]);
    assert [last][1..] == [];
  }

  /** What an accepted line adds to `Located`. */
  lemma LocatedStep(init: seq<string>, last: string)
    requires var r := RunLines(INITIAL, init); r.error.None? && Located(r.state, init)
    requires RunLines(INITIAL, init + [last]).error.None?
    ensures Located(RunLines(INITIAL, init + [last]).state, init + [last])
  {
    var st, lines := RunLines(INITIAL, init).state, init + [last];
    var taken := st.(lineBuffer := "", lineNumber := st.lineNumber + 1);
    var next := RunLines(INITIAL, lines).state;
    assert next == ProcessLine(taken, last).state && ProcessLine(taken, last).error.None? by {
      RunLastLine(init, last);
    }
    ProcessLineLocates(taken, last);
    assert lines[|init|] == last && forall i | 0 <= i < |init| :: lines[i] == init[i];
    if next.mode.UpdatingFile? && Last(next.hunks).chunks == [] {
      var n := next.mode.hunkLineNumber;
      forall m | n <= m <= |lines| ensures LeavesEmpty(lines[..m], n) {
        if m == |lines| { assert lines[..m] == lines; } else { assert lines[..m] == init[..m]; }
      }
    }
  }

  lemma {:induction false} AcceptedLinesAreLocated(lines: seq<string>)
    requires RunLines(INITIAL, lines).error.None?
    ensures Located(RunLines(INITIAL, lines).state, lines)
  {
    if lines != [] {
      var init, last := DropLast(lines), Last(lines);
      assert lines == init + [last];
      AcceptedPrefix(init, last);
      AcceptedLinesAreLocated(init);
      LocatedStep(init, last);
    }
  }

  lemma AcceptedPrefix(init: seq<string>, last: string)
    requires RunLines(INITIAL, init + [last]).error.None?
    ensures RunLines(INITIAL, init).error.None?
  {
    if RunLines(INITIAL, init).error.Some? {
      ErrorsEndTheRun(INITIAL, init, [last]);
      assert false;
    }
  }

  /** The line behind accepted ones fails with an error of `ProcessLine`: who is to blame. */
  lemma RefusedLineIsBlamed(init: seq<string>, last: string, e: ParseError)
    requires var r := RunLines(INITIAL, init); r.error.None? && Located(r.state, init)
    requires var st := RunLines(INITIAL, init).state;
      var taken := st.(lineBuffer := "", lineNumber := st.lineNumber + 1);
      e.InvalidHunk? &&
      if e.hunkFault.EmptyUpdateHunk? then taken.mode == UpdatingFile(e.lineNumber) && Last(taken.hunks).chunks == []
      else e.lineNumber == taken.lineNumber
    ensures Blames(init + [last], e.hunkFault, e.lineNumber)
  {
    var lines, k := init + [last], |init| + 1;
    assert lines[..k - 1] == init && FirstRefused(lines, k);
    if e.hunkFault.EmptyUpdateHunk? {
      var n := e.lineNumber;
      assert lines[n - 1] == init[n - 1];
      forall m | n <= m < k ensures LeavesEmpty(lines[..m], n) { assert lines[..m] == init[..m]; }
    }
  }

  /** A run of lines that is refused blames the right line. */
  lemma {:induction false} RefusedLinesAreBlamed(lines: seq<string>)
    ensures var e := RunLines(INITIAL, lines).error;
      e.Some? && e.value.InvalidHunk? ==> Blames(lines, e.value.hunkFault, e.value.lineNumber)
  {
    if lines != [] {
      var init, last := DropLast(lines), Last(lines);
      assert lines == init + [last];
      if RunLines(INITIAL, init).error.Some? {
        ErrorsEndTheRun(INITIAL, init, [last]);
        RefusedLinesAreBlamed(init);
        BlameStays(init, last);
      } else {
        AcceptedLinesAreLocated(init);
        RunLastLine(init, last);
        var st := RunLines(INITIAL, init).state;
        var e := RunLine(st, last).error;
        ProcessLineLocates(st.(lineBuffer := "", lineNumber := st.lineNumber + 1), last);
        if e.Some? && e.value.InvalidHunk? { RefusedLineIsBlamed(init, last, e.value); }
      }
    }
  }

  lemma FirstRefusedStays(init: seq<string>, last: string, k: nat)
    requires RunLines(INITIAL, init).error.Some? && FirstRefused(init, k)
    ensures FirstRefused(init + [last], k)
  {
    assert (init + [last])[..k - 1] == init[..k - 1] && (init + [last])[..k] == init[..k];
    if k == |init| { assert init[..k] == init; }
  }

  lemma BlameStays(init: seq<string>, last: string)
    requires RunLines(INITIAL, init).error.Some?
    ensures forall fault, n | Blames(init, fault, n) :: Blames(init + [last], fault, n)
  {
    var lines := init + [last];
    forall fault, n: nat | Blames(init, fault, n) ensures Blames(lines, fault, n) {
      if fault.EmptyUpdateHunk? {
        var k :| n < k <= |init| && FirstRefused(init, k) && forall m | n <= m < k :: LeavesEmpty(init[..m], n);
        FirstRefusedStays(init, last, k);
        assert lines[n - 1] == init[n - 1];
        forall m | n <= m < k ensures LeavesEmpty(lines[..m], n) { assert lines[..m] == init[..m]; }
      } else {
        FirstRefusedStays(init, last, n);
      }
    }
  }

  /** The last line, which `finish` takes without removing a carriage return. */
  lemma FinishBlames(init: seq<string>, last: string)
    requires var r := RunLines(INITIAL, init); r.error.None? && Located(r.state, init)
    requires last != ""
    ensures var e := Finish(RunLines(INITIAL, init).state.(lineBuffer := last)).error;
      e.Some? && e.value.InvalidHunk? ==> Blames(init + [last], e.value.hunkFault, e.value.lineNumber)
  {
    var st := RunLines(INITIAL, init).state;
    var taken := st.(lineBuffer := "", lineNumber := st.lineNumber + 1);
    var e := Finish(st.(lineBuffer := last)).error;
    if Trim(last) != END_PATCH {
      ProcessLineLocates(taken, last);
      assert FinishLine(st.(lineBuffer := last)) == ProcessLine(taken, last);
    }
    if e.Some? && e.value.InvalidHunk? { RefusedLineIsBlamed(init, last, e.value); }
  }

  /** The lines as the parser sees them: all but the last lose a carriage return. */
  function Seen(lines: seq<string>): seq<string>
    requires lines != []
  {
    StripCrs(DropLast(lines)) + [Last(lines)]
  }

  lemma RefusedBodyIsBlamed(lines: seq<string>, fault: HunkFault, n: nat)
    requires lines != [] && NewlineFree(lines) && ParseLines(lines) == Invalid(InvalidHunk(fault, n))
    ensures Blames(Seen(lines), fault, n)
  {
    var init, last := DropLast(lines), Last(lines);
    var stripped := StripCrs(init);
    var r := RunLines(INITIAL, stripped);
    assert lines == init + [last];
    PushLines(INITIAL, init, last);
    if r.error.Some? {
      RefusedLinesAreBlamed(stripped);
      BlameStays(stripped, last);
    } else {
      AcceptedLinesAreLocated(stripped);
      if last != "" { FinishBlames(stripped, last); }
    }
  }

  lemma BodyIsPartOf(lines: seq<string>)
    requires CheckLenient(lines).Within? && NewlineFree(lines)
    ensures NewlineFree(CheckLenient(lines).lines) && CheckLenient(lines).lines != []
  {
    var body := CheckLenient(lines).lines;
    forall l | l in body ensures '\n' !in l { assert l in lines; }
  }

  /** Main: when a patch is refused with a line number, that line of the patch, counted behind the
      opening of a heredoc, is the header of an update that got no chunk before the first refused
      line, or for any other fault it is the first refused line itself. */
  lemma ErrorsPointAtTheirLine(patch: string, fault: HunkFault, n: nat)
    requires ParsePatch(patch) == Invalid(InvalidHunk(fault, n))
    ensures var body := CheckLenient(Lines(Trim(patch))).lines;
      body != [] && Blames(Seen(body), fault, n)
  {
    var lines := Lines(Trim(patch));
    var body := CheckLenient(lines).lines;
    BodyIsPartOf(lines);
    RefusedBodyIsBlamed(body, fault, n);
  }
}
