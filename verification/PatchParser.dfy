/** `parse_patch`: the boundary checks, the heredoc leniency, and the two theorems that say
    what the parser accepts and returns. */
module PatchParser {
  import opened Text
  import opened Patch
  import opened ParserSteps
  import opened StreamingParser
  import opened WellFormed
  import opened PatchPrinter
  import opened RoundTrip
  import ParserRefinement

  datatype ParsedPatch =
    | Parsed(patch: string, hunks: seq<Hunk>, environmentId: Option<string>)
    | Invalid(error: ParseError)

  datatype Boundaries = Within(lines: seq<string>) | Outside(fault: PatchFault)

  function CheckStartAndEnd(first: Option<string>, last: Option<string>): Option<PatchFault> {
    if first.Some? && last.Some? && Trim(first.value) == BEGIN_PATCH && Trim(last.value) == END_PATCH then None
    else if first.Some? && Trim(first.value) != BEGIN_PATCH then Some(FirstLineNotBegin)
    else Some(LastLineNotEnd)
  }

  function CheckStrict(lines: seq<string>): Boundaries {
    var fault := if lines == [] then CheckStartAndEnd(None, None)
                 else CheckStartAndEnd(Some(lines[0]), Some(Last(lines)));
    if fault.Some? then Outside(fault.value) else Within(lines)
  }

  /** A command line's heredoc that nobody interpreted. */
  predicate IsHeredoc(lines: seq<string>) {
    && |lines| >= 4
    && (lines[0] == "<<EOF" || lines[0] == "<<'EOF'" || lines[0] == "<<\"EOF\"")
    && EndsWithEof(Last(lines))
  }

  predicate EndsWithEof(l: string) {
    |l| >= 3 && l[|l| - 3..] == "EOF"
  }

  function CheckLenient(lines: seq<string>): Boundaries {
    var strict := CheckStrict(lines);
    if strict.Outside? && IsHeredoc(lines) then CheckStrict(lines[1..|lines| - 1]) else strict
  }

  /** What a new parser makes of a whole text. */
  function ParseLines(lines: seq<string>): ParsedPatch {
    var text := Join(lines);
    var pushed := Push(INITIAL, text);
    if pushed.error.Some? then Invalid(pushed.error.value)
    else
      var finished := Finish(pushed.state);
      if finished.error.Some? then Invalid(finished.error.value)
      else Parsed(text, finished.state.hunks, finished.state.environmentId)
  }

  function ParseChecked(b: Boundaries): ParsedPatch {
    if b.Outside? then Invalid(InvalidPatch(b.fault)) else ParseLines(b.lines)
  }

  function ParsePatch(patch: string): ParsedPatch {
    ParseChecked(CheckLenient(Lines(Trim(patch))))
  }

  /** The source's `parse_patch_text` in its lenient mode, driving a parser object. */
  method ParsePatchText(patch: string) returns (r: ParsedPatch)
    ensures r == ParsePatch(patch)
  {
    var checked := CheckLenient(Lines(Trim(patch)));
    if checked.Outside? {
      return Invalid(InvalidPatch(checked.fault));
    }
    var text := Join(checked.lines);
    var parser := new StreamingPatchParser();
    var error := parser.PushDelta(text);
    if error.Some? { return Invalid(error.value); }
    error := parser.Finish();
    if error.Some? { return Invalid(error.value); }
    return Parsed(text, parser.hunks, parser.environmentId);
  }

  // ---------------------------------------------------------------------------
  // Accepted patches are well formed
  // ---------------------------------------------------------------------------

  /** Whatever text is accepted, its hunks are complete and its environment id is a clean name. */
  lemma AcceptedPatchIsWellFormed(patch: string)
    requires ParsePatch(patch).Parsed?
    ensures AllComplete(ParsePatch(patch).hunks)
    ensures var id := ParsePatch(patch).environmentId; id.Some? ==> CleanName(id.value) && StartsInk(id.value)
  {
    AcceptedIsComplete(Join(CheckLenient(Lines(Trim(patch))).lines));
  }

  // ---------------------------------------------------------------------------
  // From lines to text
  // ---------------------------------------------------------------------------

  lemma {:induction false} PushWord(st: ParserState, word: string)
    requires '\n' !in word
    ensures Push(st, word) == Step(st.(lineBuffer := st.lineBuffer + word), None)
    decreases |word|
  {
    if word == "" {
      assert st.lineBuffer + word == st.lineBuffer;
    } else {
      assert st.lineBuffer + [word[0]] + word[1..] == st.lineBuffer + word;
      PushWord(st.(lineBuffer := st.lineBuffer + [word[0]]), word[1..]);
    }
  }

  lemma PushNewline(st: ParserState)
    ensures Push(st, "\n") == EndLine(st)
  {
    var r := EndLine(st);
    assert "\n"[1..] == "";
    assert Push(r.state, "") == Step(r.state, None);
    PushStep(st, "\n", 0);
  }

  lemma EndingABufferedLine(st: ParserState, line: string)
    requires st.lineBuffer == ""
    ensures EndLine(st.(lineBuffer := line)) == RunLine(st, StripCr(line))
  {
    assert st.(lineBuffer := line).(lineBuffer := "", lineNumber := st.lineNumber + 1)
        == st.(lineBuffer := "", lineNumber := st.lineNumber + 1);
  }

  lemma PushLine(st: ParserState, line: string)
    requires st.lineBuffer == "" && '\n' !in line
    ensures Push(st, line + "\n") == RunLine(st, StripCr(line))
  {
    var buffered := st.(lineBuffer := line);
    assert Push(st, line) == Step(buffered, None) by {
      PushWord(st, line);
      assert "" + line == line;
    }
    assert Push(st, line + "\n") == Push(buffered, "\n") by {
      ParserRefinement.PushAppend(st, line, "\n");
    }
    assert Push(buffered, "\n") == RunLine(st, StripCr(line)) by {
      PushNewline(buffered);
      EndingABufferedLine(st, line);
    }
  }

  /** Pushing complete lines and an unterminated last one. */
  lemma {:induction false} PushLines(st: ParserState, lines: seq<string>, last: string)
    requires st.lineBuffer == "" && NewlineFree(lines) && '\n' !in last
    ensures var r := RunLines(st, StripCrs(lines));
      Push(st, Join(lines + [last])) == if r.error.Some? then r else Step(r.state.(lineBuffer := last), None)
    decreases |lines|
  {
    if lines == [] {
      PushWord(st, last);
      assert "" + last == last;
      assert st.(lineBuffer := last) == RunLines(st, []).state.(lineBuffer := last);
    } else {
      var line, rest := lines[0], lines[1..];
      assert (lines + [last])[1..] == rest + [last];
      assert Join(lines + [last]) == (line + "\n") + Join(rest + [last]);
      assert StripCrs(lines)[0] == StripCr(line) && StripCrs(lines)[1..] == StripCrs(rest);
      var first := RunLine(st, StripCr(line));
      LineBufferStaysEmpty(st, StripCr(line));
      PushLines(first.state, rest, last);
      PushLine(st, line);
      ParserRefinement.PushAppend(st, line + "\n", Join(rest + [last]));
    }
  }

  lemma {:induction false} RunLinesEmptiesBuffer(st: ParserState, raws: seq<string>)
    requires st.lineBuffer == ""
    ensures RunLines(st, raws).state.lineBuffer == ""
    decreases |raws|
  {
    if raws != [] {
      LineBufferStaysEmpty(st, raws[0]);
      if RunLine(st, raws[0]).error.None? {
        RunLinesEmptiesBuffer(RunLine(st, raws[0]).state, raws[1..]);
      }
    }
  }

  /** Trimming does nothing to a text that begins and ends with a marker, and splitting it
      into lines undoes the join, but for one carriage return at the end of each line. */
  lemma LinesOfPrinted(lines: seq<string>)
    requires |lines| >= 2 && NewlineFree(lines)
    requires lines[0] == BEGIN_PATCH && Last(lines) == END_PATCH
    ensures Trim(Join(lines)) == Join(lines)
    ensures Lines(Join(lines)) == StripCrs(lines)
  {
    var text := Join(lines);
    assert StartsInk(text) && EndsInk(text) by { EndsOfPrinted(lines); }
    StripsWithLast(lines);
    SplitOfJoin(lines);
    TrimOfInk(text);
  }

  lemma StripsWithLast(lines: seq<string>)
    requires lines != [] && Last(lines) == END_PATCH
    ensures LinesOf(lines) == StripCrs(lines)
  {
    var init := lines[..|lines| - 1];
    assert forall i | 0 <= i < |init| :: StripCrs(init)[i] == StripCrs(lines)[i];
  }

  lemma EndsOfPrinted(lines: seq<string>)
    requires |lines| >= 2 && lines[0] == BEGIN_PATCH && Last(lines) == END_PATCH
    ensures StartsInk(Join(lines)) && EndsInk(Join(lines))
  {
    var text := Join(lines);
    var init := DropLast(lines);
    assert init + [END_PATCH] == lines;
    assert text[0] == BEGIN_PATCH[0];
    JoinAppend(init, [END_PATCH]);
    assert text[|text| - 1] == END_PATCH[|END_PATCH| - 1];
  }

  lemma RunBegin()
    ensures RunLine(INITIAL, BEGIN_PATCH) == Step(ParserState("", StartedPatch, [], None, 1), None)
  {
    TrimOfInk(BEGIN_PATCH);
  }

  /** Everything before the end marker, from the initial state. */
  lemma RunPrinted(d: PatchDoc) returns (end: ParserState)
    requires Printable(d)
    ensures RunLines(INITIAL, [BEGIN_PATCH] + PrintEnvironment(d.environmentId) + PrintHunks(d.hunks))
         == Step(end, None)
    ensures Ready(end) && end.hunks == HunksOf(d.hunks) && end.environmentId == d.environmentId
  {
    var begun := ParserState("", StartedPatch, [], None, 1);
    var preamble := [BEGIN_PATCH] + PrintEnvironment(d.environmentId);
    var st := begun.(environmentId := d.environmentId, lineNumber := |preamble|);
    assert [] + HunksOf(d.hunks) == HunksOf(d.hunks);
    assert RunLines(INITIAL, preamble) == Step(st, None) by {
      RunPreamble(d.environmentId);
    }
    RunLinesAppend(INITIAL, preamble, PrintHunks(d.hunks));
    var mode := AllHunks(st, d.hunks);
    end := Moved(st, |PrintHunks(d.hunks)|, HunksOf(d.hunks), mode);
  }

  lemma RunPreamble(id: Option<string>)
    requires id.Some? ==> CleanName(id.value) && StartsInk(id.value)
    ensures var preamble := [BEGIN_PATCH] + PrintEnvironment(id);
      RunLines(INITIAL, preamble) == Step(ParserState("", StartedPatch, [], id, |preamble|), None)
  {
    var begun := ParserState("", StartedPatch, [], None, 1);
    var preamble := [BEGIN_PATCH] + PrintEnvironment(id);
    assert preamble[0] == BEGIN_PATCH && preamble[1..] == PrintEnvironment(id);
    assert RunLines(begun, []) == Step(begun, None);
    if id.Some? {
      var line := ENVIRONMENT_ID + " " + id.value;
      assert PrintEnvironment(id)[0] == line && PrintEnvironment(id)[1..] == [];
      EnvironmentHeader(begun, id.value);
      var named := RunLine(begun, line).state;
      assert RunLines(named, []) == Step(named, None);
    }
    RunBegin();
    assert RunLines(INITIAL, preamble) == RunLines(begun, PrintEnvironment(id));
  }

  /** Print then parse is the identity: every printable document is read back as exactly the
      hunks and the environment id it stands for. When no line ends in a carriage return, the text
      is the plain print of the grammar and is returned unchanged. */
  lemma PrintThenParse(d: PatchDoc)
    requires Printable(d)
    ensures ParsePatch(PrintText(d))
         == Parsed(Join(HalfGuarded(PrintPatch(d))), HunksOf(d.hunks), d.environmentId)
    ensures StripCrs(PrintPatch(d)) == PrintPatch(d) ==>
              PrintText(d) == Join(PrintPatch(d))
              && ParsePatch(PrintText(d)) == Parsed(PrintText(d), HunksOf(d.hunks), d.environmentId)
  {
    var lines := PrintPatch(d);
    assert ParsePatch(PrintText(d)) == ParseLines(HalfGuarded(lines)) by { PrintedLinesAreBounded(d); }
    ReadPrinted(d);
    if StripCrs(lines) == lines { PlainLinesNeedNoGuard(lines); }
  }

  /** The text of a printed patch is not trimmed, and its lines are within the boundaries. */
  lemma PrintedLinesAreBounded(d: PatchDoc)
    requires Written(d)
    ensures Trim(PrintText(d)) == PrintText(d) && Lines(PrintText(d)) == HalfGuarded(PrintPatch(d))
    ensures CheckStrict(HalfGuarded(PrintPatch(d))) == Within(HalfGuarded(PrintPatch(d)))
  {
    var lines := PrintPatch(d);
    PrintedPatchIsNewlineFree(d);
    GuardedLinesAreRestored(lines);
    assert lines[0] == BEGIN_PATCH && Last(lines) == END_PATCH;
    LinesOfPrinted(Guarded(lines));
    TrimOfInk(BEGIN_PATCH);
    TrimOfInk(END_PATCH);
  }

  lemma HalfGuardedEnd(body: seq<string>)
    ensures HalfGuarded(body + [END_PATCH]) == HalfGuarded(body) + [END_PATCH]
  {
    var all := body + [END_PATCH];
    assert forall i | 0 <= i < |body| :: HalfGuarded(all)[i] == HalfGuarded(body)[i];
  }

  lemma ReadPrinted(d: PatchDoc)
    requires Printable(d)
    ensures ParseLines(HalfGuarded(PrintPatch(d)))
         == Parsed(Join(HalfGuarded(PrintPatch(d))), HunksOf(d.hunks), d.environmentId)
  {
    var body := [BEGIN_PATCH] + PrintEnvironment(d.environmentId) + PrintHunks(d.hunks);
    var seen := HalfGuarded(body);
    assert PrintPatch(d) == body + [END_PATCH];
    HalfGuardedEnd(body);
    assert NewlineFree(body) by {
      PrintedPatchIsNewlineFree(d);
      assert forall l | l in body :: l in PrintPatch(d);
    }
    GuardedLinesAreRestored(body);
    var end := RunPrinted(d);
    ReadWithEndMarker(seen, end);
  }

  lemma ReadWithEndMarker(seen: seq<string>, end: ParserState)
    requires NewlineFree(seen) && RunLines(INITIAL, StripCrs(seen)) == Step(end, None) && Ready(end)
    ensures ParseLines(seen + [END_PATCH]) == Parsed(Join(seen + [END_PATCH]), end.hunks, end.environmentId)
  {
    PushLines(INITIAL, seen, END_PATCH);
    FinishPrinted(end);
  }

  lemma FinishPrinted(end: ParserState)
    requires Ready(end)
    ensures Finish(end.(lineBuffer := END_PATCH)) ==
            Step(end.(mode := EndedPatch, lineNumber := end.lineNumber + 1), None)
  {
    TrimOfInk(END_PATCH);
  }
}
