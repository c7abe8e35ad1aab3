/** Exactly which texts the parser accepts, and what it returns for them. */
module Language {
  import opened Text
  import opened Patch
  import opened ParserSteps
  import opened WellFormed
  import opened PatchPrinter
  import opened RoundTrip
  import opened PatchParser
  import opened NormalForm
  import opened AcceptedPatches
  import Heredoc

  /** An end marker in the last line ends the patch, whatever white space is around it. */
  lemma EndMarkerFinishes(st: ParserState, last: string)
    requires st.lineBuffer == "" && Trim(last) == END_PATCH && EmptinessError(Taken(st), END_PATCH).None?
    ensures Finish(st.(lineBuffer := last)) == Step(Taken(st).(mode := EndedPatch), None)
  {
    assert last != "" by { TrimShape(last); }
    assert st.(lineBuffer := last).(lineBuffer := "", lineNumber := st.lineNumber + 1) == Taken(st);
    assert FinishTaken(Taken(st), last) == Step(Taken(st).(mode := EndedPatch), None);
  }

  lemma EmptinessIsAlike(s: ParserState, t: ParserState, line: string)
    requires Alike(s, t) && EmptinessError(t, line).None?
    ensures EmptinessError(Taken(s), line).None?
  {
  }

  /** Lines that leave the parser where those of the printed document do, and an end marker. */
  lemma EndingAlike(lines: seq<string>, st: ParserState, end: ParserState)
    requires lines != [] && NewlineFree(lines) && Trim(Last(lines)) == END_PATCH
    requires RunLines(INITIAL, StripCrs(DropLast(lines))) == Step(st, None)
    requires Alike(st, end) && end.lineBuffer == "" && EmptinessError(end, END_PATCH).None?
    ensures var r := ParseLines(lines); r.Parsed? && r.hunks == end.hunks && r.environmentId == end.environmentId
  {
    var init, last := DropLast(lines), Last(lines);
    assert lines == init + [last] && last in lines;
    assert NewlineFree(init);
    PushLines(INITIAL, init, last);
    EmptinessIsAlike(st, end, END_PATCH);
    EndMarkerFinishes(st, last);
  }

  /** Lines whose normal form is the print of a document are accepted as that document. */
  lemma PrintInNormalFormIsRead(lines: seq<string>, d: PatchDoc)
    requires lines != [] && NewlineFree(lines) && Trim(Last(lines)) == END_PATCH
    requires Printable(d) && AreThePrint(StripCrs(lines), d)
    ensures var r := ParseLines(lines); r.Parsed? && r.hunks == HunksOf(d.hunks) && r.environmentId == d.environmentId
  {
    var init := StripCrs(DropLast(lines));
    assert DropLast(StripCrs(lines)) == init;
    var normal := Normal(Between, init);
    var end;
    if PrintPatch(d) == normal + [END_PATCH] {
      var body := [BEGIN_PATCH] + PrintEnvironment(d.environmentId) + PrintHunks(d.hunks);
      assert body + [END_PATCH] == PrintPatch(d) && body == (body + [END_PATCH])[..|body|];
      assert normal == (normal + [END_PATCH])[..|normal|];
      end := RunPrinted(d);
    } else {
      end := RunWholePrint(d);
    }
    ReadLikeTheNormalForm(INITIAL, INITIAL, init, normal);
    EndingAlike(lines, RunLines(INITIAL, init).state, end);
  }

  /** Main: the text of a patch is accepted with certain hunks and environment exactly when it is
      within the boundaries and in normal form is the print of a document that stands for them,
      up to a second end marker. */
  lemma AcceptedExactlyWhen(patch: string, hunks: seq<Hunk>, id: Option<string>)
    ensures
      (ParsePatch(patch).Parsed? && ParsePatch(patch).hunks == hunks && ParsePatch(patch).environmentId == id) <==>
      && CheckLenient(Lines(Trim(patch))).Within?
      && exists d :: Printable(d) && AreThePrint(ReadLines(patch), d)
                     && HunksOf(d.hunks) == hunks && d.environmentId == id
  {
    var r := ParsePatch(patch);
    if r.Parsed? && r.hunks == hunks && r.environmentId == id {
      var d := AcceptedPatchIsPrinted(patch);
    }
    if CheckLenient(Lines(Trim(patch))).Within? {
      if d :| Printable(d) && AreThePrint(ReadLines(patch), d) && HunksOf(d.hunks) == hunks && d.environmentId == id {
        PrintedTextIsRead(patch, d);
      }
    }
  }

  lemma PrintedTextIsRead(patch: string, d: PatchDoc)
    requires CheckLenient(Lines(Trim(patch))).Within? && Printable(d) && AreThePrint(ReadLines(patch), d)
    ensures var r := ParsePatch(patch); r.Parsed? && r.hunks == HunksOf(d.hunks) && r.environmentId == d.environmentId
  {
    var lines := Lines(Trim(patch));
    BoundaryEnds(lines);
    Heredoc.WithinBegins(lines);
    PrintInNormalFormIsRead(CheckLenient(lines).lines, d);
  }

  /** Although white space before markers is said to be tolerated, a marker with a blank before it
      inside an update is a context line, or refused behind an end-of-file marker. */
  lemma IndentedMarkerIsContext(st: ParserState, marker: string)
    requires st.mode.UpdatingFile? && st.hunks != [] && Last(st.hunks).UpdateFile?
    requires EndsInk(marker) && marker != ""
    ensures var r, h := RunLine(st, " " + marker), Last(st.hunks);
      if PlaceOf(st).ChunkEnd? then r.error == Some(InvalidHunk(ExpectedContextMarker, st.lineNumber + 1))
      else
        var grown := h.(chunks := Extend(h.chunks, [marker], [marker]));
        r == Step(Taken(st).(hunks := DropLast(st.hunks) + [grown]), None)
  {
    var raw := " " + marker;
    assert raw[|raw| - 1] == marker[|marker| - 1];
    assert TrimEnd(raw) == raw && raw[1..] == marker;
    MarkersDiffer();
    NotAHeaderFromBlank(Taken(st), raw);
  }

  lemma NotAHeaderFromBlank(st: ParserState, line: string)
    requires line != "" && line[0] == ' '
    ensures HandleHeader(st, line) == NotAHeader
  {
    NotAHeaderLine(st, line);
  }
}
