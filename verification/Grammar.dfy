/** Where the parser asks for more than the documented grammar: an update may be written without a
    chunk and a chunk with a marker alone, but neither is accepted. */
module Grammar {
  import opened Text
  import opened Patch
  import opened ParserSteps
  import opened WellFormed
  import opened PatchPrinter
  import opened RoundTrip
  import opened PatchParser

  predicate HunkError(e: Option<ParseError>) {
    e.Some? && e.value.InvalidHunk?
  }

  /** The error at the first refused line. */
  function ErrorOf(st: ParserState, lines: seq<string>): Option<ParseError> {
    RunLines(st, lines).error
  }

  lemma ErrorStays(st: ParserState, a: seq<string>, b: seq<string>)
    requires ErrorOf(st, a).Some?
    ensures ErrorOf(st, a + b) == ErrorOf(st, a)
  {
    ErrorsEndTheRun(st, a, b);
  }

  lemma ErrorLater(st: ParserState, a: seq<string>, hunks: seq<Hunk>, mode: Mode, b: seq<string>)
    requires Yields(st, a, hunks, mode)
    ensures ErrorOf(st, a + b) == ErrorOf(Moved(st, |a|, hunks, mode), b)
  {
    RunLinesAppend(st, a, b);
  }

  lemma ErrorOfOne(st: ParserState, line: string, rest: seq<string>)
    ensures ErrorOf(st, [line]) == RunLine(st, line).error
    ensures ErrorOf(st, [line]).Some? ==> ErrorOf(st, [line] + rest) == ErrorOf(st, [line])
  {
    assert [line][1..] == [] && RunLines(RunLine(st, line).state, []).error.None?;
    if ErrorOf(st, [line]).Some? { ErrorStays(st, [line], rest); }
  }

  // ---------------------------------------------------------------------------
  // What cannot follow a hunk without lines
  // ---------------------------------------------------------------------------

  /** A hunk header or the end marker. */
  predicate Closes(line: string) {
    EndsInk(line) && (line == END_PATCH || ADD_FILE <= line || DELETE_FILE <= line || UPDATE_FILE <= line)
  }

  /** The update has no chunk, or its last one has no line. */
  predicate Unfinished(h: Hunk) {
    h.UpdateFile? && (h.chunks == [] || Last(h.chunks).IsEmpty())
  }

  lemma ClosingIsRefused(st: ParserState, pre: seq<Hunk>, h: Hunk, line: string)
    requires Updating(st, pre, h) && Unfinished(h) && Closes(line)
    ensures HunkError(ErrorOf(st, [line]))
    ensures h.chunks == [] ==>
              ErrorOf(st, [line]) == Some(InvalidHunk(EmptyUpdateHunk, st.mode.hunkLineNumber))
  {
    assert line[0] == '*';
    TrimOfInk(line);
    ErrorOfOne(st, line, []);
  }

  /** Neither another marker nor an end-of-file marker may follow a marker alone. */
  lemma MarkerIsRefused(st: ParserState, pre: seq<Hunk>, h: Hunk, line: string)
    requires Updating(st, pre, h) && h.chunks != [] && Last(h.chunks) == NewChunk(Last(h.chunks).changeContext)
    requires TrimEnd(line) == line
    requires line == EOF_MARKER || line == EMPTY_CHANGE_CONTEXT || CHANGE_CONTEXT <= line
    ensures HunkError(ErrorOf(st, [line]))
  {
    assert CHANGE_CONTEXT[0] == '@' && EMPTY_CHANGE_CONTEXT[0] == '@' && EOF_MARKER[4] == 'E' && EOF_MARKER[8] == 'o';
    assert END_PATCH[0] == '*' && END_PATCH[8] == 'P';
    assert ADD_FILE[4] == 'A' && DELETE_FILE[4] == 'D' && UPDATE_FILE[4] == 'U' && ADD_FILE[0] == '*'
        && DELETE_FILE[0] == '*' && UPDATE_FILE[0] == '*';
    ErrorOfOne(st, line, []);
  }

  // ---------------------------------------------------------------------------
  // Chunks without lines
  // ---------------------------------------------------------------------------

  predicate AllHaveLines(docs: seq<ChunkDoc>) {
    forall c | c in docs :: c.body != []
  }

  /** What is printed behind a marker without lines. */
  function BehindMarker(atEndOfFile: bool, docs: seq<ChunkDoc>, closing: string): seq<string> {
    (if atEndOfFile then [EOF_MARKER] else []) + PrintChunks(docs) + [closing]
  }

  lemma NothingFollowsAMarker(
    st: ParserState, pre: seq<Hunk>, h: Hunk, atEndOfFile: bool, docs: seq<ChunkDoc>, closing: string)
    requires Updating(st, pre, h) && h.chunks != [] && Last(h.chunks) == NewChunk(Last(h.chunks).changeContext)
    requires (docs != [] ==> WrittenChunk(docs[0]) && !docs[0].header.Implicit?) && Closes(closing)
    ensures HunkError(ErrorOf(st, BehindMarker(atEndOfFile, docs, closing)))
  {
    var lines := BehindMarker(atEndOfFile, docs, closing);
    if atEndOfFile {
      TrimOfInk(EOF_MARKER);
      MarkerIsRefused(st, pre, h, lines[0]);
    } else if docs == [] {
      ClosingIsRefused(st, pre, h, lines[0]);
    } else {
      PrintedMarkerIsTrimmed(docs[0]);
      MarkerIsRefused(st, pre, h, lines[0]);
    }
    assert lines == [lines[0]] + lines[1..];
    ErrorStays(st, [lines[0]], lines[1..]);
  }

  /** A chunk that is a marker alone, with what is printed behind it. */
  lemma {:induction false} BareChunkIsRefused(
    st: ParserState, pre: seq<Hunk>, h: Hunk, doc: ChunkDoc, docs: seq<ChunkDoc>, closing: string)
    requires Updating(st, pre, h) && ChunkMayBegin(h) && WrittenChunk(doc) && doc.body == []
    requires (docs != [] ==> WrittenChunk(docs[0]) && !docs[0].header.Implicit?) && Closes(closing)
    ensures HunkError(ErrorOf(st, PrintChunk(doc) + PrintChunks(docs) + [closing]))
  {
    var marker, behind := PrintHeader(doc.header), BehindMarker(doc.atEndOfFile, docs, closing);
    var begun := h.(chunks := h.chunks + [NewChunk(ContextOf(doc.header))]);
    assert PrintChunk(doc) + PrintChunks(docs) + [closing] == marker + behind;
    ContextLine(st, pre, h, doc.header);
    NothingFollowsAMarker(
      Moved(st, |marker|, pre + [begun], st.mode), pre, begun, doc.atEndOfFile, docs, closing);
    ErrorLater(st, marker, pre + [begun], st.mode, behind);
  }

  lemma PrintedMarkerIsTrimmed(doc: ChunkDoc)
    requires WrittenChunk(doc) && !doc.header.Implicit?
    ensures var line := PrintChunk(doc)[0];
      TrimEnd(line) == line && (line == EMPTY_CHANGE_CONTEXT || CHANGE_CONTEXT <= line)
  {
    if doc.header.At? {
      MarkedName(CHANGE_CONTEXT, doc.header.context);
    } else {
      TrimOfInk(EMPTY_CHANGE_CONTEXT);
    }
  }

  /** Chunks of which one has no lines, or no chunk at all. */
  lemma {:induction false} BareChunksAreRefused(
    st: ParserState, pre: seq<Hunk>, h: Hunk, docs: seq<ChunkDoc>, closing: string)
    requires Updating(st, pre, h) && ChunkMayBegin(h) && WrittenChunks(docs) && Closes(closing)
    requires docs != [] && docs[0].header.Implicit? ==> h.chunks == []
    requires if docs == [] then h.chunks == [] else !AllHaveLines(docs)
    ensures HunkError(ErrorOf(st, PrintChunks(docs) + [closing]))
    decreases |docs|
  {
    if docs == [] {
      assert PrintChunks(docs) + [closing] == [closing];
      ClosingIsRefused(st, pre, h, closing);
    } else {
      var doc, rest := docs[0], docs[1..];
      assert docs == [doc] + rest;
      assert WrittenChunk(doc) && forall c | c in rest :: WrittenChunk(c);
      assert forall i | 0 <= i < |rest| :: rest[i] == docs[i + 1];
      if doc.body == [] {
        BareChunkIsRefused(st, pre, h, doc, rest, closing);
      } else {
        var k := h.(chunks := h.chunks + [ChunkOf(doc)]);
        assert PrintChunk(doc) + (PrintChunks(rest) + [closing]) == PrintChunks(docs) + [closing];
        OneChunk(st, pre, h, doc);
        BodyMakesChunk(doc.body);
        BareChunksAreRefused(Moved(st, |PrintChunk(doc)|, pre + [k], st.mode), pre, k, rest, closing);
        ErrorLater(st, PrintChunk(doc), pre + [k], st.mode, PrintChunks(rest) + [closing]);
      }
    }
  }

  // ---------------------------------------------------------------------------
  // Hunks and patches
  // ---------------------------------------------------------------------------

  /** An update without chunks is refused at its header. */
  lemma UpdateWithoutChunksIsRefused(st: ParserState, path: string, moveTo: Option<string>, closing: string)
    requires Ready(st) && CleanName(path) && (moveTo.Some? ==> CleanName(moveTo.value)) && Closes(closing)
    ensures ErrorOf(st, [UPDATE_FILE + path] + PrintMove(moveTo) + [closing])
         == Some(InvalidHunk(EmptyUpdateHunk, st.lineNumber + 1))
  {
    var mode, h := UpdatingFile(st.lineNumber + 1), UpdateFile(path, moveTo, []);
    var head := [UPDATE_FILE + path] + PrintMove(moveTo);
    UpdateHead(st, path, moveTo);
    ClosingIsRefused(Moved(st, |head|, st.hunks + [h], mode), st.hunks, h, closing);
    ErrorLater(st, head, st.hunks + [h], mode, [closing]);
  }

  lemma BareHunkIsRefused(st: ParserState, h: HunkDoc, closing: string)
    requires Ready(st) && WrittenHunk(h) && !PrintableHunk(h) && Closes(closing)
    ensures HunkError(ErrorOf(st, PrintHunk(h) + [closing]))
  {
    var mode, h1 := UpdatingFile(st.lineNumber + 1), UpdateFile(h.path, h.moveTo, []);
    var head := [UPDATE_FILE + h.path] + PrintMove(h.moveTo);
    if h.chunks == [] {
      UpdateWithoutChunksIsRefused(st, h.path, h.moveTo, closing);
      assert PrintHunk(h) == head;
    } else {
      UpdateHead(st, h.path, h.moveTo);
      BareChunksAreRefused(Moved(st, |head|, st.hunks + [h1], mode), st.hunks, h1, h.chunks, closing);
      ErrorLater(st, head, st.hunks + [h1], mode, PrintChunks(h.chunks) + [closing]);
      assert head + (PrintChunks(h.chunks) + [closing]) == PrintHunk(h) + [closing];
    }
  }

  lemma HeadersClose(hs: seq<HunkDoc>)
    requires forall h | h in hs :: WrittenHunk(h)
    ensures Closes((PrintHunks(hs) + [END_PATCH])[0])
  {
    if hs != [] {
      assert WrittenHunk(hs[0]);
      MarkedName(ADD_FILE, hs[0].path);
      MarkedName(DELETE_FILE, hs[0].path);
      MarkedName(UPDATE_FILE, hs[0].path);
    }
  }

  lemma {:induction false} HunksAreRefused(st: ParserState, hs: seq<HunkDoc>)
    requires Ready(st) && (forall h | h in hs :: WrittenHunk(h)) && exists h :: h in hs && !PrintableHunk(h)
    ensures HunkError(ErrorOf(st, PrintHunks(hs) + [END_PATCH]))
    decreases |hs|
  {
    var h, rest := hs[0], hs[1..];
    var tail := PrintHunks(rest) + [END_PATCH];
    assert hs == [h] + rest;
    assert PrintHunks(hs) + [END_PATCH] == PrintHunk(h) + tail;
    if PrintableHunk(h) {
      var hunks, mode := st.hunks + [HunkOf(h)], ModeAfter(st, h);
      OneHunk(st, h);
      HunksAreRefused(Moved(st, |PrintHunk(h)|, hunks, mode), rest);
      ErrorLater(st, PrintHunk(h), hunks, mode, tail);
    } else {
      FirstHunkIsRefused(st, h, rest);
    }
  }

  lemma {:induction false} FirstHunkIsRefused(st: ParserState, h: HunkDoc, rest: seq<HunkDoc>)
    requires Ready(st) && WrittenHunk(h) && !PrintableHunk(h) && forall k | k in rest :: WrittenHunk(k)
    ensures HunkError(ErrorOf(st, PrintHunk(h) + (PrintHunks(rest) + [END_PATCH])))
  {
    var tail := PrintHunks(rest) + [END_PATCH];
    var first := PrintHunk(h) + [tail[0]];
    assert first + tail[1..] == PrintHunk(h) + tail;
    HeadersClose(rest);
    BareHunkIsRefused(st, h, tail[0]);
    ErrorStays(st, first, tail[1..]);
  }

  /** The unterminated end marker is refused as it would be as a line. */
  lemma FinishRefusesAlike(st: ParserState)
    requires st.lineBuffer == "" && HunkError(RunLine(st, END_PATCH).error)
    ensures Finish(st.(lineBuffer := END_PATCH)).error == RunLine(st, END_PATCH).error
  {
    TrimOfInk(END_PATCH);
    assert END_PATCH != BEGIN_PATCH;
    var taken := st.(lineNumber := st.lineNumber + 1);
    assert st.(lineBuffer := END_PATCH).(lineBuffer := "", lineNumber := st.lineNumber + 1) == taken;
    assert FinishTaken(taken, END_PATCH).error == ProcessLine(taken, END_PATCH).error;
  }

  lemma FinishRefuses(seen: seq<string>, error: ParseError)
    requires NewlineFree(seen) && error.InvalidHunk?
    requires ErrorOf(INITIAL, StripCrs(seen) + [END_PATCH]) == Some(error)
    ensures ParseLines(seen + [END_PATCH]) == Invalid(error)
  {
    var lines := StripCrs(seen);
    var r := RunLines(INITIAL, lines);
    PushLines(INITIAL, seen, END_PATCH);
    if r.error.Some? {
      ErrorStays(INITIAL, lines, [END_PATCH]);
    } else {
      RunLinesAppend(INITIAL, lines, [END_PATCH]);
      ErrorOfOne(r.state, END_PATCH, []);
      RunLinesEmptiesBuffer(INITIAL, lines);
      FinishRefusesAlike(r.state);
    }
  }

  /** What the patch text is up to its end marker, and what the parser makes of it. */
  lemma RefusedPrint(d: PatchDoc, error: ParseError)
    requires Written(d) && error.InvalidHunk?
    requires ErrorOf(INITIAL, PrintPatch(d)) == Some(error)
    ensures ParsePatch(PrintText(d)) == Invalid(error)
  {
    var body := [BEGIN_PATCH] + PrintEnvironment(d.environmentId) + PrintHunks(d.hunks);
    assert PrintPatch(d) == body + [END_PATCH];
    HalfGuardedEnd(body);
    assert NewlineFree(body) by {
      PrintedPatchIsNewlineFree(d);
      assert forall l | l in body :: l in PrintPatch(d);
    }
    GuardedLinesAreRestored(body);
    FinishRefuses(HalfGuarded(body), error);
    PrintedLinesAreBounded(d);
  }

  lemma BareUpdatesAreRefused(d: PatchDoc)
    requires Written(d) && !Printable(d)
    ensures HunkError(ErrorOf(INITIAL, PrintPatch(d)))
  {
    var preamble := [BEGIN_PATCH] + PrintEnvironment(d.environmentId);
    RunPreamble(d.environmentId);
    HunksAreRefused(ParserState("", StartedPatch, [], d.environmentId, |preamble|), d.hunks);
    RunLinesAppend(INITIAL, preamble, PrintHunks(d.hunks) + [END_PATCH]);
    assert preamble + (PrintHunks(d.hunks) + [END_PATCH]) == PrintPatch(d);
  }

  /** Main: with clean names and lines without newlines, what the documented grammar lets one
      write is accepted exactly when every update has a chunk and every chunk a line. Otherwise a
      hunk is refused. */
  lemma WrittenPatchIsAcceptedExactlyWhen(d: PatchDoc)
    requires Written(d)
    ensures ParsePatch(PrintText(d)).Parsed? <==>
      forall h | h in d.hunks && h.Update? :: h.chunks != [] && forall c | c in h.chunks :: c.body != []
    ensures var r := ParsePatch(PrintText(d)); r.Invalid? ==> r.error.InvalidHunk?
  {
    PrintableExactlyWhen(d);
    if Printable(d) {
      PrintThenParse(d);
    } else {
      BareUpdatesAreRefused(d);
      RefusedPrint(d, ErrorOf(INITIAL, PrintPatch(d)).value);
    }
  }

  lemma PrintableExactlyWhen(d: PatchDoc)
    requires Written(d)
    ensures Printable(d) <==>
      forall h | h in d.hunks && h.Update? :: h.chunks != [] && forall c | c in h.chunks :: c.body != []
  {
    forall h | h in d.hunks
      ensures PrintableHunk(h) <==> (h.Update? ==> h.chunks != [] && forall c | c in h.chunks :: c.body != [])
    {
      assert WrittenHunk(h);
    }
  }

  /** The documented update without a change, with or without a move, is refused at its header. */
  lemma UpdateWithoutAChangeIsRefused(path: string, moveTo: Option<string>)
    requires CleanName(path) && (moveTo.Some? ==> CleanName(moveTo.value))
    ensures ParsePatch(PrintText(PatchDoc(None, [Update(path, moveTo, [])])))
         == Invalid(InvalidHunk(EmptyUpdateHunk, 2))
  {
    var h := Update(path, moveTo, []);
    var begun := ParserState("", StartedPatch, [], None, 1);
    var lines := [UPDATE_FILE + path] + PrintMove(moveTo) + [END_PATCH];
    assert [h][1..] == [] && PrintHunks([h]) == PrintHunk(h) + [];
    assert [BEGIN_PATCH] + lines == PrintPatch(PatchDoc(None, [h]));
    assert [BEGIN_PATCH] + PrintEnvironment(None) == [BEGIN_PATCH];
    RunPreamble(None);
    UpdateWithoutChunksIsRefused(begun, path, moveTo, END_PATCH);
    RunLinesAppend(INITIAL, [BEGIN_PATCH], lines);
    RefusedPrint(PatchDoc(None, [h]), InvalidHunk(EmptyUpdateHunk, 2));
  }
}
