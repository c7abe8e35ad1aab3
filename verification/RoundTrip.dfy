/** Reading back what the printer wrote: line by line, from any state in which a hunk may
    start. */
module RoundTrip {
  import opened Text
  import opened Patch
  import opened ParserSteps
  import opened WellFormed
  import opened PatchPrinter

  /** Complete lines, one after the other. */
  function RunLines(st: ParserState, lines: seq<string>): Step
    decreases |lines|
  {
    if lines == [] then Step(st, None)
    else
      var r := RunLine(st, lines[0]);
      if r.error.Some? then r else RunLines(r.state, lines[1..])
  }

  function RunLine(st: ParserState, line: string): Step {
    ProcessLine(st.(lineBuffer := "", lineNumber := st.lineNumber + 1), line)
  }

  lemma LineBufferStaysEmpty(st: ParserState, line: string)
    ensures RunLine(st, line).state.lineBuffer == ""
  {
  }

  lemma {:induction false} RunLinesAppend(st: ParserState, a: seq<string>, b: seq<string>)
    requires RunLines(st, a).error.None?
    ensures RunLines(st, a + b) == RunLines(RunLines(st, a).state, b)
    decreases |a|
  {
    if a == [] {
      assert a + b == b;
    } else {
      assert (a + b)[1..] == a[1..] + b;
      RunLinesAppend(RunLine(st, a[0]).state, a[1..], b);
    }
  }

  lemma {:induction false} ErrorsEndTheRun(st: ParserState, a: seq<string>, b: seq<string>)
    requires RunLines(st, a).error.Some?
    ensures RunLines(st, a + b) == RunLines(st, a)
    decreases |a|
  {
    assert (a + b)[0] == a[0] && (a + b)[1..] == a[1..] + b;
    if RunLine(st, a[0]).error.None? { ErrorsEndTheRun(RunLine(st, a[0]).state, a[1..], b); }
  }

  /** `lines` are accepted and leave `hunks` and `mode` behind. */
  predicate Yields(st: ParserState, lines: seq<string>, hunks: seq<Hunk>, mode: Mode) {
    RunLines(st, lines) == Step(Moved(st, |lines|, hunks, mode), None)
  }

  function Moved(st: ParserState, n: nat, hunks: seq<Hunk>, mode: Mode): ParserState {
    st.(hunks := hunks, mode := mode, lineNumber := st.lineNumber + n)
  }

  lemma YieldsOne(st: ParserState, line: string, hunks: seq<Hunk>, mode: Mode)
    requires st.lineBuffer == "" && RunLine(st, line) == Step(Moved(st, 1, hunks, mode), None)
    ensures Yields(st, [line], hunks, mode)
  {
    assert [line][1..] == [];
  }

  lemma YieldsThen(st: ParserState, a: seq<string>, b: seq<string>, h1: seq<Hunk>, m1: Mode, h2: seq<Hunk>, m2: Mode)
    requires Yields(st, a, h1, m1) && Yields(Moved(st, |a|, h1, m1), b, h2, m2)
    ensures Yields(st, a + b, h2, m2)
  {
    RunLinesAppend(st, a, b);
  }

  // ---------------------------------------------------------------------------
  // Hunk headers
  // ---------------------------------------------------------------------------

  /** A new hunk or the end of the patch may come next. */
  predicate Ready(st: ParserState) {
    && st.lineBuffer == ""
    && !st.mode.NotStarted? && !st.mode.EndedPatch?
    && (st.hunks != [] && Last(st.hunks).UpdateFile? ==>
          Last(st.hunks).chunks != [] && !Last(Last(st.hunks).chunks).IsEmpty())
  }

  lemma MarkedName(marker: string, name: string)
    requires marker != "" && CleanName(name)
    ensures EndsInk(marker + name)
    ensures '\n' in marker + name ==> '\n' in marker
    ensures (marker + name)[|marker|..] == name
    ensures StartsInk(marker) ==> Trim(marker + name) == marker + name
    ensures TrimEnd(marker + name) == marker + name
  {
    var t := marker + name;
    assert t[|t| - 1] == name[|name| - 1];
    if StartsInk(marker) {
      assert t[0] == marker[0];
      TrimOfInk(t);
    }
  }

  lemma HeaderLine(st: ParserState, line: string, next: ParserState)
    requires !st.mode.NotStarted? && !st.mode.EndedPatch?
    requires Trim(line) == line && TrimEnd(line) == line
    requires HandleHeader(st.(lineBuffer := "", lineNumber := st.lineNumber + 1), line) == Done(next)
    ensures RunLine(st, line) == Step(next, None)
  {
  }

  lemma AddHeader(st: ParserState, path: string)
    requires Ready(st) && CleanName(path)
    ensures Yields(st, [ADD_FILE + path], st.hunks + [AddFile(path, "")], AddingFile)
  {
    MarkedName(ADD_FILE, path);
    var line := ADD_FILE + path;
    assert line[4] == 'A' && END_PATCH[4] == 'E' && ENVIRONMENT_ID[4] == 'E';
    HeaderLine(st, line, Moved(st, 1, st.hunks + [AddFile(path, "")], AddingFile));
    YieldsOne(st, line, st.hunks + [AddFile(path, "")], AddingFile);
  }

  lemma DeleteHeader(st: ParserState, path: string)
    requires Ready(st) && CleanName(path)
    ensures Yields(st, [DELETE_FILE + path], st.hunks + [DeleteFile(path)], DeletingFile)
  {
    MarkedName(DELETE_FILE, path);
    var line := DELETE_FILE + path;
    assert line[4] == 'D' && END_PATCH[4] == 'E' && ENVIRONMENT_ID[4] == 'E' && ADD_FILE[4] == 'A';
    HeaderLine(st, line, Moved(st, 1, st.hunks + [DeleteFile(path)], DeletingFile));
    YieldsOne(st, line, st.hunks + [DeleteFile(path)], DeletingFile);
  }

  lemma UpdateHeader(st: ParserState, path: string)
    requires Ready(st) && CleanName(path)
    ensures Yields(st, [UPDATE_FILE + path], st.hunks + [UpdateFile(path, None, [])], UpdatingFile(st.lineNumber + 1))
  {
    MarkedName(UPDATE_FILE, path);
    var line := UPDATE_FILE + path;
    assert line[4] == 'U' && END_PATCH[4] == 'E' && ENVIRONMENT_ID[4] == 'E' && ADD_FILE[4] == 'A'
        && DELETE_FILE[4] == 'D';
    var hunks := st.hunks + [UpdateFile(path, None, [])];
    HeaderLine(st, line, Moved(st, 1, hunks, UpdatingFile(st.lineNumber + 1)));
    YieldsOne(st, line, hunks, UpdatingFile(st.lineNumber + 1));
  }

  lemma EnvironmentHeader(st: ParserState, id: string)
    requires st.lineBuffer == "" && st.mode == StartedPatch && st.environmentId.None?
    requires CleanName(id) && StartsInk(id)
    ensures RunLine(st, ENVIRONMENT_ID + " " + id) ==
            Step(st.(environmentId := Some(id), lineNumber := st.lineNumber + 1), None)
  {
    MarkedName(ENVIRONMENT_ID + " ", id);
    var line := ENVIRONMENT_ID + " " + id;
    assert line[|ENVIRONMENT_ID|..] == " " + id;
    assert Trim(" " + id) == id by {
      MarkedName(" ", id);
      assert (" " + id)[1..] == id;
      TrimOfInk(id);
    }
  }

  lemma EndHeader(st: ParserState)
    requires Ready(st)
    ensures Yields(st, [END_PATCH], st.hunks, EndedPatch)
  {
    TrimOfInk(END_PATCH);
    assert ENVIRONMENT_ID[6] == 'v' && END_PATCH[6] == 'd';
    HeaderLine(st, END_PATCH, Moved(st, 1, st.hunks, EndedPatch));
    YieldsOne(st, END_PATCH, st.hunks, EndedPatch);
  }

  // ---------------------------------------------------------------------------
  // Added files
  // ---------------------------------------------------------------------------

  /** A line that begins as neither marker does. */
  lemma NotAHeaderLine(st: ParserState, line: string)
    requires line == "" || line[0] != '*'
    ensures HandleHeader(st, line) == NotAHeader
  {
    assert ENVIRONMENT_ID[0] == '*' && END_PATCH[0] == '*' && ADD_FILE[0] == '*' && DELETE_FILE[0] == '*'
        && UPDATE_FILE[0] == '*';
  }

  lemma AddedLine(st: ParserState, l: string)
    requires st.lineBuffer == "" && st.mode == AddingFile && st.hunks != [] && Last(st.hunks).AddFile?
    ensures var h := Last(st.hunks);
      Yields(st, ["+" + l], DropLast(st.hunks) + [h.(contents := h.contents + l + "\n")], AddingFile)
  {
    var line := "+" + l;
    var h := Last(st.hunks);
    assert line[1..] == l;
    TrimEndKeepsHead(line);
    var taken := st.(lineNumber := st.lineNumber + 1);
    NotAHeaderLine(taken, Trim(line));
    var hunks := DropLast(st.hunks) + [h.(contents := h.contents + l + "\n")];
    assert ProcessLine(taken, line) == ProcessAddedLine(taken, line);
    YieldsOne(st, line, hunks, AddingFile);
  }

  lemma {:induction false} AddedLines(st: ParserState, pre: seq<Hunk>, path: string, done: string, lines: seq<string>)
    requires st.lineBuffer == "" && st.mode == AddingFile && st.hunks == pre + [AddFile(path, done)]
    ensures Yields(st, PrintAdded(lines), pre + [AddFile(path, done + ContentsOf(lines))], AddingFile)
    decreases |lines|
  {
    if lines == [] {
      assert done + ContentsOf(lines) == done;
    } else {
      var grown := done + lines[0] + "\n";
      var hunks := pre + [AddFile(path, grown)];
      assert grown + ContentsOf(lines[1..]) == done + ContentsOf(lines);
      assert Yields(st, ["+" + lines[0]], hunks, AddingFile) by {
        assert DropLast(st.hunks) == pre;
        AddedLine(st, lines[0]);
      }
      AddedLines(Moved(st, 1, hunks, AddingFile), pre, path, grown, lines[1..]);
      YieldsThen(st, ["+" + lines[0]], PrintAdded(lines[1..]), hunks, AddingFile,
                 pre + [AddFile(path, done + ContentsOf(lines))], AddingFile);
    }
  }

  // ---------------------------------------------------------------------------
  // Updated files
  // ---------------------------------------------------------------------------

  /** The state of the parser inside an update hunk. */
  predicate Updating(st: ParserState, pre: seq<Hunk>, h: Hunk) {
    st.lineBuffer == "" && st.mode.UpdatingFile? && h.UpdateFile? && st.hunks == pre + [h]
  }

  /** A line that is no header and that `ContinueUpdate` accepts. */
  lemma UpdateLine(st: ParserState, pre: seq<Hunk>, h: Hunk, line: string, k: Hunk)
    requires Updating(st, pre, h)
    requires HandleHeader(st.(lineNumber := st.lineNumber + 1), TrimEnd(line)) == NotAHeader
    requires ContinueUpdate(h, line) == Grown(k)
    ensures Yields(st, [line], pre + [k], st.mode)
  {
    var taken := st.(lineNumber := st.lineNumber + 1);
    assert DropLast(st.hunks) == pre;
    assert ProcessLine(taken, line) == ProcessUpdateLine(taken, line);
    YieldsOne(st, line, pre + [k], st.mode);
  }

  function GrowChunk(c: Chunk, body: seq<BodyLine>): Chunk {
    c.(oldLines := c.oldLines + OldLines(body), newLines := c.newLines + NewLines(body))
  }

  predicate NoMarker(mark: string) {
    !(MOVE_TO <= mark) && mark != EOF_MARKER && !(CHANGE_CONTEXT <= mark) && mark != EMPTY_CHANGE_CONTEXT
  }

  lemma BodyLineIsNoMarker(b: BodyLine)
    ensures var mark := TrimEnd(PrintBodyLine(b)); NoMarker(mark) && (mark == "" || mark[0] != '*')
  {
    var line := PrintBodyLine(b);
    TrimEndShape(line);
    assert TrimEnd(line) == "" || TrimEnd(line)[0] == line[0];
    assert MOVE_TO[0] == '*' && EOF_MARKER[0] == '*' && CHANGE_CONTEXT[0] == '@' && EMPTY_CHANGE_CONTEXT[0] == '@';
  }

  lemma OneBodyLineMeans(b: BodyLine)
    ensures OldLines([b]) == if b.Insert? then [] else [if b.Bare? then "" else b.text]
    ensures NewLines([b]) == if b.Remove? then [] else [if b.Bare? then "" else b.text]
  {
    assert [b][1..] == [];
  }

  lemma OneBodyLine(h: Hunk, b: BodyLine)
    requires h.UpdateFile? && (h.chunks != [] ==> !Last(h.chunks).isEndOfFile)
    ensures var line := PrintBodyLine(b);
      && (TrimEnd(line) == "" || TrimEnd(line)[0] != '*')
      && ContinueUpdate(h, line) == Grown(h.(chunks := Extend(h.chunks, OldLines([b]), NewLines([b]))))
  {
    OneBodyLineMeans(b);
    BodyLineIsNoMarker(b);
    assert b != Bare ==> PrintBodyLine(b)[1..] == b.text;
  }

  lemma BodyHead(body: seq<BodyLine>)
    requires body != []
    ensures OldLines(body) == OldLines([body[0]]) + OldLines(body[1..])
    ensures NewLines(body) == NewLines([body[0]]) + NewLines(body[1..])
  {
    OneBodyLineMeans(body[0]);
  }

  lemma GrowChunkTwice(c: Chunk, body: seq<BodyLine>)
    requires body != []
    ensures GrowChunk(GrowChunk(c, [body[0]]), body[1..]) == GrowChunk(c, body)
  {
    BodyHead(body);
    var olds, news := OldLines([body[0]]), NewLines([body[0]]);
    assert c.oldLines + olds + OldLines(body[1..]) == c.oldLines + (olds + OldLines(body[1..]));
    assert c.newLines + news + NewLines(body[1..]) == c.newLines + (news + NewLines(body[1..]));
  }

  /** `c` is the last chunk of `h`, or the chunk that the first line will open. */
  predicate Filling(h: Hunk, cs: seq<Chunk>, c: Chunk) {
    && h.UpdateFile? && !c.isEndOfFile
    && (h.chunks == cs + [c] || (h.chunks == [] && cs == [] && c == NewChunk(None)))
  }

  lemma FirstBodyLine(st: ParserState, pre: seq<Hunk>, h: Hunk, cs: seq<Chunk>, c: Chunk, b: BodyLine)
    requires Updating(st, pre, h) && Filling(h, cs, c)
    ensures Yields(st, [PrintBodyLine(b)], pre + [h.(chunks := cs + [GrowChunk(c, [b])])], st.mode)
  {
    var line := PrintBodyLine(b);
    assert h.chunks != [] ==> DropLast(h.chunks) == cs;
    OneBodyLine(h, b);
    NotAHeaderLine(st.(lineNumber := st.lineNumber + 1), TrimEnd(line));
    assert Extend(h.chunks, OldLines([b]), NewLines([b])) == cs + [GrowChunk(c, [b])];
    UpdateLine(st, pre, h, line, h.(chunks := cs + [GrowChunk(c, [b])]));
  }

  lemma {:induction false} BodyLines(
    st: ParserState, pre: seq<Hunk>, h: Hunk, cs: seq<Chunk>, c: Chunk, body: seq<BodyLine>)
    requires Updating(st, pre, h) && Filling(h, cs, c)
    requires body == [] ==> h.chunks != []
    ensures Yields(st, PrintBody(body), pre + [h.(chunks := cs + [GrowChunk(c, body)])], st.mode)
    decreases |body|
  {
    if body == [] {
      assert GrowChunk(c, body) == c;
      assert h == h.(chunks := cs + [c]);
    } else {
      var d := GrowChunk(c, [body[0]]);
      var k := h.(chunks := cs + [d]);
      var hunks := pre + [h.(chunks := cs + [GrowChunk(c, body)])];
      FirstBodyLine(st, pre, h, cs, c, body[0]);
      BodyLines(Moved(st, 1, pre + [k], st.mode), pre, k, cs, d, body[1..]);
      GrowChunkTwice(c, body);
      YieldsThen(st, [PrintBodyLine(body[0])], PrintBody(body[1..]), pre + [k], st.mode, hunks, st.mode);
    }
  }

  /** A chunk may begin here: the chunks so far end in one that has lines. */
  predicate ChunkMayBegin(h: Hunk) {
    h.UpdateFile? && (h.chunks != [] ==> !Last(h.chunks).IsEmpty())
  }

  lemma ContextLine(st: ParserState, pre: seq<Hunk>, h: Hunk, header: Header)
    requires Updating(st, pre, h) && ChunkMayBegin(h) && !header.Implicit?
    requires header.At? ==> CleanName(header.context)
    ensures Yields(st, PrintHeader(header), pre + [h.(chunks := h.chunks + [NewChunk(ContextOf(header))])], st.mode)
  {
    var line := PrintHeader(header)[0];
    if header.At? {
      MarkedName(CHANGE_CONTEXT, header.context);
      assert |line| > 2;
    } else {
      TrimOfInk(EMPTY_CHANGE_CONTEXT);
    }
    assert line[0] == '@' && MOVE_TO[0] == '*';
    NotAHeaderLine(st.(lineNumber := st.lineNumber + 1), line);
    UpdateLine(st, pre, h, line, h.(chunks := h.chunks + [NewChunk(ContextOf(header))]));
  }

  lemma EofLine(st: ParserState, pre: seq<Hunk>, h: Hunk, cs: seq<Chunk>, c: Chunk)
    requires Updating(st, pre, h) && h.chunks == cs + [c] && !c.IsEmpty() && !c.isEndOfFile
    ensures Yields(st, [EOF_MARKER], pre + [h.(chunks := cs + [c.(isEndOfFile := true)])], st.mode)
  {
    TrimOfInk(EOF_MARKER);
    assert EOF_MARKER[8] == 'o' && END_PATCH[8] == 'P' && EOF_MARKER[4] == 'E' && ADD_FILE[4] == 'A'
        && DELETE_FILE[4] == 'D' && UPDATE_FILE[4] == 'U' && CHANGE_CONTEXT[0] == '@' && EMPTY_CHANGE_CONTEXT[0] == '@';
    assert DropLast(h.chunks) == cs;
    UpdateLine(st, pre, h, EOF_MARKER, h.(chunks := cs + [c.(isEndOfFile := true)]));
  }

  lemma {:induction false} BodyMakesChunk(body: seq<BodyLine>)
    ensures body != [] ==> OldLines(body) != [] || NewLines(body) != []
  {
    if body != [] { assert body[0].Insert? ==> NewLines(body) != []; }
  }

  /** One printed chunk. */
  lemma OneChunk(st: ParserState, pre: seq<Hunk>, h: Hunk, doc: ChunkDoc)
    requires Updating(st, pre, h) && ChunkMayBegin(h) && PrintableChunk(doc)
    requires doc.header.Implicit? ==> h.chunks == []
    ensures Yields(st, PrintChunk(doc), pre + [h.(chunks := h.chunks + [ChunkOf(doc)])], st.mode)
  {
    var c := NewChunk(ContextOf(doc.header));
    var begun := if doc.header.Implicit? then h else h.(chunks := h.chunks + [c]);
    var n := |PrintHeader(doc.header)|;
    if doc.header.Implicit? {
      assert Yields(st, [], pre + [h], st.mode);
    } else {
      ContextLine(st, pre, h, doc.header);
    }
    var st1 := Moved(st, n, pre + [begun], st.mode);
    BodyLines(st1, pre, begun, h.chunks, c, doc.body);
    var d := GrowChunk(c, doc.body);
    var filled := h.(chunks := h.chunks + [d]);
    assert d == Chunk(ContextOf(doc.header), OldLines(doc.body), NewLines(doc.body), false);
    YieldsThen(st, PrintHeader(doc.header), PrintBody(doc.body), pre + [begun], st.mode, pre + [filled], st.mode);
    if doc.atEndOfFile {
      BodyMakesChunk(doc.body);
      var m := n + |PrintBody(doc.body)|;
      EofLine(Moved(st, m, pre + [filled], st.mode), pre, filled, h.chunks, d);
      YieldsThen(st, PrintHeader(doc.header) + PrintBody(doc.body), [EOF_MARKER], pre + [filled], st.mode,
                 pre + [h.(chunks := h.chunks + [ChunkOf(doc)])], st.mode);
    } else {
      assert PrintChunk(doc) == PrintHeader(doc.header) + PrintBody(doc.body);
    }
  }

  lemma {:induction false} AllChunks(st: ParserState, pre: seq<Hunk>, h: Hunk, docs: seq<ChunkDoc>)
    requires Updating(st, pre, h) && ChunkMayBegin(h) && PrintableChunks(docs)
    requires docs != [] && docs[0].header.Implicit? ==> h.chunks == []
    ensures Yields(st, PrintChunks(docs), pre + [h.(chunks := h.chunks + ChunksOf(docs))], st.mode)
    decreases |docs|
  {
    if docs == [] {
      assert h == h.(chunks := h.chunks + ChunksOf(docs));
    } else {
      assert PrintableChunk(docs[0]);
      OneChunk(st, pre, h, docs[0]);
      BodyMakesChunk(docs[0].body);
      var k := h.(chunks := h.chunks + [ChunkOf(docs[0])]);
      var n := |PrintChunk(docs[0])|;
      assert PrintableChunks(docs[1..]) by {
        forall i | 0 < i < |docs[1..]| ensures !docs[1..][i].header.Implicit? { assert !docs[i + 1].header.Implicit?; }
      }
      assert |docs| > 1 ==> !docs[1].header.Implicit?;
      AllChunks(Moved(st, n, pre + [k], st.mode), pre, k, docs[1..]);
      assert k.chunks + ChunksOf(docs[1..]) == h.chunks + ChunksOf(docs);
      YieldsThen(st, PrintChunk(docs[0]), PrintChunks(docs[1..]), pre + [k], st.mode,
                 pre + [h.(chunks := h.chunks + ChunksOf(docs))], st.mode);
    }
  }

  lemma MoveLine(st: ParserState, pre: seq<Hunk>, path: string, moveTo: Option<string>)
    requires Updating(st, pre, UpdateFile(path, None, []))
    requires moveTo.Some? ==> CleanName(moveTo.value)
    ensures Yields(st, PrintMove(moveTo), pre + [UpdateFile(path, moveTo, [])], st.mode)
  {
    if moveTo.Some? {
      var line := MOVE_TO + moveTo.value;
      MarkedName(MOVE_TO, moveTo.value);
      assert line[4] == 'M' && END_PATCH[4] == 'E';
      assert ADD_FILE[4] == 'A' && DELETE_FILE[4] == 'D' && UPDATE_FILE[4] == 'U';
      UpdateLine(st, pre, UpdateFile(path, None, []), line, UpdateFile(path, moveTo, []));
    }
  }

  // ---------------------------------------------------------------------------
  // Hunks and patches
  // ---------------------------------------------------------------------------

  function ModeAfter(st: ParserState, h: HunkDoc): Mode {
    match h
    case Add(_, _) => AddingFile
    case Delete(_) => DeletingFile
    case Update(_, _, _) => UpdatingFile(st.lineNumber + 1)
  }

  lemma {:induction false} ChunksHaveLines(docs: seq<ChunkDoc>)
    requires docs != [] && forall c | c in docs :: PrintableChunk(c)
    ensures !Last(ChunksOf(docs)).IsEmpty()
  {
    assert PrintableChunk(docs[0]);
    BodyMakesChunk(docs[0].body);
    if |docs| > 1 {
      ChunksHaveLines(docs[1..]);
    }
  }

  lemma OneHunk(st: ParserState, h: HunkDoc)
    requires Ready(st) && PrintableHunk(h)
    ensures Yields(st, PrintHunk(h), st.hunks + [HunkOf(h)], ModeAfter(st, h))
    ensures Ready(Moved(st, |PrintHunk(h)|, st.hunks + [HunkOf(h)], ModeAfter(st, h)))
  {
    OneHunkYields(st, h);
    ReadyAfterHunk(st, h);
  }

  lemma OneHunkYields(st: ParserState, h: HunkDoc)
    requires Ready(st) && PrintableHunk(h)
    ensures Yields(st, PrintHunk(h), st.hunks + [HunkOf(h)], ModeAfter(st, h))
  {
    if h.Add? {
      OneAddedFile(st, h);
    } else if h.Delete? {
      DeleteHeader(st, h.path);
    } else {
      OneUpdatedFile(st, h);
    }
  }

  lemma ReadyAfterHunk(st: ParserState, h: HunkDoc)
    requires Ready(st) && PrintableHunk(h)
    ensures Ready(Moved(st, |PrintHunk(h)|, st.hunks + [HunkOf(h)], ModeAfter(st, h)))
  {
    var hunks := st.hunks + [HunkOf(h)];
    assert Last(hunks) == HunkOf(h);
    if h.Update? { ChunksHaveLines(h.chunks); }
  }

  lemma OneAddedFile(st: ParserState, h: HunkDoc)
    requires Ready(st) && PrintableHunk(h) && h.Add?
    ensures Yields(st, PrintHunk(h), st.hunks + [HunkOf(h)], ModeAfter(st, h))
  {
    var path, lines := h.path, h.lines;
    var hunks, all := st.hunks + [AddFile(path, "")], st.hunks + [AddFile(path, ContentsOf(lines))];
    assert "" + ContentsOf(lines) == ContentsOf(lines);
    AddHeader(st, path);
    AddedLines(Moved(st, 1, hunks, AddingFile), st.hunks, path, "", lines);
    YieldsThen(st, [ADD_FILE + path], PrintAdded(lines), hunks, AddingFile, all, AddingFile);
  }

  /** The header of an update and its move. */
  lemma UpdateHead(st: ParserState, path: string, moveTo: Option<string>)
    requires Ready(st) && CleanName(path) && (moveTo.Some? ==> CleanName(moveTo.value))
    ensures Yields(st, [UPDATE_FILE + path] + PrintMove(moveTo), st.hunks + [UpdateFile(path, moveTo, [])],
                   UpdatingFile(st.lineNumber + 1))
  {
    var mode := UpdatingFile(st.lineNumber + 1);
    var h0, h1 := UpdateFile(path, None, []), UpdateFile(path, moveTo, []);
    UpdateHeader(st, path);
    MoveLine(Moved(st, 1, st.hunks + [h0], mode), st.hunks, path, moveTo);
    YieldsThen(st, [UPDATE_FILE + path], PrintMove(moveTo), st.hunks + [h0], mode, st.hunks + [h1], mode);
  }

  lemma OneUpdatedFile(st: ParserState, h: HunkDoc)
    requires Ready(st) && PrintableHunk(h) && h.Update?
    ensures Yields(st, PrintHunk(h), st.hunks + [HunkOf(h)], ModeAfter(st, h))
  {
    var path, moveTo, chunks := h.path, h.moveTo, h.chunks;
    var mode, h1 := UpdatingFile(st.lineNumber + 1), UpdateFile(path, moveTo, []);
    var head := [UPDATE_FILE + path] + PrintMove(moveTo);
    assert [] + ChunksOf(chunks) == ChunksOf(chunks);
    UpdateHead(st, path, moveTo);
    AllChunks(Moved(st, |head|, st.hunks + [h1], mode), st.hunks, h1, chunks);
    YieldsThen(st, head, PrintChunks(chunks), st.hunks + [h1], mode,
               st.hunks + [UpdateFile(path, moveTo, ChunksOf(chunks))], mode);
  }

  /** `lines` are accepted, leave `hunks` behind, and something new may follow. */
  predicate Completes(st: ParserState, lines: seq<string>, hunks: seq<Hunk>, mode: Mode) {
    Yields(st, lines, hunks, mode) && Ready(Moved(st, |lines|, hunks, mode))
  }

  lemma CompletesThen(st: ParserState, a: seq<string>, b: seq<string>, h1: seq<Hunk>, m1: Mode, h2: seq<Hunk>, m2: Mode)
    requires Completes(st, a, h1, m1) && Completes(Moved(st, |a|, h1, m1), b, h2, m2)
    ensures Completes(st, a + b, h2, m2)
  {
    YieldsThen(st, a, b, h1, m1, h2, m2);
    assert Moved(Moved(st, |a|, h1, m1), |b|, h2, m2) == Moved(st, |a + b|, h2, m2);
  }

  lemma HunkCompletes(st: ParserState, h: HunkDoc)
    requires Ready(st) && PrintableHunk(h)
    ensures Completes(st, PrintHunk(h), st.hunks + [HunkOf(h)], ModeAfter(st, h))
  {
    OneHunk(st, h);
  }

  lemma {:induction false} AllHunks(st: ParserState, hs: seq<HunkDoc>) returns (mode: Mode)
    requires Ready(st) && forall h | h in hs :: PrintableHunk(h)
    ensures Completes(st, PrintHunks(hs), st.hunks + HunksOf(hs), mode)
    decreases |hs|
  {
    if hs == [] {
      mode := st.mode;
      assert st.hunks + HunksOf(hs) == st.hunks;
    } else {
      var a, b := PrintHunk(hs[0]), PrintHunks(hs[1..]);
      var hunks, mode1 := st.hunks + [HunkOf(hs[0])], ModeAfter(st, hs[0]);
      var all := hunks + HunksOf(hs[1..]);
      assert PrintHunks(hs) == a + b && all == st.hunks + HunksOf(hs);
      assert Completes(st, a, hunks, mode1) by { HunkCompletes(st, hs[0]); }
      mode := AllHunks(Moved(st, |a|, hunks, mode1), hs[1..]);
      CompletesThen(st, a, b, hunks, mode1, all, mode);
    }
  }
}
