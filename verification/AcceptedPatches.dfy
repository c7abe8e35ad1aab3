/** The converse of the round trip, and with it the exact language of the parser: a patch is
    accepted exactly when its normal form is the print of a document, and then yields exactly that
    document's hunks. */
module AcceptedPatches {
  import opened Text
  import opened Patch
  import opened ParserSteps
  import opened WellFormed
  import opened PatchPrinter
  import opened RoundTrip
  import opened PatchParser
  import opened NormalForm
  import Heredoc

  // ---------------------------------------------------------------------------
  // Documents under construction
  // ---------------------------------------------------------------------------

  /** A chunk, perhaps with only its marker so far. */
  predicate ChunkBegun(c: ChunkDoc) {
    WrittenChunk(c) && (c.body == [] ==> !c.atEndOfFile)
  }

  predicate ChunksBegun(cs: seq<ChunkDoc>) {
    && (forall c | c in cs :: ChunkBegun(c))
    && (forall i | 0 < i < |cs| :: !cs[i].header.Implicit?)
    && (cs != [] ==> forall c | c in DropLast(cs) :: c.body != [])
  }

  predicate Begun(h: HunkDoc) {
    CleanName(h.path) &&
    match h
    case Add(_, lines) => NewlineFree(lines)
    case Delete(_) => true
    case Update(_, moveTo, chunks) => (moveTo.Some? ==> CleanName(moveTo.value)) && ChunksBegun(chunks)
  }

  predicate AllPrintable(hs: seq<HunkDoc>) {
    forall h | h in hs :: PrintableHunk(h)
  }

  /** `docs` is what the parser has read so far. */
  predicate Represents(st: ParserState, docs: seq<HunkDoc>) {
    && HasPlace(st) && st.hunks == HunksOf(docs)
    && (st.environmentId.Some? ==> CleanName(st.environmentId.value) && StartsInk(st.environmentId.value))
    && (docs != [] ==> AllPrintable(DropLast(docs)) && Begun(Last(docs)))
    && match st.mode
       case NotStarted => docs == [] && st.environmentId.None?
       case StartedPatch => docs == []
       case AddingFile => docs != [] && Last(docs).Add?
       case DeletingFile => docs != [] && Last(docs).Delete?
       case UpdatingFile(_) => docs != [] && Last(docs).Update?
       case EndedPatch => AllPrintable(docs)
  }

  function PrintedSoFar(st: ParserState, docs: seq<HunkDoc>): seq<string> {
    (if st.mode.NotStarted? then [] else [BEGIN_PATCH]) + PrintEnvironment(st.environmentId) + PrintHunks(docs)
    + if st.mode.EndedPatch? then [END_PATCH] else []
  }

  // ---------------------------------------------------------------------------
  // Printing and meaning grow at the end
  // ---------------------------------------------------------------------------

  lemma Appended(start: seq<string>, p: seq<string>, q: seq<string>, mid: seq<string>, end: seq<string>)
    requires mid == start + p && end == mid + q
    ensures end == start + (p + q)
  {
  }

  lemma {:induction false} HunksSnoc(hs: seq<HunkDoc>, h: HunkDoc)
    ensures PrintHunks(hs + [h]) == PrintHunks(hs) + PrintHunk(h)
    ensures HunksOf(hs + [h]) == HunksOf(hs) + [HunkOf(h)]
  {
    if hs == [] {
      assert [h][1..] == [];
    } else {
      assert (hs + [h])[1..] == hs[1..] + [h];
      HunksSnoc(hs[1..], h);
    }
  }

  lemma {:induction false} PrintChunksSnoc(cs: seq<ChunkDoc>, c: ChunkDoc)
    ensures PrintChunks(cs + [c]) == PrintChunks(cs) + PrintChunk(c)
  {
    var all := cs + [c];
    if cs == [] {
      assert all == [c] && all[1..] == [];
    } else {
      assert all[0] == cs[0] && all[1..] == cs[1..] + [c];
      PrintChunksSnoc(cs[1..], c);
      var printed := PrintChunks(cs);
      Appended(PrintChunk(cs[0]), PrintChunks(cs[1..]), PrintChunk(c), printed, printed + PrintChunk(c));
    }
  }

  lemma {:induction false} ChunksOfSnoc(cs: seq<ChunkDoc>, c: ChunkDoc)
    ensures ChunksOf(cs + [c]) == ChunksOf(cs) + [ChunkOf(c)]
  {
    var all := cs + [c];
    if cs == [] {
      assert all == [c] && all[1..] == [];
    } else {
      assert all[0] == cs[0] && all[1..] == cs[1..] + [c];
      ChunksOfSnoc(cs[1..], c);
    }
  }

  lemma ChunksSnoc(cs: seq<ChunkDoc>, c: ChunkDoc)
    ensures PrintChunks(cs + [c]) == PrintChunks(cs) + PrintChunk(c)
    ensures ChunksOf(cs + [c]) == ChunksOf(cs) + [ChunkOf(c)]
  {
    PrintChunksSnoc(cs, c);
    ChunksOfSnoc(cs, c);
  }

  lemma {:induction false} PrintBodySnoc(body: seq<BodyLine>, b: BodyLine)
    ensures PrintBody(body + [b]) == PrintBody(body) + [PrintBodyLine(b)]
  {
    var all := body + [b];
    if body == [] {
      assert all == [b] && all[1..] == [];
    } else {
      assert all[0] == body[0] && all[1..] == body[1..] + [b];
      PrintBodySnoc(body[1..], b);
    }
  }

  lemma {:induction false} OldLinesSnoc(body: seq<BodyLine>, b: BodyLine)
    ensures OldLines(body + [b]) == OldLines(body) + OldLines([b])
  {
    var all := body + [b];
    if body == [] {
      assert all == [b];
    } else {
      assert all[0] == body[0] && all[1..] == body[1..] + [b];
      var first := OldLines([body[0]]);
      assert first + (OldLines(body[1..]) + OldLines([b])) == first + OldLines(body[1..]) + OldLines([b]);
      OldLinesSnoc(body[1..], b);
      BodyHead(body);
      BodyHead(all);
    }
  }

  lemma {:induction false} NewLinesSnoc(body: seq<BodyLine>, b: BodyLine)
    ensures NewLines(body + [b]) == NewLines(body) + NewLines([b])
  {
    var all := body + [b];
    if body == [] {
      assert all == [b];
    } else {
      assert all[0] == body[0] && all[1..] == body[1..] + [b];
      var first := NewLines([body[0]]);
      assert first + (NewLines(body[1..]) + NewLines([b])) == first + NewLines(body[1..]) + NewLines([b]);
      NewLinesSnoc(body[1..], b);
      BodyHead(body);
      BodyHead(all);
    }
  }

  lemma BodySnoc(body: seq<BodyLine>, b: BodyLine)
    ensures PrintBody(body + [b]) == PrintBody(body) + [PrintBodyLine(b)]
    ensures OldLines(body + [b]) == OldLines(body) + OldLines([b])
    ensures NewLines(body + [b]) == NewLines(body) + NewLines([b])
  {
    PrintBodySnoc(body, b);
    OldLinesSnoc(body, b);
    NewLinesSnoc(body, b);
  }

  lemma {:induction false} AddedSnoc(lines: seq<string>, l: string)
    ensures PrintAdded(lines + [l]) == PrintAdded(lines) + ["+" + l]
    ensures ContentsOf(lines + [l]) == ContentsOf(lines) + l + "\n"
  {
    if lines == [] {
      assert [l][1..] == [];
    } else {
      assert (lines + [l])[1..] == lines[1..] + [l];
      AddedSnoc(lines[1..], l);
    }
  }

  /** The last hunk of the state is that of the last document. */
  lemma LastHunk(docs: seq<HunkDoc>)
    requires docs != []
    ensures HunksOf(docs) == HunksOf(DropLast(docs)) + [HunkOf(Last(docs))]
    ensures PrintHunks(docs) == PrintHunks(DropLast(docs)) + PrintHunk(Last(docs))
  {
    assert docs == DropLast(docs) + [Last(docs)];
    HunksSnoc(DropLast(docs), Last(docs));
  }

  lemma LastChunk(cs: seq<ChunkDoc>)
    requires cs != []
    ensures ChunksOf(cs) == ChunksOf(DropLast(cs)) + [ChunkOf(Last(cs))]
    ensures PrintChunks(cs) == PrintChunks(DropLast(cs)) + PrintChunk(Last(cs))
  {
    assert cs == DropLast(cs) + [Last(cs)];
    ChunksSnoc(DropLast(cs), Last(cs));
  }

  lemma EmptyChunkHasNoBody(c: ChunkDoc)
    ensures ChunkOf(c).IsEmpty() <==> c.body == []
  {
    BodyMakesChunk(c.body);
  }

  // ---------------------------------------------------------------------------
  // One line of an update
  // ---------------------------------------------------------------------------

  function BodyLineOf(raw: string): BodyLine
    requires raw == "" || raw[0] in " +-"
  {
    if raw == "" then Bare
    else if raw[0] == ' ' then Keep(raw[1..])
    else if raw[0] == '+' then BodyLine.Insert(raw[1..])
    else Remove(raw[1..])
  }

  function AddBodyLine(cs: seq<ChunkDoc>, b: BodyLine): seq<ChunkDoc> {
    if cs == [] then [ChunkDoc(Implicit, [b], false)]
    else DropLast(cs) + [Last(cs).(body := Last(cs).body + [b])]
  }

  /** `ds` continues `cs` by the printed lines and stands for the chunks `ks`. */
  predicate ChunksFollow(cs: seq<ChunkDoc>, printed: seq<string>, ds: seq<ChunkDoc>, ks: seq<Chunk>) {
    ChunksBegun(ds) && ChunksOf(ds) == ks && PrintChunks(ds) == PrintChunks(cs) + printed
  }

  lemma ReplacedLastChunkIsBegun(cs: seq<ChunkDoc>, d: ChunkDoc)
    requires cs != [] && ChunksBegun(cs) && ChunkBegun(d) && d.header == Last(cs).header
    ensures ChunksBegun(DropLast(cs) + [d])
  {
    var ds := DropLast(cs) + [d];
    assert DropLast(ds) == DropLast(cs);
    forall i | 0 < i < |ds| ensures !ds[i].header.Implicit? {
      assert !cs[i].header.Implicit?;
    }
  }

  lemma ReplacedLastChunkFollows(cs: seq<ChunkDoc>, d: ChunkDoc, printed: seq<string>)
    requires cs != [] && ChunksBegun(cs) && ChunkBegun(d) && d.header == Last(cs).header
    requires PrintChunk(d) == PrintChunk(Last(cs)) + printed
    ensures ChunksFollow(cs, printed, DropLast(cs) + [d], DropLast(ChunksOf(cs)) + [ChunkOf(d)])
  {
    assert PrintChunks(DropLast(cs)) + PrintChunk(Last(cs)) + printed
        == PrintChunks(DropLast(cs)) + (PrintChunk(Last(cs)) + printed);
    LastChunk(cs);
    assert DropLast(ChunksOf(cs)) == ChunksOf(DropLast(cs));
    ChunksSnoc(DropLast(cs), d);
    ReplacedLastChunkIsBegun(cs, d);
  }

  lemma FirstBodyLineFollows(b: BodyLine)
    requires PrintableBodyLine(b)
    ensures ChunksFollow([], [PrintBodyLine(b)], [ChunkDoc(Implicit, [b], false)],
                         Extend([], OldLines([b]), NewLines([b])))
  {
    var c := ChunkDoc(Implicit, [b], false);
    OneBodyLineMeans(b);
    assert [b][1..] == [] && PrintBody([b]) == [PrintBodyLine(b)];
    assert [c][1..] == [] && DropLast([c]) == [];
    assert PrintChunks([c]) == PrintChunk(c) + [];
    assert PrintChunk(c) == [PrintBodyLine(b)];
    assert [] + OldLines([b]) == OldLines([b]) && [] + NewLines([b]) == NewLines([b]);
    assert DropLast([NewChunk(None)]) == [] && [] + [ChunkOf(c)] == [ChunkOf(c)];
    assert Extend([], OldLines([b]), NewLines([b])) == [ChunkOf(c)];
    assert ChunksOf([c]) == [ChunkOf(c)] + [];
  }

  lemma NextBodyLineFollows(cs: seq<ChunkDoc>, b: BodyLine)
    requires cs != [] && ChunksBegun(cs) && PrintableBodyLine(b) && !Last(cs).atEndOfFile
    ensures ChunksFollow(cs, [PrintBodyLine(b)], AddBodyLine(cs, b), Extend(ChunksOf(cs), OldLines([b]), NewLines([b])))
  {
    var c := Last(cs);
    var d := c.(body := c.body + [b]);
    assert ChunkBegun(c);
    assert ChunkBegun(d);
    BodySnoc(c.body, b);
    assert PrintChunk(d) == PrintChunk(c) + [PrintBodyLine(b)];
    LastChunk(cs);
    ReplacedLastChunkFollows(cs, d, [PrintBodyLine(b)]);
  }

  lemma ContextFollows(cs: seq<ChunkDoc>, header: Header)
    requires ChunksBegun(cs) && !header.Implicit? && (header.At? ==> CleanName(header.context))
    requires cs != [] ==> Last(cs).body != []
    ensures ChunksFollow(cs, PrintHeader(header), cs + [ChunkDoc(header, [], false)],
                         ChunksOf(cs) + [NewChunk(ContextOf(header))])
  {
    var c := ChunkDoc(header, [], false);
    var ds := cs + [c];
    assert PrintChunk(c) == PrintHeader(header);
    ChunksSnoc(cs, c);
    assert DropLast(ds) == cs;
    forall x | x in cs ensures x.body != [] {
      InDropLast(cs, x);
    }
  }

  lemma EofFollows(cs: seq<ChunkDoc>)
    requires cs != [] && ChunksBegun(cs) && Last(cs).body != [] && !Last(cs).atEndOfFile
    ensures var ks := ChunksOf(cs);
      ChunksFollow(cs, [EOF_MARKER], DropLast(cs) + [Last(cs).(atEndOfFile := true)],
                   DropLast(ks) + [Last(ks).(isEndOfFile := true)])
  {
    var c := Last(cs);
    var d := c.(atEndOfFile := true);
    assert ChunkBegun(c);
    assert PrintChunk(d) == PrintChunk(c) + [EOF_MARKER];
    LastChunk(cs);
    ReplacedLastChunkFollows(cs, d, [EOF_MARKER]);
  }

  /** How a line that is accepted changes the chunks `ks` to `grown`. */
  datatype Growth = Nothing | NewContext(header: Header) | MarksEnd | AddsLine(b: BodyLine)

  predicate Grew(growth: Growth, ks: seq<Chunk>, raw: string, grown: seq<Chunk>) {
    var mark := TrimEnd(raw);
    match growth
    case Nothing => grown == ks && Canon(PlaceBehind(ks), raw) == []
    case NewContext(header) =>
      && !header.Implicit? && PrintHeader(header) == [mark] && (header.At? ==> CleanName(header.context))
      && (ks != [] ==> !Last(ks).IsEmpty()) && grown == ks + [NewChunk(ContextOf(header))]
    case MarksEnd =>
      && mark == EOF_MARKER && ks != [] && !Last(ks).IsEmpty() && !Last(ks).isEndOfFile
      && grown == DropLast(ks) + [Last(ks).(isEndOfFile := true)]
    case AddsLine(b) =>
      && PrintBodyLine(b) == raw && PrintableBodyLine(b) && (ks != [] ==> !Last(ks).isEndOfFile)
      && grown == Extend(ks, OldLines([b]), NewLines([b]))
  }

  function GrowthOf(ks: seq<Chunk>, raw: string, grown: seq<Chunk>): Growth {
    var mark := TrimEnd(raw);
    if grown == ks then Nothing
    else if mark == EMPTY_CHANGE_CONTEXT then NewContext(Anywhere)
    else if CHANGE_CONTEXT <= mark then NewContext(Header.At(mark[|CHANGE_CONTEXT|..]))
    else if mark == EOF_MARKER then MarksEnd
    else AddsLine(if raw != "" && raw[0] in " +-" then BodyLineOf(raw) else Bare)
  }

  lemma ContextMarkSplits(raw: string)
    requires CHANGE_CONTEXT <= TrimEnd(raw) && '\n' !in raw
    ensures var context := TrimEnd(raw)[|CHANGE_CONTEXT|..];
      CleanName(context) && PrintHeader(Header.At(context)) == [TrimEnd(raw)]
  {
    var mark := TrimEnd(raw);
    TrimEndShape(raw);
    NameAfterMarker(CHANGE_CONTEXT, mark);
    assert CHANGE_CONTEXT + mark[|CHANGE_CONTEXT|..] == mark;
  }

  lemma ExtendChanges(ks: seq<Chunk>, olds: seq<string>, news: seq<string>)
    requires olds != [] || news != []
    ensures Extend(ks, olds, news) != ks
  {
    if ks != [] {
      var c, d := Last(ks), Last(Extend(ks, olds, news));
      assert d.oldLines == c.oldLines + olds && d.newLines == c.newLines + news;
      assert |d.oldLines| + |d.newLines| > |c.oldLines| + |c.newLines|;
      assert d != c;
    }
  }

  /** An accepted line that sets no move path changes the chunks in one of these ways. */
  lemma AcceptedLineGrows(h: Hunk, raw: string)
    requires h.UpdateFile? && '\n' !in raw
    requires ContinueUpdate(h, raw).Grown? && ContinueUpdate(h, raw).hunk.movePath == h.movePath
    ensures var k := ContinueUpdate(h, raw).hunk;
      k == h.(chunks := k.chunks) && Grew(GrowthOf(h.chunks, raw, k.chunks), h.chunks, raw, k.chunks)
  {
    var mark, k := TrimEnd(raw), ContinueUpdate(h, raw).hunk;
    if mark == EMPTY_CHANGE_CONTEXT || CHANGE_CONTEXT <= mark || mark == EOF_MARKER {
      if CHANGE_CONTEXT <= mark { ContextMarkSplits(raw); }
    } else if k != h {
      OtherLinesAreBodyLines(h, raw);
    } else if h.chunks == [] || !Last(h.chunks).isEndOfFile || mark != "" {
      OtherLinesAreBodyLines(h, raw);
      OneBodyLineMeans(BodyLineOf(raw));
      ExtendChanges(h.chunks, OldLines([BodyLineOf(raw)]), NewLines([BodyLineOf(raw)]));
    }
  }

  lemma OtherLinesAreBodyLines(h: Hunk, raw: string)
    requires h.UpdateFile? && '\n' !in raw
    requires ContinueUpdate(h, raw).Grown? && ContinueUpdate(h, raw).hunk.movePath == h.movePath
    requires var mark := TrimEnd(raw); mark != EMPTY_CHANGE_CONTEXT && !(CHANGE_CONTEXT <= mark) && mark != EOF_MARKER
    requires h.chunks == [] || !Last(h.chunks).isEndOfFile || TrimEnd(raw) != "" || ContinueUpdate(h, raw).hunk != h
    ensures raw == "" || raw[0] in " +-"
    ensures var b := BodyLineOf(raw);
      && PrintBodyLine(b) == raw && PrintableBodyLine(b) && (h.chunks != [] ==> !Last(h.chunks).isEndOfFile)
      && ContinueUpdate(h, raw).hunk == h.(chunks := Extend(h.chunks, OldLines([b]), NewLines([b])))
  {
    OtherLinesHaveAMark(h, raw);
    BodyLineOfPrints(raw);
    OneBodyLine(h, BodyLineOf(raw));
  }

  lemma OtherLinesHaveAMark(h: Hunk, raw: string)
    requires h.UpdateFile? && ContinueUpdate(h, raw).Grown?
    requires ContinueUpdate(h, raw).hunk.movePath == h.movePath
    requires var mark := TrimEnd(raw); mark != EMPTY_CHANGE_CONTEXT && !(CHANGE_CONTEXT <= mark) && mark != EOF_MARKER
    requires h.chunks == [] || !Last(h.chunks).isEndOfFile || TrimEnd(raw) != "" || ContinueUpdate(h, raw).hunk != h
    ensures raw == "" || raw[0] in " +-"
    ensures h.chunks != [] ==> !Last(h.chunks).isEndOfFile
  {
    assert raw == "" || raw[0] == ' ' || raw[0] == '+' || raw[0] == '-';
  }

  lemma BodyLineOfPrints(raw: string)
    requires '\n' !in raw && (raw == "" || raw[0] in " +-")
    ensures PrintBodyLine(BodyLineOf(raw)) == raw && PrintableBodyLine(BodyLineOf(raw))
    ensures raw != "" ==> !BodyLineOf(raw).Bare? && BodyLineOf(raw).text == raw[1..]
  {
  }

  lemma ContextMarkIsCanonical(place: Place, raw: string, header: Header)
    requires !place.Between? && !place.Over? && !header.Implicit? && PrintHeader(header) == [TrimEnd(raw)]
    ensures Canon(place, raw) == [TrimEnd(raw)]
  {
    MarkersDiffer();
    assert IsContextMarker(TrimEnd(raw));
  }

  /** The accepted lines that grow a chunk. */
  lemma ChunkLineFollows(growth: Growth, cs: seq<ChunkDoc>, raw: string, grown: seq<Chunk>)
    returns (ds: seq<ChunkDoc>, printed: seq<string>)
    requires ChunksBegun(cs) && Grew(growth, ChunksOf(cs), raw, grown)
    ensures ChunksFollow(cs, printed, ds, grown) && printed == Canon(PlaceBehind(ChunksOf(cs)), raw)
  {
    var mark := TrimEnd(raw);
    if cs != [] {
      LastChunk(cs);
      EmptyChunkHasNoBody(Last(cs));
    }
    match growth
    case Nothing =>
      ds, printed := cs, [];
    case NewContext(header) =>
      ds, printed := cs + [ChunkDoc(header, [], false)], [mark];
      ContextMarkIsCanonical(PlaceBehind(ChunksOf(cs)), raw, header);
      ContextFollows(cs, header);
    case MarksEnd =>
      ds, printed := DropLast(cs) + [Last(cs).(atEndOfFile := true)], [mark];
      assert "*** " <= mark;
      EofFollows(cs);
    case AddsLine(b) =>
      ds, printed := AddBodyLine(cs, b), [raw];
      BodyLineMoves(PlaceBehind(ChunksOf(cs)), raw);
      if cs == [] { FirstBodyLineFollows(b); } else { NextBodyLineFollows(cs, b); }
  }

  lemma UpdateLineFollows(doc: HunkDoc, raw: string) returns (next: HunkDoc, printed: seq<string>)
    requires doc.Update? && Begun(doc) && '\n' !in raw
    requires ContinueUpdate(HunkOf(doc), raw).Grown?
    ensures next.Update? && Begun(next) && HunkOf(next) == ContinueUpdate(HunkOf(doc), raw).hunk
    ensures PrintHunk(next) == PrintHunk(doc) + printed
    ensures printed == Canon(PlaceIn(HunkOf(doc)), raw)
  {
    var h := HunkOf(doc);
    var k := ContinueUpdate(h, raw).hunk;
    if k.movePath != h.movePath {
      next, printed := MoveLineFollows(doc, raw);
    } else {
      var ds;
      AcceptedLineGrows(h, raw);
      ds, printed := ChunkLineFollows(GrowthOf(h.chunks, raw, k.chunks), doc.chunks, raw, k.chunks);
      next := doc.(chunks := ds);
      GrownChunksPrint(doc, ds, printed);
    }
  }

  lemma GrownChunksPrint(doc: HunkDoc, ds: seq<ChunkDoc>, printed: seq<string>)
    requires doc.Update? && PrintChunks(ds) == PrintChunks(doc.chunks) + printed
    ensures PrintHunk(doc.(chunks := ds)) == PrintHunk(doc) + printed
  {
    var head := [UPDATE_FILE + doc.path] + PrintMove(doc.moveTo);
    var chunks := PrintChunks(doc.chunks);
    Appended(head, chunks, printed, head + chunks, head + chunks + printed);
  }

  lemma MoveLineFollows(doc: HunkDoc, raw: string) returns (next: HunkDoc, printed: seq<string>)
    requires doc.Update? && Begun(doc) && '\n' !in raw && ContinueUpdate(HunkOf(doc), raw).Grown?
    requires ContinueUpdate(HunkOf(doc), raw).hunk.movePath != HunkOf(doc).movePath
    ensures next.Update? && Begun(next) && HunkOf(next) == ContinueUpdate(HunkOf(doc), raw).hunk
    ensures PrintHunk(next) == PrintHunk(doc) + printed && printed == Canon(PlaceIn(HunkOf(doc)), raw)
  {
    var mark := TrimEnd(raw);
    TrimEndShape(raw);
    NameAfterMarker(MOVE_TO, mark);
    next, printed := doc.(moveTo := Some(mark[|MOVE_TO|..])), [mark];
    assert MOVE_TO + mark[|MOVE_TO|..] == mark && "*** " <= mark && mark != EOF_MARKER;
  }

  // ---------------------------------------------------------------------------
  // One line of a patch
  // ---------------------------------------------------------------------------

  /** The line `raw` brings the parser from `st` to `next` and the document from `docs` to `more`. */
  predicate Advances(st: ParserState, docs: seq<HunkDoc>, raw: string,
                     next: ParserState, more: seq<HunkDoc>, printed: seq<string>) {
    && Represents(next, more)
    && PrintedSoFar(next, more) == PrintedSoFar(st, docs) + printed
    && HasPlace(st) && printed == Canon(PlaceOf(st), raw)
  }

  lemma FinishedChunksArePrintable(cs: seq<ChunkDoc>)
    requires ChunksBegun(cs) && cs != [] && Last(cs).body != []
    ensures PrintableChunks(cs)
  {
    forall c | c in cs ensures PrintableChunk(c) {
      InDropLast(cs, c);
      assert ChunkBegun(c);
    }
  }

  /** If the last hunk may be closed, its document can be printed. */
  lemma ClosableIsPrintable(st: ParserState, docs: seq<HunkDoc>, line: string)
    requires Represents(st, docs) && !st.mode.EndedPatch? && EmptinessError(st, line).None?
    ensures AllPrintable(docs)
  {
    if docs != [] {
      LastHunk(docs);
      var h := Last(docs);
      if h.Update? && h.chunks != [] {
        LastChunk(h.chunks);
        EmptyChunkHasNoBody(Last(h.chunks));
      }
      if h.Update? { FinishedChunksArePrintable(h.chunks); }
      assert PrintableHunk(h);
      forall d | d in docs ensures PrintableHunk(d) { InDropLast(docs, d); }
    }
  }

  /** `h` may be the document of the hunk read in this mode. */
  predicate Suits(mode: Mode, h: HunkDoc) {
    match h
    case Add(_, _) => mode == AddingFile
    case Delete(_) => mode == DeletingFile
    case Update(_, _, _) => mode.UpdatingFile?
  }

  lemma EndingIn(st: ParserState, init: seq<HunkDoc>, h: HunkDoc)
    requires AllPrintable(init) && Begun(h) && Suits(st.mode, h)
    requires st.hunks == HunksOf(init) + [HunkOf(h)]
    requires st.environmentId.Some? ==> CleanName(st.environmentId.value) && StartsInk(st.environmentId.value)
    ensures Represents(st, init + [h])
  {
    HunksSnoc(init, h);
    assert DropLast(init + [h]) == init && Last(init + [h]) == h;
  }

  lemma PrintedEndingIn(st: ParserState, init: seq<HunkDoc>, h: HunkDoc)
    requires !st.mode.NotStarted? && !st.mode.EndedPatch?
    ensures PrintedSoFar(st, init + [h])
         == [BEGIN_PATCH] + PrintEnvironment(st.environmentId) + (PrintHunks(init) + PrintHunk(h))
  {
    HunksSnoc(init, h);
  }

  lemma NewHunkAdvances(st: ParserState, docs: seq<HunkDoc>, raw: string, h: HunkDoc, marker: string, next: ParserState)
    requires Represents(st, docs) && AllPrintable(docs) && Begun(h)
    requires !st.mode.NotStarted? && !st.mode.EndedPatch? && Suits(next.mode, h)
    requires next.hunks == st.hunks + [HunkOf(h)] && next.environmentId == st.environmentId
    requires PrintHunk(h) == [marker] && Canon(PlaceOf(st), raw) == [marker]
    ensures Advances(st, docs, raw, next, docs + [h], [marker])
  {
    var front, body := [BEGIN_PATCH] + PrintEnvironment(st.environmentId), PrintHunks(docs);
    assert front + (body + [marker]) == front + body + [marker];
    assert PrintedSoFar(st, docs) == front + body;
    PrintedEndingIn(next, docs, h);
    EndingIn(next, docs, h);
  }

  lemma EndAdvances(st: ParserState, docs: seq<HunkDoc>, raw: string, next: ParserState)
    requires Represents(st, docs) && AllPrintable(docs)
    requires !st.mode.NotStarted? && !st.mode.EndedPatch?
    requires next.mode == EndedPatch && next.hunks == st.hunks && next.environmentId == st.environmentId
    requires Canon(PlaceOf(st), raw) == [END_PATCH]
    ensures Advances(st, docs, raw, next, docs, [END_PATCH])
  {
  }

  lemma EnvironmentAdvances(st: ParserState, docs: seq<HunkDoc>, raw: string, id: string)
    requires Represents(st, docs) && st.mode == StartedPatch && st.environmentId.None?
    requires ENVIRONMENT_ID <= Trim(raw) && id == Trim(Trim(raw)[|ENVIRONMENT_ID|..]) && id != "" && '\n' !in raw
    ensures Advances(st, docs, raw, st.(environmentId := Some(id)), docs, [ENVIRONMENT_ID + " " + id])
  {
    TrimShape(raw);
    TrimShape(Trim(raw)[|ENVIRONMENT_ID|..]);
  }

  /** The document a hunk header opens. */
  function HeaderDoc(trimmed: string): HunkDoc
    requires ADD_FILE <= trimmed || DELETE_FILE <= trimmed || UPDATE_FILE <= trimmed
  {
    if ADD_FILE <= trimmed then Add(trimmed[|ADD_FILE|..], [])
    else if DELETE_FILE <= trimmed then Delete(trimmed[|DELETE_FILE|..])
    else Update(trimmed[|UPDATE_FILE|..], None, [])
  }

  lemma HeaderDocFits(trimmed: string)
    requires ADD_FILE <= trimmed || DELETE_FILE <= trimmed || UPDATE_FILE <= trimmed
    requires EndsInk(trimmed) && '\n' !in trimmed
    ensures Begun(HeaderDoc(trimmed)) && PrintHunk(HeaderDoc(trimmed)) == [trimmed]
  {
    if ADD_FILE <= trimmed {
      NameAfterMarker(ADD_FILE, trimmed);
      assert ADD_FILE + trimmed[|ADD_FILE|..] == trimmed;
    } else if DELETE_FILE <= trimmed {
      NameAfterMarker(DELETE_FILE, trimmed);
      assert DELETE_FILE + trimmed[|DELETE_FILE|..] == trimmed;
    } else {
      NameAfterMarker(UPDATE_FILE, trimmed);
      assert UPDATE_FILE + trimmed[|UPDATE_FILE|..] == trimmed;
    }
  }

  /** A header that is handled and is neither the environment nor the end opens a hunk. */
  lemma HeaderOpensHunk(st: ParserState, trimmed: string)
    requires HandleHeader(st, trimmed).Done? && trimmed != END_PATCH
    requires !(st.mode == StartedPatch && ENVIRONMENT_ID <= trimmed)
    ensures ADD_FILE <= trimmed || DELETE_FILE <= trimmed || UPDATE_FILE <= trimmed
    ensures EmptinessError(st, trimmed).None?
    ensures var next := HandleHeader(st, trimmed).state;
      && next.hunks == st.hunks + [HunkOf(HeaderDoc(trimmed))]
      && next.environmentId == st.environmentId
      && Suits(next.mode, HeaderDoc(trimmed))
  {
  }

  lemma MarkerTrims(place: Place, raw: string, trimmed: string)
    requires !place.Over? && trimmed == if place.Between? then Trim(raw) else TrimEnd(raw)
    requires "*** " <= trimmed && trimmed != EOF_MARKER && !(ENVIRONMENT_ID <= trimmed) && '\n' !in raw
    ensures EndsInk(trimmed) && '\n' !in trimmed && Canon(place, raw) == [trimmed]
  {
    TrimEndShape(raw);
    TrimShape(raw);
  }

  lemma HeaderAdvances(st: ParserState, docs: seq<HunkDoc>, raw: string, trimmed: string)
    returns (more: seq<HunkDoc>, printed: seq<string>)
    requires Represents(st, docs) && !st.mode.NotStarted? && !st.mode.EndedPatch?
    requires '\n' !in raw && trimmed == if st.mode.UpdatingFile? then TrimEnd(raw) else Trim(raw)
    requires HandleHeader(st, trimmed).Done?
    ensures Advances(st, docs, raw, HandleHeader(st, trimmed).state, more, printed)
  {
    var next := HandleHeader(st, trimmed).state;
    if st.mode == StartedPatch && ENVIRONMENT_ID <= trimmed {
      more, printed := docs, [ENVIRONMENT_ID + " " + next.environmentId.value];
      EnvironmentAdvances(st, docs, raw, next.environmentId.value);
    } else if trimmed == END_PATCH {
      more, printed := docs, [trimmed];
      HeaderMoves(st, trimmed);
      MarkerTrims(PlaceOf(st), raw, trimmed);
      ClosableIsPrintable(st, docs, trimmed);
      EndAdvances(st, docs, raw, next);
    } else {
      HeaderOpensHunk(st, trimmed);
      more, printed := docs + [HeaderDoc(trimmed)], [trimmed];
      HeaderMoves(st, trimmed);
      MarkerTrims(PlaceOf(st), raw, trimmed);
      HeaderDocFits(trimmed);
      ClosableIsPrintable(st, docs, trimmed);
      NewHunkAdvances(st, docs, raw, HeaderDoc(trimmed), trimmed, next);
    }
  }

  /** The last hunk grows by a printed line. */
  lemma LastHunkAdvances(st: ParserState, docs: seq<HunkDoc>, raw: string, h: HunkDoc, printed: seq<string>)
    requires Represents(st, docs) && (st.mode.AddingFile? || st.mode.UpdatingFile?)
    requires Begun(h) && Suits(st.mode, h)
    requires PrintHunk(h) == PrintHunk(Last(docs)) + printed && printed == Canon(PlaceOf(st), raw)
    ensures Advances(st, docs, raw, st.(hunks := DropLast(st.hunks) + [HunkOf(h)]), DropLast(docs) + [h], printed)
  {
    LastHunkPrints(st, docs, h, printed);
    LastHunkRepresents(st, docs, h);
  }

  lemma LastHunkPrints(st: ParserState, docs: seq<HunkDoc>, h: HunkDoc, printed: seq<string>)
    requires docs != [] && !st.mode.NotStarted? && !st.mode.EndedPatch?
    requires PrintHunk(h) == PrintHunk(Last(docs)) + printed
    ensures forall next: ParserState | next.mode == st.mode && next.environmentId == st.environmentId ::
              PrintedSoFar(next, DropLast(docs) + [h]) == PrintedSoFar(st, docs) + printed
  {
    assert docs == DropLast(docs) + [Last(docs)];
    forall next: ParserState | next.mode == st.mode && next.environmentId == st.environmentId
      ensures PrintedSoFar(next, DropLast(docs) + [h]) == PrintedSoFar(st, docs) + printed
    {
      PrintedGrows(st, next, DropLast(docs), Last(docs), h, printed);
    }
  }

  lemma LastHunkRepresents(st: ParserState, docs: seq<HunkDoc>, h: HunkDoc)
    requires Represents(st, docs) && (st.mode.AddingFile? || st.mode.UpdatingFile?)
    requires Begun(h) && Suits(st.mode, h)
    ensures Represents(st.(hunks := DropLast(st.hunks) + [HunkOf(h)]), DropLast(docs) + [h])
  {
    LastHunk(docs);
    EndingIn(st.(hunks := DropLast(st.hunks) + [HunkOf(h)]), DropLast(docs), h);
  }

  lemma PrintedGrows(
    st: ParserState, next: ParserState, init: seq<HunkDoc>, h: HunkDoc, k: HunkDoc, printed: seq<string>)
    requires !st.mode.NotStarted? && !st.mode.EndedPatch?
    requires next.mode == st.mode && next.environmentId == st.environmentId
    requires PrintHunk(k) == PrintHunk(h) + printed
    ensures PrintedSoFar(next, init + [k]) == PrintedSoFar(st, init + [h]) + printed
  {
    var front, body := [BEGIN_PATCH] + PrintEnvironment(st.environmentId), PrintHunks(init);
    assert front + (body + (PrintHunk(h) + printed)) == front + (body + PrintHunk(h)) + printed;
    PrintedEndingIn(st, init, h);
    PrintedEndingIn(next, init, k);
  }

  lemma AddedLineAdvances(st: ParserState, docs: seq<HunkDoc>, raw: string)
    returns (more: seq<HunkDoc>, printed: seq<string>)
    requires Represents(st, docs) && st.mode.AddingFile? && '\n' !in raw
    requires ProcessAddedLine(st, raw).error.None?
    ensures Advances(st, docs, raw, ProcessAddedLine(st, raw).state, more, printed)
  {
    var doc := Last(docs);
    var h := doc.(lines := doc.lines + [raw[1..]]);
    more, printed := DropLast(docs) + [h], [raw];
    assert raw != "" && raw[0] == '+';
    AddedLineMoves(raw);
    AddedLineGrowsDoc(doc, raw);
    LastHunkAdvances(st, docs, raw, h, printed);
    assert Last(st.hunks) == HunkOf(doc) by { LastHunk(docs); }
  }

  lemma AddedLineGrowsDoc(doc: HunkDoc, raw: string)
    requires doc.Add? && Begun(doc) && raw != "" && raw[0] == '+' && '\n' !in raw
    ensures var h := doc.(lines := doc.lines + [raw[1..]]);
      && Begun(h) && PrintHunk(h) == PrintHunk(doc) + [raw]
      && HunkOf(h) == HunkOf(doc).(contents := HunkOf(doc).contents + raw[1..] + "\n")
  {
    var line := raw[1..];
    assert "+" + line == raw;
    AddedSnoc(doc.lines, line);
    var head := [ADD_FILE + doc.path];
    assert head + (PrintAdded(doc.lines) + [raw]) == head + PrintAdded(doc.lines) + [raw];
  }

  lemma UpdateLineAdvances(st: ParserState, docs: seq<HunkDoc>, raw: string)
    returns (more: seq<HunkDoc>, printed: seq<string>)
    requires Represents(st, docs) && st.mode.UpdatingFile? && '\n' !in raw
    requires ProcessUpdateLine(st, raw).error.None?
    ensures Advances(st, docs, raw, ProcessUpdateLine(st, raw).state, more, printed)
  {
    LastHunk(docs);
    var h;
    h, printed := UpdateLineFollows(Last(docs), raw);
    more := DropLast(docs) + [h];
    LastHunkAdvances(st, docs, raw, h, printed);
  }

  lemma ProcessLineAdvances(st: ParserState, docs: seq<HunkDoc>, raw: string)
    returns (more: seq<HunkDoc>, printed: seq<string>)
    requires Represents(st, docs) && '\n' !in raw && ProcessLine(st, raw).error.None?
    ensures Advances(st, docs, raw, ProcessLine(st, raw).state, more, printed)
  {
    if st.mode.NotStarted? {
      more, printed := [], [BEGIN_PATCH];
      MarkersDiffer();
    } else if st.mode.EndedPatch? {
      more, printed := docs, [];
    } else {
      var trimmed := if st.mode.UpdatingFile? then TrimEnd(raw) else Trim(raw);
      if HandleHeader(st, trimmed).Done? {
        more, printed := HeaderAdvances(st, docs, raw, trimmed);
      } else if st.mode.UpdatingFile? {
        more, printed := UpdateLineAdvances(st, docs, raw);
      } else {
        more, printed := AddedLineAdvances(st, docs, raw);
      }
    }
  }

  // ---------------------------------------------------------------------------
  // Whole patches
  // ---------------------------------------------------------------------------

  lemma RunLineAdvances(st: ParserState, docs: seq<HunkDoc>, raw: string)
    returns (more: seq<HunkDoc>, printed: seq<string>)
    requires Represents(st, docs) && '\n' !in raw && RunLine(st, raw).error.None?
    ensures Advances(st, docs, raw, RunLine(st, raw).state, more, printed)
  {
    var taken := st.(lineBuffer := "", lineNumber := st.lineNumber + 1);
    var next := RunLine(st, raw).state;
    assert next == ProcessLine(taken, raw).state && ProcessLine(taken, raw).error.None?;
    assert PrintedSoFar(taken, docs) == PrintedSoFar(st, docs);
    more, printed := ProcessLineAdvances(taken, docs, raw);
  }

  /** The same for several lines. */
  predicate AdvancesBy(st: ParserState, docs: seq<HunkDoc>, raws: seq<string>,
                       end: ParserState, more: seq<HunkDoc>, printed: seq<string>) {
    && Represents(end, more)
    && PrintedSoFar(end, more) == PrintedSoFar(st, docs) + printed
    && HasPlace(st) && printed == Normal(PlaceOf(st), raws)
  }

  lemma AdvancesThen(st: ParserState, docs: seq<HunkDoc>, raw: string,
                     mid: ParserState, docs1: seq<HunkDoc>, p: seq<string>,
                     raws: seq<string>, end: ParserState, more: seq<HunkDoc>, q: seq<string>)
    requires Advances(st, docs, raw, mid, docs1, p) && AdvancesBy(mid, docs1, raws, end, more, q)
    requires PlaceOf(mid) == AfterAll(PlaceOf(st), p)
    ensures AdvancesBy(st, docs, [raw] + raws, end, more, p + q)
  {
    Appended(PrintedSoFar(st, docs), p, q, PrintedSoFar(mid, docs1), PrintedSoFar(end, more));
    assert ([raw] + raws)[1..] == raws;
  }

  lemma {:induction false} RunLinesAdvance(st: ParserState, docs: seq<HunkDoc>, raws: seq<string>, end: ParserState)
    returns (more: seq<HunkDoc>, printed: seq<string>)
    requires Represents(st, docs) && NewlineFree(raws) && RunLines(st, raws) == Step(end, None)
    ensures AdvancesBy(st, docs, raws, end, more, printed)
    decreases |raws|
  {
    if raws == [] {
      more, printed := docs, [];
    } else {
      var raw, rest := raws[0], raws[1..];
      assert raws == [raw] + rest;
      var mid := RunLine(st, raw).state;
      var docs1, p, q;
      docs1, p := RunLineAdvances(st, docs, raw);
      PlaceMoves(st, raw);
      more, q := RunLinesAdvance(mid, docs1, rest, end);
      printed := p + q;
      AdvancesThen(st, docs, raw, mid, docs1, p, rest, end, more, q);
    }
  }

  /** The whole text: the lines before the last are run, the last one is left to `finish`. */
  lemma ParsedLines(lines: seq<string>) returns (end: ParserState)
    requires |lines| >= 1 && NewlineFree(lines) && ParseLines(lines).Parsed?
    ensures RunLines(INITIAL, StripCrs(DropLast(lines))) == Step(end, None) && end.lineBuffer == ""
    ensures var done := Finish(end.(lineBuffer := Last(lines)));
      && done.error.None?
      && ParseLines(lines).hunks == done.state.hunks && ParseLines(lines).environmentId == done.state.environmentId
  {
    var init := DropLast(lines);
    assert lines == init + [Last(lines)];
    assert Last(lines) in lines;
    assert NewlineFree(init);
    PushLines(INITIAL, init, Last(lines));
    var r := RunLines(INITIAL, StripCrs(init));
    end := r.state;
    RunLinesEmptiesBuffer(INITIAL, StripCrs(init));
  }

  /** An end marker that finishes the patch. */
  lemma FinishWithEndMarker(end: ParserState, last: string)
    requires Trim(last) == END_PATCH && Finish(end.(lineBuffer := last)).error.None?
    ensures var done := Finish(end.(lineBuffer := last)).state;
      && done.hunks == end.hunks && done.environmentId == end.environmentId && done.mode == EndedPatch
      && EmptinessError(end.(lineNumber := end.lineNumber + 1, lineBuffer := ""), END_PATCH).None?
  {
    assert last != "" by { TrimShape(last); }
  }

  lemma {:induction false} RunningStarts(st: ParserState, raws: seq<string>)
    requires RunLines(st, raws).error.None? && (raws == [] ==> !st.mode.NotStarted?)
    ensures !RunLines(st, raws).state.mode.NotStarted?
    decreases |raws|
  {
    if raws != [] {
      RunningStarts(RunLine(st, raws[0]).state, raws[1..]);
    }
  }

  /** The lines of an accepted patch, as the parser gets them: within the boundaries, and
      without the carriage returns before newlines. */
  function ReadLines(patch: string): seq<string>
    requires CheckLenient(Lines(Trim(patch))).Within?
  {
    StripCrs(CheckLenient(Lines(Trim(patch))).lines)
  }

  /** Where the parser stands before the last line of an accepted patch. */
  lemma BeforeTheLastLine(lines: seq<string>) returns (end: ParserState)
    requires |lines| >= 2 && NewlineFree(lines) && Trim(Last(lines)) == END_PATCH && ParseLines(lines).Parsed?
    ensures RunLines(INITIAL, StripCrs(DropLast(lines))) == Step(end, None)
    ensures end.hunks == ParseLines(lines).hunks && end.environmentId == ParseLines(lines).environmentId
    ensures EmptinessError(end.(lineNumber := end.lineNumber + 1, lineBuffer := ""), END_PATCH).None?
    ensures !end.mode.NotStarted?
  {
    end := ParsedLines(lines);
    RunningStarts(INITIAL, StripCrs(DropLast(lines)));
    FinishWithEndMarker(end, Last(lines));
  }

  /** The document read up to there. */
  lemma DocumentBeforeTheLastLine(init: seq<string>, end: ParserState) returns (d: PatchDoc)
    requires NewlineFree(init) && RunLines(INITIAL, init) == Step(end, None) && !end.mode.NotStarted?
    requires EmptinessError(end.(lineNumber := end.lineNumber + 1, lineBuffer := ""), END_PATCH).None?
    ensures Printable(d) && HunksOf(d.hunks) == end.hunks && d.environmentId == end.environmentId
    ensures PrintPatch(d) == Normal(Between, init) || PrintPatch(d) == Normal(Between, init) + [END_PATCH]
  {
    var docs, printed := RunLinesAdvance(INITIAL, [], init, end);
    d := PatchDoc(end.environmentId, docs);
    assert PrintedSoFar(INITIAL, []) == [] && [] + printed == printed;
    if end.mode.EndedPatch? {
      assert PrintPatch(d) == printed;
    } else {
      ClosableIsPrintable(end.(lineNumber := end.lineNumber + 1, lineBuffer := ""), docs, END_PATCH);
      assert PrintPatch(d) == printed + [END_PATCH];
    }
  }

  /** The lines before the last, which is an end marker, are in normal form the printed document
      up to its end marker, or all of it. */
  predicate AreThePrint(raws: seq<string>, d: PatchDoc) {
    && raws != []
    && var normal := Normal(Between, DropLast(raws));
       PrintPatch(d) == normal + [END_PATCH] || PrintPatch(d) == normal
  }

  lemma AcceptedLinesArePrinted(lines: seq<string>) returns (d: PatchDoc)
    requires |lines| >= 2 && NewlineFree(lines) && Trim(Last(lines)) == END_PATCH && ParseLines(lines).Parsed?
    ensures Printable(d)
    ensures HunksOf(d.hunks) == ParseLines(lines).hunks && d.environmentId == ParseLines(lines).environmentId
    ensures AreThePrint(StripCrs(lines), d)
  {
    var init, last := StripCrs(DropLast(lines)), StripCr(Last(lines));
    assert StripCrs(lines) == init + [last];
    StrippedLinesHaveNoNewline(DropLast(lines));
    Heredoc.TrimForgetsCr(Last(lines));
    var end := BeforeTheLastLine(lines);
    d := DocumentBeforeTheLastLine(init, end);
    assert DropLast(StripCrs(lines)) == init;
  }

  /** Every accepted patch is in normal form the print of a document that stands for exactly the
      hunks and the environment id returned. The one line a patch may have beyond that is a
      second end marker at the very end. */
  lemma AcceptedPatchIsPrinted(patch: string) returns (d: PatchDoc)
    requires ParsePatch(patch).Parsed?
    ensures Printable(d)
    ensures HunksOf(d.hunks) == ParsePatch(patch).hunks && d.environmentId == ParsePatch(patch).environmentId
    ensures AreThePrint(ReadLines(patch), d)
  {
    Heredoc.WithinBegins(Lines(Trim(patch)));
    BoundaryEnds(Lines(Trim(patch)));
    d := AcceptedLinesArePrinted(CheckLenient(Lines(Trim(patch))).lines);
  }

  lemma BoundaryEnds(lines: seq<string>)
    requires CheckLenient(lines).Within?
    ensures var body := CheckLenient(lines).lines; body != [] && Trim(Last(body)) == END_PATCH
  {
  }

  lemma StrippedLinesHaveNoNewline(lines: seq<string>)
    requires NewlineFree(lines)
    ensures NewlineFree(StripCrs(lines))
  {
    forall l | l in StripCrs(lines) ensures '\n' !in l {
      var i :| 0 <= i < |lines| && l == StripCr(lines[i]);
      assert lines[i] in lines;
    }
  }

  /** So every accepted result has a normal form: printing the document gives a patch text with
      the very same hunks and environment id. */
  lemma AcceptedPatchHasANormalForm(patch: string) returns (d: PatchDoc)
    requires ParsePatch(patch).Parsed?
    ensures Printable(d) && ParsePatch(PrintText(d)).Parsed?
    ensures ParsePatch(PrintText(d)).hunks == ParsePatch(patch).hunks
    ensures ParsePatch(PrintText(d)).environmentId == ParsePatch(patch).environmentId
  {
    d := AcceptedPatchIsPrinted(patch);
    PrintThenParse(d);
  }

  /** A second end marker without a newline is accepted behind every printed patch, although
      the same line with a newline is refused. */
  lemma SecondEndMarkerIsAccepted(d: PatchDoc)
    requires Printable(d)
    ensures var seen := HalfGuarded(PrintPatch(d));
      && ParseLines(seen + [END_PATCH]) == Parsed(Join(seen + [END_PATCH]), HunksOf(d.hunks), d.environmentId)
      && Push(INITIAL, Join(seen + [END_PATCH, ""])).error == Some(InvalidPatch(LastLineNotEnd))
  {
    var seen := HalfGuarded(PrintPatch(d));
    var end := RunWholePrint(d);
    PrintedPatchIsNewlineFree(d);
    GuardedLinesAreRestored(PrintPatch(d));
    SecondMarkerAtTheEnd(seen, end);
    SecondMarkerOnItsOwnLine(seen, end);
  }

  lemma SecondMarkerAtTheEnd(seen: seq<string>, end: ParserState)
    requires NewlineFree(seen) && RunLines(INITIAL, StripCrs(seen)) == Step(end, None)
    requires end.mode.EndedPatch? && end.lineBuffer == ""
    requires EmptinessError(end.(lineNumber := end.lineNumber + 1), END_PATCH).None?
    ensures ParseLines(seen + [END_PATCH]) == Parsed(Join(seen + [END_PATCH]), end.hunks, end.environmentId)
  {
    TrimOfInk(END_PATCH);
    PushLines(INITIAL, seen, END_PATCH);
  }

  lemma SecondMarkerOnItsOwnLine(seen: seq<string>, end: ParserState)
    requires NewlineFree(seen) && RunLines(INITIAL, StripCrs(seen)) == Step(end, None) && end.mode.EndedPatch?
    ensures Push(INITIAL, Join(seen + [END_PATCH, ""])).error == Some(InvalidPatch(LastLineNotEnd))
  {
    var all := seen + [END_PATCH];
    assert seen + [END_PATCH, ""] == all + [""];
    assert RunLines(INITIAL, StripCrs(all)).error == Some(InvalidPatch(LastLineNotEnd)) by {
      assert StripCrs(all) == StripCrs(seen) + [END_PATCH];
      RunSecondMarker(StripCrs(seen), end);
    }
    PushLines(INITIAL, all, "");
  }

  lemma RunSecondMarker(lines: seq<string>, end: ParserState)
    requires RunLines(INITIAL, lines) == Step(end, None) && end.mode.EndedPatch?
    ensures RunLines(INITIAL, lines + [END_PATCH]).error == Some(InvalidPatch(LastLineNotEnd))
  {
    TrimOfInk(END_PATCH);
    RunLinesAppend(INITIAL, lines, [END_PATCH]);
    assert [END_PATCH][1..] == [];
  }

  lemma RunWholePrint(d: PatchDoc) returns (end: ParserState)
    requires Printable(d)
    ensures RunLines(INITIAL, PrintPatch(d)) == Step(end, None)
    ensures end.mode.EndedPatch? && end.hunks == HunksOf(d.hunks) && end.environmentId == d.environmentId
    ensures EmptinessError(end.(lineNumber := end.lineNumber + 1), END_PATCH).None? && end.lineBuffer == ""
  {
    var body := [BEGIN_PATCH] + PrintEnvironment(d.environmentId) + PrintHunks(d.hunks);
    assert PrintPatch(d) == body + [END_PATCH];
    var st := RunPrinted(d);
    EndHeader(st);
    RunLinesAppend(INITIAL, body, [END_PATCH]);
    end := Moved(st, 1, st.hunks, EndedPatch);
  }
}
