/** A printer written from the documented grammar, and the hunks a printed patch stands for. */
module PatchPrinter {
  import opened Text
  import opened Patch
  import opened WellFormed

  /** A line of a chunk; `Bare` is an empty context line printed without its leading blank. */
  datatype BodyLine = Keep(text: string) | Remove(text: string) | Insert(text: string) | Bare

  /** Only the first chunk of a hunk may leave its context marker out. */
  datatype Header = Implicit | Anywhere | At(context: string)

  datatype ChunkDoc = ChunkDoc(header: Header, body: seq<BodyLine>, atEndOfFile: bool)

  datatype HunkDoc =
    | Add(path: string, lines: seq<string>)
    | Delete(path: string)
    | Update(path: string, moveTo: Option<string>, chunks: seq<ChunkDoc>)

  datatype PatchDoc = PatchDoc(environmentId: Option<string>, hunks: seq<HunkDoc>)

  // ---------------------------------------------------------------------------
  // Printing
  // ---------------------------------------------------------------------------

  function PrintBodyLine(b: BodyLine): string {
    match b
    case Keep(text) => " " + text
    case Remove(text) => "-" + text
    case Insert(text) => "+" + text
    case Bare => ""
  }

  function PrintBody(body: seq<BodyLine>): seq<string> {
    if body == [] then [] else [PrintBodyLine(body[0])] + PrintBody(body[1..])
  }

  function PrintHeader(h: Header): seq<string> {
    match h
    case Implicit => []
    case Anywhere => [EMPTY_CHANGE_CONTEXT]
    case At(context) => [CHANGE_CONTEXT + context]
  }

  function PrintChunk(c: ChunkDoc): seq<string> {
    PrintHeader(c.header) + PrintBody(c.body) + if c.atEndOfFile then [EOF_MARKER] else []
  }

  function PrintChunks(cs: seq<ChunkDoc>): seq<string> {
    if cs == [] then [] else PrintChunk(cs[0]) + PrintChunks(cs[1..])
  }

  function PrintAdded(lines: seq<string>): seq<string> {
    if lines == [] then [] else ["+" + lines[0]] + PrintAdded(lines[1..])
  }

  function PrintMove(moveTo: Option<string>): seq<string> {
    if moveTo.Some? then [MOVE_TO + moveTo.value] else []
  }

  function PrintHunk(h: HunkDoc): seq<string> {
    match h
    case Add(path, lines) => [ADD_FILE + path] + PrintAdded(lines)
    case Delete(path) => [DELETE_FILE + path]
    case Update(path, moveTo, chunks) => [UPDATE_FILE + path] + PrintMove(moveTo) + PrintChunks(chunks)
  }

  function PrintHunks(hs: seq<HunkDoc>): seq<string> {
    if hs == [] then [] else PrintHunk(hs[0]) + PrintHunks(hs[1..])
  }

  function PrintEnvironment(id: Option<string>): seq<string> {
    if id.Some? then [ENVIRONMENT_ID + " " + id.value] else []
  }

  function PrintPatch(d: PatchDoc): seq<string> {
    [BEGIN_PATCH] + PrintEnvironment(d.environmentId) + PrintHunks(d.hunks) + [END_PATCH]
  }

  // ---------------------------------------------------------------------------
  // Meaning
  // ---------------------------------------------------------------------------

  /** The file lines a body line expects to find. */
  function OldLines(body: seq<BodyLine>): seq<string> {
    if body == [] then []
    else
      (match body[0]
       case Keep(text) => [text]
       case Remove(text) => [text]
       case Insert(_) => []
       case Bare => [""]) + OldLines(body[1..])
  }

  /** The file lines a body line leaves behind. */
  function NewLines(body: seq<BodyLine>): seq<string> {
    if body == [] then []
    else
      (match body[0]
       case Keep(text) => [text]
       case Remove(_) => []
       case Insert(text) => [text]
       case Bare => [""]) + NewLines(body[1..])
  }

  function ContextOf(h: Header): Option<string> {
    if h.At? then Some(h.context) else None
  }

  function ChunkOf(c: ChunkDoc): Chunk {
    Chunk(ContextOf(c.header), OldLines(c.body), NewLines(c.body), c.atEndOfFile)
  }

  function ChunksOf(cs: seq<ChunkDoc>): (r: seq<Chunk>)
    ensures |r| == |cs|
  {
    if cs == [] then [] else [ChunkOf(cs[0])] + ChunksOf(cs[1..])
  }

  function ContentsOf(lines: seq<string>): string {
    if lines == [] then "" else lines[0] + "\n" + ContentsOf(lines[1..])
  }

  function HunkOf(h: HunkDoc): Hunk {
    match h
    case Add(path, lines) => AddFile(path, ContentsOf(lines))
    case Delete(path) => DeleteFile(path)
    case Update(path, moveTo, chunks) => UpdateFile(path, moveTo, ChunksOf(chunks))
  }

  function HunksOf(hs: seq<HunkDoc>): seq<Hunk> {
    if hs == [] then [] else [HunkOf(hs[0])] + HunksOf(hs[1..])
  }

  // ---------------------------------------------------------------------------
  // Which documents can be printed
  // ---------------------------------------------------------------------------

  predicate PrintableBodyLine(b: BodyLine) {
    b.Bare? || '\n' !in b.text
  }

  /** What the documented grammar lets one write: a chunk may be a marker without lines. */
  predicate WrittenChunk(c: ChunkDoc) {
    && (c.header.At? ==> CleanName(c.header.context))
    && (c.body == [] ==> !c.header.Implicit?)
    && forall b | b in c.body :: PrintableBodyLine(b)
  }

  predicate WrittenChunks(cs: seq<ChunkDoc>) {
    && (forall c | c in cs :: WrittenChunk(c))
    && (forall i | 0 < i < |cs| :: !cs[i].header.Implicit?)
  }

  /** And an update may have no chunk. */
  predicate WrittenHunk(h: HunkDoc) {
    CleanName(h.path) &&
    match h
    case Add(_, lines) => NewlineFree(lines)
    case Delete(_) => true
    case Update(_, moveTo, chunks) => (moveTo.Some? ==> CleanName(moveTo.value)) && WrittenChunks(chunks)
  }

  predicate Written(d: PatchDoc) {
    && (d.environmentId.Some? ==> CleanName(d.environmentId.value) && StartsInk(d.environmentId.value))
    && forall h | h in d.hunks :: WrittenHunk(h)
  }

  predicate PrintableChunk(c: ChunkDoc) {
    WrittenChunk(c) && c.body != []
  }

  predicate PrintableChunks(cs: seq<ChunkDoc>) {
    WrittenChunks(cs) && forall c | c in cs :: PrintableChunk(c)
  }

  /** Every update has a chunk and every chunk a line. */
  predicate PrintableHunk(h: HunkDoc) {
    WrittenHunk(h) && (h.Update? ==> h.chunks != [] && PrintableChunks(h.chunks))
  }

  predicate Printable(d: PatchDoc) {
    Written(d) && forall h | h in d.hunks :: PrintableHunk(h)
  }

  // ---------------------------------------------------------------------------
  // The text of a patch
  // ---------------------------------------------------------------------------

  /** A line on its way into a patch text. Parsing takes a carriage return off the end of a line
      twice, so a line that ends in one is given two more. */
  function Guard(l: string): string {
    if StripCr(l) == l then l else l + "\r\r"
  }

  function Guarded(lines: seq<string>): (r: seq<string>)
    ensures |r| == |lines|
    ensures forall i | 0 <= i < |lines| :: r[i] == Guard(lines[i])
  {
    seq(|lines|, i requires 0 <= i < |lines| => Guard(lines[i]))
  }

  function PrintText(d: PatchDoc): string {
    Join(Guarded(PrintPatch(d)))
  }

  /** The guarded lines after the first of the two strips. */
  function HalfGuarded(lines: seq<string>): seq<string> {
    StripCrs(Guarded(lines))
  }

  lemma GuardedLinesAreRestored(lines: seq<string>)
    ensures StripCrs(HalfGuarded(lines)) == lines
    ensures NewlineFree(lines) ==> NewlineFree(Guarded(lines)) && NewlineFree(HalfGuarded(lines))
  {
    forall i | 0 <= i < |lines| ensures StripCr(StripCr(Guard(lines[i]))) == lines[i] {
      var l := lines[i];
      if StripCr(l) != l { assert StripCr(l + "\r\r") == l + "\r" && StripCr(l + "\r") == l; }
    }
    if NewlineFree(lines) {
      forall i | 0 <= i < |lines| ensures '\n' !in Guarded(lines)[i] && '\n' !in HalfGuarded(lines)[i] {
        assert lines[i] in lines;
      }
    }
  }

  /** Lines that do not end in a carriage return are written as they are. */
  lemma PlainLinesNeedNoGuard(lines: seq<string>)
    requires StripCrs(lines) == lines
    ensures Guarded(lines) == lines && HalfGuarded(lines) == lines
  {
    forall i | 0 <= i < |lines| ensures Guarded(lines)[i] == lines[i] {
      assert StripCrs(lines)[i] == StripCr(lines[i]);
    }
  }

  // ---------------------------------------------------------------------------
  // Printed lines hold no newline
  // ---------------------------------------------------------------------------

  lemma {:induction false} PrintedBodyIsNewlineFree(body: seq<BodyLine>)
    requires forall b | b in body :: PrintableBodyLine(b)
    ensures NewlineFree(PrintBody(body))
  {
    if body != [] {
      assert PrintableBodyLine(body[0]);
      PrintedBodyIsNewlineFree(body[1..]);
    }
  }

  lemma {:induction false} PrintedChunksAreNewlineFree(cs: seq<ChunkDoc>)
    requires forall c | c in cs :: WrittenChunk(c)
    ensures NewlineFree(PrintChunks(cs))
  {
    if cs != [] {
      assert WrittenChunk(cs[0]);
      PrintedBodyIsNewlineFree(cs[0].body);
      PrintedChunksAreNewlineFree(cs[1..]);
    }
  }

  lemma {:induction false} PrintedAddedAreNewlineFree(lines: seq<string>)
    requires NewlineFree(lines)
    ensures NewlineFree(PrintAdded(lines))
  {
    if lines != [] { PrintedAddedAreNewlineFree(lines[1..]); }
  }

  lemma NewlineFreeTogether(a: seq<string>, b: seq<string>)
    requires NewlineFree(a) && NewlineFree(b)
    ensures NewlineFree(a + b)
  {
  }

  lemma PrintedHunkIsNewlineFree(h: HunkDoc)
    requires WrittenHunk(h)
    ensures NewlineFree(PrintHunk(h))
  {
    match h
    case Add(path, lines) =>
      PrintedAddedAreNewlineFree(lines);
      NewlineFreeTogether([ADD_FILE + path], PrintAdded(lines));
    case Delete(_) =>
    case Update(path, moveTo, chunks) =>
      PrintedChunksAreNewlineFree(chunks);
      NewlineFreeTogether([UPDATE_FILE + path], PrintMove(moveTo));
      NewlineFreeTogether([UPDATE_FILE + path] + PrintMove(moveTo), PrintChunks(chunks));
  }

  lemma {:induction false} PrintedHunksAreNewlineFree(hs: seq<HunkDoc>)
    requires forall h | h in hs :: WrittenHunk(h)
    ensures NewlineFree(PrintHunks(hs))
  {
    if hs != [] {
      PrintedHunkIsNewlineFree(hs[0]);
      PrintedHunksAreNewlineFree(hs[1..]);
    }
  }

  lemma PrintedPatchIsNewlineFree(d: PatchDoc)
    requires Written(d)
    ensures NewlineFree(PrintPatch(d))
  {
    var preamble := [BEGIN_PATCH] + PrintEnvironment(d.environmentId);
    PrintedHunksAreNewlineFree(d.hunks);
    NewlineFreeTogether([BEGIN_PATCH], PrintEnvironment(d.environmentId));
    NewlineFreeTogether(preamble, PrintHunks(d.hunks));
    NewlineFreeTogether(preamble + PrintHunks(d.hunks), [END_PATCH]);
  }
}
