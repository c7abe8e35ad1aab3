/** From a file's text to the patched text, and what a well-aimed update hunk means. */
module PatchMeaning {
  import opened Text
  import opened Patch
  import opened SeekSequence
  import opened ApplyPatch
  import EditOrder

  datatype Derived = NewText(text: string) | Failed(error: ApplyError)

  /** The lines the editor works on: the empty piece behind a final newline is no line. */
  function OriginalLines(contents: string): seq<string> {
    Chop(Split(contents))
  }

  /** The lines that are joined again. */
  function Closed(lines: seq<string>): seq<string> {
    if EndsBlank(lines) then lines else lines + [""]
  }

  /** The text written back: a final newline is added unless the last line is empty. */
  function FinalText(lines: seq<string>): string {
    Join(Closed(lines))
  }

  function Derive(contents: string, chunks: seq<Chunk>): Derived {
    var lines := OriginalLines(contents);
    match Replacements(lines, chunks)
    case Err(e) => Failed(e)
    case Ok(edits) =>
      ReplacementsAreSortedAndInBounds(lines, chunks);
      StartsAreInRange(lines, edits);
      NewText(FinalText(ApplyBackwards(lines, edits)))
  }

  lemma StartsAreInRange(lines: seq<string>, edits: seq<Edit>)
    requires InBounds(lines, edits)
    ensures forall e | e in edits :: e.start <= |lines|
  {
    forall e | e in edits ensures e.start <= |lines| { assert e.End() <= |lines|; }
  }

  /** The first part of `derive_new_contents`. */
  method SplitIntoLines(contents: string) returns (lines: seq<string>)
    ensures lines == OriginalLines(contents)
  {
    lines := Split(contents);
    if lines[|lines| - 1] == "" {
      lines := lines[..|lines| - 1];
    }
  }

  /** Its last part. */
  method WriteLines(lines: seq<string>) returns (text: string)
    ensures text == FinalText(lines)
  {
    var newLines := lines;
    if newLines == [] || newLines[|newLines| - 1] != "" {
      newLines := newLines + [""];
    }
    return Join(newLines);
  }

  /** `derive_new_contents`. No insertion of the edit loop can be out of range. */
  method DeriveNewContents(contents: string, chunks: seq<Chunk>) returns (r: Derived)
    ensures r == Derive(contents, chunks)
  {
    var lines := SplitIntoLines(contents);
    var replacements := ComputeReplacements(lines, chunks);
    if replacements.Err? {
      return Failed(replacements.error);
    }
    ReplacementsAreSortedAndInBounds(lines, chunks);
    StartsAreInRange(lines, replacements.value);
    var newLines := ApplyReplacements(lines, replacements.value);
    var text := WriteLines(newLines);
    return NewText(text);
  }

  // ---------------------------------------------------------------------------
  // The text around the edits
  // ---------------------------------------------------------------------------

  lemma FinalTextIsEmptyOrTerminated(lines: seq<string>)
    ensures FinalText(lines) == "" || Last(FinalText(lines)) == '\n'
  {
    var all := Closed(lines);
    var init := DropLast(all);
    assert all == init + [""];
    if init != [] {
      JoinAppend(init, [""]);
    }
  }

  /** Every patched text is empty or ends in a newline. */
  lemma DerivedTextIsEmptyOrTerminated(contents: string, chunks: seq<Chunk>)
    ensures var r := Derive(contents, chunks); r.NewText? ==> r.text == "" || Last(r.text) == '\n'
  {
    var lines := OriginalLines(contents);
    var r := Replacements(lines, chunks);
    if r.Ok? {
      ReplacementsAreSortedAndInBounds(lines, chunks);
      StartsAreInRange(lines, r.value);
      FinalTextIsEmptyOrTerminated(ApplyBackwards(lines, r.value));
    }
  }

  /** Reading the written text again gives the same lines, except that an empty last line is lost. */
  lemma FinalTextKeepsTheLines(lines: seq<string>)
    requires NewlineFree(lines)
    ensures OriginalLines(FinalText(lines)) == Chop(lines)
  {
    var all := Closed(lines);
    SplitOfJoin(all);
  }

  /** The text is empty, or ends in a newline that no empty line precedes. */
  predicate EndsInOneNewline(text: string) {
    var pieces := Split(text);
    Last(pieces) == "" && (|pieces| > 1 ==> pieces[|pieces| - 2] != "")
  }

  lemma PiecesAreClosedAgain(pieces: seq<string>)
    requires pieces != []
    ensures Closed(Chop(pieces)) == pieces <==>
      Last(pieces) == "" && (|pieces| > 1 ==> pieces[|pieces| - 2] != "")
  {
    if Last(pieces) == "" { assert pieces == Chop(pieces) + [""]; }
  }

  /** Writing a file's own lines gives it back exactly when it ends in one newline: a missing
      final newline is added, a blank last line goes. */
  lemma OwnLinesAreWrittenBack(contents: string)
    ensures FinalText(OriginalLines(contents)) == contents <==> EndsInOneNewline(contents)
  {
    var pieces := Split(contents);
    var lines := OriginalLines(contents);
    assert Split(FinalText(lines)) == Closed(lines) by {
      assert NewlineFree(lines) by { assert forall l | l in lines :: l in pieces; }
      SplitOfJoin(Closed(lines));
    }
    JoinOfSplit(contents);
    PiecesAreClosedAgain(pieces);
  }

  /** So a patch that leaves all lines of a file as they are gives the text back exactly then. */
  lemma UnchangedLinesKeepTheText(contents: string, chunks: seq<Chunk>)
    requires var r := Replacements(OriginalLines(contents), chunks);
      && r.Ok? && Sorted(r.value) && (forall e | e in r.value :: e.start <= |OriginalLines(contents)|)
      && ApplyBackwards(OriginalLines(contents), r.value) == OriginalLines(contents)
    ensures Derive(contents, chunks) == NewText(contents) <==> EndsInOneNewline(contents)
  {
    OwnLinesAreWrittenBack(contents);
  }

  // ---------------------------------------------------------------------------
  // Well-aimed chunks
  // ---------------------------------------------------------------------------

  /** A chunk, whose old lines are a stretch of the file, and the kept stretch that follows it. */
  datatype Block = Block(chunk: Chunk, keep: seq<string>)

  function Before(bs: seq<Block>): seq<string> {
    if bs == [] then [] else bs[0].chunk.oldLines + bs[0].keep + Before(bs[1..])
  }

  function After(bs: seq<Block>): seq<string> {
    if bs == [] then [] else bs[0].chunk.newLines + bs[0].keep + After(bs[1..])
  }

  function ChunksFor(bs: seq<Block>): seq<Chunk> {
    if bs == [] then [] else [bs[0].chunk] + ChunksFor(bs[1..])
  }

  function EditsFor(bs: seq<Block>, at: nat): seq<Edit>
    decreases |bs|
  {
    if bs == [] then []
    else
      var c := bs[0].chunk;
      [Edit(at, |c.oldLines|, c.newLines)] + EditsFor(bs[1..], at + |c.oldLines| + |bs[0].keep|)
  }

  /** Where `pattern` first stands in `lines` at or behind `from`; behind the end if nowhere. */
  function FirstExact(lines: seq<string>, pattern: seq<string>, from: nat): nat
    decreases |lines| - from
  {
    if from + |pattern| > |lines| then |lines| + from
    else if lines[from..from + |pattern|] == pattern then from
    else if from == |lines| then |lines| + from
    else FirstExact(lines, pattern, from + 1)
  }

  /** Behind the first line that is the context, or the cursor itself. */
  function Behind(lines: seq<string>, context: Option<string>, cursor: nat): nat {
    if context.Some? then FirstExact(lines, [context.value], cursor) + 1 else cursor
  }

  /** Each stretch is not empty, and its first exact occurrence behind its context, itself looked for
      from the end of the previous stretch (`cursor`), is its own position (`at`), or it is the end of
      the file. */
  predicate WellAimed(lines: seq<string>, bs: seq<Block>, cursor: nat, at: nat) {
    AimedUpTo(lines, bs, cursor, at).Some?
  }

  /** Where the last stretch ends, if all are aimed. */
  function AimedUpTo(lines: seq<string>, bs: seq<Block>, cursor: nat, at: nat): Option<nat>
    decreases |bs|
  {
    if bs == [] then Some(cursor)
    else if bs[0].chunk.oldLines == [] || !AimedAt(lines, bs[0].chunk, cursor, at) then None
    else
      var end := at + |bs[0].chunk.oldLines|;
      AimedUpTo(lines, bs[1..], end, end + |bs[0].keep|)
  }

  predicate AimedAt(lines: seq<string>, c: Chunk, cursor: nat, at: nat) {
    var from := Behind(lines, c.changeContext, cursor);
    && (c.changeContext.Some? ==> from <= |lines|)
    && (if c.isEndOfFile then at + |c.oldLines| == |lines|
        else FirstExact(lines, c.oldLines, from) == at)
  }

  lemma ExactOccurrenceIsFound(lines: seq<string>, pattern: seq<string>, cursor: nat, at: nat)
    requires pattern != [] && cursor <= at
    requires at + |pattern| <= |lines| && lines[at..at + |pattern|] == pattern
    requires NoneBetween(Exact, lines, pattern, cursor, at)
    ensures Seek(lines, pattern, cursor, false) == Some(at)
  {
    assert OccursAt(Exact, lines, pattern, at) by {
      forall p: nat | p < |pattern| ensures AgreesAt(Exact, lines, pattern, at, p) {
        assert lines[at..at + |pattern|][p] == pattern[p];
      }
    }
    FindFromIsFirst(Exact, lines, pattern, cursor);
    var r := FindFrom(Exact, lines, pattern, cursor);
    assert r.Some? && r.value == at;
  }

  lemma {:induction false} SliceOfTail(lines: seq<string>, at: nat, i: nat, j: nat)
    requires i <= j && at + j <= |lines|
    ensures lines[at..][i..j] == lines[at + i..at + j]
  {
  }

  /** Where the parts of a stretch are in the file. */
  lemma {:induction false} Parts(lines: seq<string>, at: nat, b: Block, rest: seq<string>)
    requires at <= |lines| && lines[at..] == b.chunk.oldLines + b.keep + rest
    ensures var end := at + |b.chunk.oldLines|;
      && end + |b.keep| <= |lines|
      && lines[at..end] == b.chunk.oldLines
      && lines[end..end + |b.keep|] == b.keep
      && lines[end + |b.keep|..] == rest
  {
    var n, k := |b.chunk.oldLines|, |b.keep|;
    SliceOfTail(lines, at, 0, n);
    SliceOfTail(lines, at, n, n + k);
    SliceOfTail(lines, at, n + k, |lines| - at);
  }

  lemma {:induction false} FirstExactIsFirst(lines: seq<string>, pattern: seq<string>, from: nat)
    requires pattern != []
    ensures var i := FirstExact(lines, pattern, from);
      i + |pattern| <= |lines| ==>
        && from <= i && lines[i..i + |pattern|] == pattern
        && NoneBetween(Exact, lines, pattern, from, i)
    decreases |lines| - from
  {
    if from + |pattern| <= |lines| && lines[from..from + |pattern|] != pattern {
      assert !OccursAt(Exact, lines, pattern, from) by {
        if OccursAt(Exact, lines, pattern, from) { OccurrenceIsExact(lines, pattern, from); }
      }
      FirstExactIsFirst(lines, pattern, from + 1);
    }
  }

  lemma {:induction false} OccurrenceIsExact(lines: seq<string>, pattern: seq<string>, i: nat)
    requires OccursAt(Exact, lines, pattern, i)
    ensures lines[i..i + |pattern|] == pattern
  {
    forall p | 0 <= p < |pattern| ensures lines[i..i + |pattern|][p] == pattern[p] {
      assert AgreesAt(Exact, lines, pattern, i, p);
    }
  }

  lemma {:induction false} FirstExactIsFound(lines: seq<string>, pattern: seq<string>, from: nat)
    requires pattern != [] && FirstExact(lines, pattern, from) + |pattern| <= |lines|
    ensures Seek(lines, pattern, from, false) == Some(FirstExact(lines, pattern, from))
  {
    FirstExactIsFirst(lines, pattern, from);
    ExactOccurrenceIsFound(lines, pattern, from, FirstExact(lines, pattern, from));
  }

  /** With the end of the file asked for, an exact match there is found wherever one starts. */
  lemma ExactEndIsFound(lines: seq<string>, pattern: seq<string>, cursor: nat, at: nat)
    requires pattern != [] && at + |pattern| == |lines| && lines[at..at + |pattern|] == pattern
    ensures Seek(lines, pattern, cursor, true) == Some(at)
  {
    ExactOccurrenceIsFound(lines, pattern, at, at);
    assert Seek(lines, pattern, cursor, true) == Seek(lines, pattern, at, false);
  }

  lemma {:induction false} WellAimedChunkIsLocated(lines: seq<string>, c: Chunk, cursor: nat, at: nat)
    requires c.oldLines != [] && at + |c.oldLines| <= |lines|
    requires lines[at..at + |c.oldLines|] == c.oldLines && AimedAt(lines, c, cursor, at)
    ensures Locate(lines, c, cursor) == At(Edit(at, |c.oldLines|, c.newLines), at + |c.oldLines|)
  {
    var from := Behind(lines, c.changeContext, cursor);
    if c.changeContext.Some? { FirstExactIsFound(lines, [c.changeContext.value], cursor); }
    assert AfterContext(lines, c, cursor) == Some(from);
    if c.isEndOfFile {
      ExactEndIsFound(lines, c.oldLines, from, at);
    } else {
      FirstExactIsFound(lines, c.oldLines, from);
    }
  }

  lemma LocateFirst(lines: seq<string>, c: Chunk, chunks: seq<Chunk>, cursor: nat, e: Edit, next: nat, edits: seq<Edit>)
    requires Locate(lines, c, cursor) == At(e, next)
    requires LocateAll(lines, chunks, next) == Ok(edits)
    ensures LocateAll(lines, [c] + chunks, cursor) == Ok([e] + edits)
  {
    assert ([c] + chunks)[1..] == chunks;
  }

  lemma {:induction false} FirstOfBlocks(bs: seq<Block>, at: nat)
    requires bs != []
    ensures var c, end := bs[0].chunk, at + |bs[0].chunk.oldLines|;
      && ChunksFor(bs) != [] && ChunksFor(bs)[0] == c && ChunksFor(bs)[1..] == ChunksFor(bs[1..])
      && EditsFor(bs, at) != [] && EditsFor(bs, at)[0] == Edit(at, |c.oldLines|, c.newLines)
      && EditsFor(bs, at)[1..] == EditsFor(bs[1..], end + |bs[0].keep|)
  {
  }

  lemma {:induction false} LocateAllSteps(
    lines: seq<string>, chunks: seq<Chunk>, cursor: nat, edits: seq<Edit>, next: nat)
    requires chunks != [] && edits != [] && Locate(lines, chunks[0], cursor) == At(edits[0], next)
    requires LocateAll(lines, chunks[1..], next) == Ok(edits[1..])
    ensures LocateAll(lines, chunks, cursor) == Ok(edits)
  {
    assert [edits[0]] + edits[1..] == edits;
  }

  lemma {:induction false} WellAimedChunksAreLocated(lines: seq<string>, bs: seq<Block>, cursor: nat, at: nat)
    requires at <= |lines| && lines[at..] == Before(bs) && WellAimed(lines, bs, cursor, at)
    ensures LocateAll(lines, ChunksFor(bs), cursor) == Ok(EditsFor(bs, at))
    decreases |bs|
  {
    if bs != [] {
      var end := at + |bs[0].chunk.oldLines|;
      Parts(lines, at, bs[0], Before(bs[1..]));
      WellAimedChunksAreLocated(lines, bs[1..], end, end + |bs[0].keep|);
      WellAimedChunkIsLocated(lines, bs[0].chunk, cursor, at);
      FirstOfBlocks(bs, at);
      LocateAllSteps(lines, ChunksFor(bs), cursor, EditsFor(bs, at), end);
    }
  }

  lemma {:induction false} SpliceFirst(lines: seq<string>, cursor: nat, e: Edit, rest: seq<Edit>)
    requires cursor <= e.start && Apart(rest, e.End(), |lines|)
    ensures Apart([e] + rest, cursor, |lines|) && e.End() <= |lines|
    ensures Splice(lines, cursor, [e] + rest) == lines[cursor..e.start] + e.newLines + Splice(lines, e.End(), rest)
  {
    assert ([e] + rest)[1..] == rest;
    ApartIsPairwise(rest, e.End(), |lines|);
  }

  /** Splicing the blocks' edits in leaves every kept stretch alone. */
  lemma {:induction false} SplicingBlocks(lines: seq<string>, bs: seq<Block>, cursor: nat, at: nat)
    requires cursor <= at <= |lines| && lines[at..] == Before(bs)
    ensures Apart(EditsFor(bs, at), cursor, |lines|)
    ensures Splice(lines, cursor, EditsFor(bs, at)) == lines[cursor..at] + After(bs)
    decreases |bs|
  {
    if bs == [] {
      assert lines[cursor..] == lines[cursor..at] + lines[at..];
    } else {
      var b := bs[0];
      var end := at + |b.chunk.oldLines|;
      Parts(lines, at, b, Before(bs[1..]));
      SplicingBlocks(lines, bs[1..], end, end + |b.keep|);
      SplicingFirstBlock(lines, bs, cursor, at);
    }
  }

  lemma {:induction false} Regroup(a: seq<string>, b: seq<string>, c: seq<string>, d: seq<string>)
    ensures a + b + (c + d) == a + (b + c + d)
  {
  }

  lemma {:induction false} SplicingFirstBlock(lines: seq<string>, bs: seq<Block>, cursor: nat, at: nat)
    requires bs != [] && cursor <= at && at + |bs[0].chunk.oldLines| <= |lines|
    requires var b, end := bs[0], at + |bs[0].chunk.oldLines|;
      Apart(EditsFor(bs[1..], end + |b.keep|), end, |lines|)
      && Splice(lines, end, EditsFor(bs[1..], end + |b.keep|)) == b.keep + After(bs[1..])
    ensures Apart(EditsFor(bs, at), cursor, |lines|)
    ensures Splice(lines, cursor, EditsFor(bs, at)) == lines[cursor..at] + After(bs)
  {
    var b, end, gap := bs[0], at + |bs[0].chunk.oldLines|, lines[cursor..at];
    var e, rest := Edit(at, |b.chunk.oldLines|, b.chunk.newLines), EditsFor(bs[1..], end + |b.keep|);
    assert EditsFor(bs, at) == [e] + rest;
    Regroup(gap, b.chunk.newLines, b.keep, After(bs[1..]));
    SpliceFirst(lines, cursor, e, rest);
  }

  /** End-to-end meaning: a file with the lines k0·o1·k1·…·om·km, patched with well-aimed chunks
      oi → ni, with or without context lines, becomes the text of k0·n1·k1·…·nm·km. */
  lemma PatchMeansReplacement(contents: string, k0: seq<string>, bs: seq<Block>)
    requires OriginalLines(contents) == k0 + Before(bs)
    requires WellAimed(k0 + Before(bs), bs, 0, |k0|)
    ensures Derive(contents, ChunksFor(bs)) == NewText(FinalText(k0 + After(bs)))
  {
    var lines := OriginalLines(contents);
    var edits := EditsFor(bs, |k0|);
    assert lines[|k0|..] == Before(bs) && lines[0..|k0|] == k0;
    WellAimedChunksAreLocated(lines, bs, 0, |k0|);
    SplicingBlocks(lines, bs, 0, |k0|);
    ApartIsSorted(edits, 0, |lines|);
    SortedIsFixed(edits);
    BackwardsIsSplice(lines, 0, edits);
    assert lines[..0] + Splice(lines, 0, edits) == k0 + After(bs);
  }

  /** The blocks replace every stretch by itself. */
  predicate Keeps(bs: seq<Block>) {
    forall b | b in bs :: b.chunk.newLines == b.chunk.oldLines
  }

  lemma {:induction false} KeepingBlocks(bs: seq<Block>)
    requires Keeps(bs)
    ensures After(bs) == Before(bs)
  {
    if bs != [] {
      assert bs[0] in bs;
      KeepingBlocks(bs[1..]);
    }
  }

  /** Such a patch: context lines only, well aimed. */
  lemma ContextOnlyPatchKeepsTheText(contents: string, k0: seq<string>, bs: seq<Block>)
    requires OriginalLines(contents) == k0 + Before(bs) && Keeps(bs)
    requires WellAimed(k0 + Before(bs), bs, 0, |k0|)
    ensures Derive(contents, ChunksFor(bs)) == NewText(contents) <==> EndsInOneNewline(contents)
  {
    PatchMeansReplacement(contents, k0, bs);
    KeepingBlocks(bs);
    OwnLinesAreWrittenBack(contents);
  }

  /** For orderly chunks, wherever they were found, the result is one forward splice. */
  lemma OrderlyPatchIsASplice(contents: string, chunks: seq<Chunk>)
    requires Orderly(OriginalLines(contents), chunks)
    ensures var lines := OriginalLines(contents);
      var r := Replacements(lines, chunks);
      r.Ok? ==>
        && Apart(r.value, 0, |lines|)
        && Derive(contents, chunks) == NewText(FinalText(Splice(lines, 0, r.value)))
  {
    var lines := OriginalLines(contents);
    var r := Replacements(lines, chunks);
    OrderlyReplacementsAreDisjoint(lines, chunks);
    if r.Ok? {
      ApartIsSorted(r.value, 0, |lines|);
      BackwardsIsSplice(lines, 0, r.value);
      assert lines[..0] + Splice(lines, 0, r.value) == Splice(lines, 0, r.value);
    }
  }

  /** The same whenever the chunks fit, end-of-file chunks and additions before a blank last line
      included. */
  lemma FittingPatchIsASplice(contents: string, chunks: seq<Chunk>)
    ensures var lines := OriginalLines(contents);
      var located, r := LocateAll(lines, chunks, 0), Replacements(lines, chunks);
      r.Ok? ==>
        && located.Ok? && |located.value| == |chunks|
        && (EditOrder.Fitting(lines, chunks, located.value) ==>
              && Apart(r.value, 0, |lines|)
              && Derive(contents, chunks) == NewText(FinalText(Splice(lines, 0, r.value))))
  {
    var lines := OriginalLines(contents);
    var r := Replacements(lines, chunks);
    EditOrder.ReplacementsAreDisjointExactlyWhen(lines, chunks);
    if r.Ok? && Apart(r.value, 0, |lines|) {
      ApartIsSorted(r.value, 0, |lines|);
      BackwardsIsSplice(lines, 0, r.value);
      assert lines[..0] + Splice(lines, 0, r.value) == Splice(lines, 0, r.value);
    }
  }

  // ---------------------------------------------------------------------------
  // Where order is needed
  // ---------------------------------------------------------------------------

  lemma TwoChunksAreReplaced(lines: seq<string>, c1: Chunk, e1: Edit, cursor: nat, c2: Chunk, e2: Edit, end: nat)
    requires Locate(lines, c1, 0) == At(e1, cursor) && Locate(lines, c2, cursor) == At(e2, end)
    requires e1.start <= e2.start
    ensures Replacements(lines, [c1, c2]) == Ok([e1, e2])
  {
    assert LocateAll(lines, [c1] + ([c2] + []), 0) == Ok([e1] + ([e2] + [])) by {
      LocateFirst(lines, c2, [], cursor, e2, end, []);
      LocateFirst(lines, c1, [c2] + [], 0, e1, cursor, [e2] + []);
    }
    assert [c1] + ([c2] + []) == [c1, c2] && [e1] + ([e2] + []) == [e1, e2];
    SortedIsFixed([e1, e2]);
  }

  lemma TwoEditsApply(lines: seq<string>, e1: Edit, e2: Edit, between: seq<string>)
    requires e1.start <= e2.start <= |lines| && between == ApplyOne(lines, e2) && e1.start <= |between|
    ensures ApplyBackwards(lines, [e1, e2]) == ApplyOne(between, e1)
  {
    assert [e1, e2][1..] == [e2] && [e2][1..] == [];
    assert ApplyBackwards(lines, [e2]) == between;
  }

  lemma FirstOfTheOverlap()
    ensures Locate(["x", "a"], Chunk(None, ["a"], ["p"], false), 0) == At(Edit(1, 1, ["p"]), 2)
  {
    assert !AgreesAt(Exact, ["x", "a"], ["a"], 0, 0);
    ExactOccurrenceIsFound(["x", "a"], ["a"], 0, 1);
  }

  lemma SecondOfTheOverlap()
    ensures Locate(["x", "a"], Chunk(None, ["a"], ["q"], true), 2) == At(Edit(1, 1, ["q"]), 2)
  {
    EofMatchesBeforeTheCursor();
  }

  /** An end-of-file chunk may hit lines an earlier chunk has replaced; of the two
      replacements of one line only the earlier chunk's survives. */
  lemma EndOfFileChunksMayOverlap()
    ensures var lines := ["x", "a"];
      var chunks := [Chunk(None, ["a"], ["p"], false), Chunk(None, ["a"], ["q"], true)];
      var edits := [Edit(1, 1, ["p"]), Edit(1, 1, ["q"])];
      && Replacements(lines, chunks) == Ok(edits)
      && !Apart(edits, 0, |lines|)
      && ApplyBackwards(lines, edits) == ["x", "p"]
  {
    var lines := ["x", "a"];
    var c1, c2 := Chunk(None, ["a"], ["p"], false), Chunk(None, ["a"], ["q"], true);
    var e1, e2 := Edit(1, 1, ["p"]), Edit(1, 1, ["q"]);
    assert Replacements(lines, [c1, c2]) == Ok([e1, e2]) by {
      FirstOfTheOverlap();
      SecondOfTheOverlap();
      TwoChunksAreReplaced(lines, c1, e1, 2, c2, e2, 2);
    }
    assert ApplyBackwards(lines, [e1, e2]) == ["x", "p"] by { TwoEditsApply(lines, e1, e2, ["x", "q"]); }
  }

  /** A pure addition before a blank last line may fall inside another chunk's lines: the
      added line is removed with them, and the blank line that chunk removes stays. */
  lemma AdditionsBeforeABlankEndMayOverlap()
    ensures var lines := ["a", ""];
      var chunks := [Chunk(None, ["a", ""], ["b"], false), Chunk(None, [], ["c"], false)];
      var edits := [Edit(0, 2, ["b"]), Edit(1, 0, ["c"])];
      && Replacements(lines, chunks) == Ok(edits)
      && !Apart(edits, 0, |lines|)
      && ApplyBackwards(lines, edits) == ["b", ""]
  {
    var lines := ["a", ""];
    var c1, c2 := Chunk(None, ["a", ""], ["b"], false), Chunk(None, [], ["c"], false);
    assert lines[0..2] == lines;
    ExactOccurrenceIsFound(lines, ["a", ""], 0, 0);
    var e1, e2 := Edit(0, 2, ["b"]), Edit(1, 0, ["c"]);
    TwoChunksAreReplaced(lines, c1, e1, 2, c2, e2, 2);
    TwoEditsApply(lines, e1, e2, ["a", "c", ""]);
  }
}
