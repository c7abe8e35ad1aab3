/** Where a chunk is applied and what it puts there, in terms of the text of the lines. */
module ChunkPlaces {
  import opened Text
  import opened Patch
  import opened SeekSequence
  import opened LineMatching
  import opened ApplyPatch
  import opened PatchMeaning

  /** The search for the old lines starts at `from`: at the cursor, or right behind the context. */
  predicate StartsFrom(lines: seq<string>, c: Chunk, cursor: nat, from: nat) {
    match c.changeContext
    case None => from == cursor
    case Some(context) => from > 0 && Seek(lines, [context], cursor, false) == Some(from - 1)
  }

  /** Old lines that are found, at `whole`, are replaced by the new ones. Old lines that end in a blank
      one and are not found are tried without it, and found at `shorter`; then a blank last new line
      is dropped as well. */
  predicate Replaces(c: Chunk, whole: Option<nat>, shorter: Option<nat>, e: Edit) {
    var olds, news := c.oldLines, c.newLines;
    || (whole == Some(e.start) && e.oldLen == |olds| && e.newLines == news)
    || (whole == None && olds != [] && olds[|olds| - 1] == ""
        && shorter == Some(e.start) && e.oldLen == |olds| - 1
        && e.newLines == if news != [] && news[|news| - 1] == "" then news[..|news| - 1] else news)
  }

  /** They are missing, with a blank last line and without it. */
  predicate Missing(c: Chunk, whole: Option<nat>, shorter: Option<nat>) {
    whole == None && c.oldLines != [] && (c.oldLines[|c.oldLines| - 1] == "" ==> shorter == None)
  }

  /** A chunk without old lines adds its new ones at the end, before a blank last line. */
  predicate Adds(lines: seq<string>, c: Chunk, e: Edit) {
    && e.start == (if lines != [] && lines[|lines| - 1] == "" then |lines| - 1 else |lines|)
    && e.oldLen == 0 && e.newLines == c.newLines
  }

  /** The chunk becomes the edit `e`, and the search for the next one goes on at `next`. */
  ghost predicate Lands(lines: seq<string>, c: Chunk, cursor: nat, e: Edit, next: nat) {
    exists from: nat :: StartsFrom(lines, c, cursor, from) && LandsFrom(lines, c, from, e, next)
  }

  predicate LandsFrom(lines: seq<string>, c: Chunk, from: nat, e: Edit, next: nat) {
    if c.oldLines == [] then Adds(lines, c, e) && next == from
    else
      && Replaces(c, Seek(lines, c.oldLines, from, c.isEndOfFile),
                  Seek(lines, c.oldLines[..|c.oldLines| - 1], from, c.isEndOfFile), e)
      && next == e.start + e.oldLen
  }

  lemma {:induction false} ContextGivesTheStart(lines: seq<string>, c: Chunk, cursor: nat, from: nat)
    ensures StartsFrom(lines, c, cursor, from) <==> AfterContext(lines, c, cursor) == Some(from)
  {
    match c.changeContext
    case None =>
    case Some(context) =>
      var r := Seek(lines, [context], cursor, false);
      assert AfterContext(lines, c, cursor) == if r.Some? then Some(r.value + 1) else None;
  }

  /** The edit, when the old lines were found at `whole`, and without their last line at `shorter`. */
  function EditFor(c: Chunk, whole: Option<nat>, shorter: Option<nat>): Located
    requires c.oldLines != []
  {
    var wanted := c.oldLines;
    if whole.Some? then At(Edit(whole.value, |wanted|, c.newLines), whole.value + |wanted|)
    else if Last(wanted) == "" && shorter.Some? then
      At(Edit(shorter.value, |wanted| - 1, Chop(c.newLines)), shorter.value + |wanted| - 1)
    else Lost(LinesNotFound(wanted))
  }

  lemma {:induction false} LocatedIsEditFor(lines: seq<string>, c: Chunk, from: nat)
    requires c.oldLines != []
    ensures LocateOldLines(lines, c, from)
         == EditFor(c, Seek(lines, c.oldLines, from, c.isEndOfFile),
                    Seek(lines, c.oldLines[..|c.oldLines| - 1], from, c.isEndOfFile))
  {
    assert DropLast(c.oldLines) == c.oldLines[..|c.oldLines| - 1];
  }

  lemma {:induction false} FoundLinesAreReplaced(
    c: Chunk, whole: Option<nat>, shorter: Option<nat>, e: Edit, next: nat, error: ApplyError)
    requires c.oldLines != []
    ensures EditFor(c, whole, shorter) == At(e, next) <==> Replaces(c, whole, shorter, e) && next == e.start + e.oldLen
    ensures EditFor(c, whole, shorter) == Lost(error) <==>
      Missing(c, whole, shorter) && error == LinesNotFound(c.oldLines)
  {
  }

  lemma {:induction false} OldLinesLand(lines: seq<string>, c: Chunk, from: nat, e: Edit, next: nat)
    requires c.oldLines != []
    ensures LandsFrom(lines, c, from, e, next) <==> LocateOldLines(lines, c, from) == At(e, next)
  {
    LocatedIsEditFor(lines, c, from);
    FoundLinesAreReplaced(c, Seek(lines, c.oldLines, from, c.isEndOfFile),
                          Seek(lines, c.oldLines[..|c.oldLines| - 1], from, c.isEndOfFile), e, next, LinesNotFound([]));
  }

  /** Main: a chunk becomes the edit that its context and its old lines say. */
  lemma {:induction false} ChunksLand(lines: seq<string>, c: Chunk, cursor: nat, e: Edit, next: nat)
    ensures Locate(lines, c, cursor) == At(e, next) <==> Lands(lines, c, cursor, e, next)
  {
    forall from: nat ensures StartsFrom(lines, c, cursor, from) <==> AfterContext(lines, c, cursor) == Some(from) {
      ContextGivesTheStart(lines, c, cursor, from);
    }
    if c.oldLines != [] {
      forall from: nat ensures LandsFrom(lines, c, from, e, next) <==> LocateOldLines(lines, c, from) == At(e, next) {
        OldLinesLand(lines, c, from, e, next);
      }
    }
  }

  /** And it is lost exactly when its context, or else its old lines with and without a blank last
      one, are found nowhere. */
  lemma {:induction false} ChunksAreLost(lines: seq<string>, c: Chunk, cursor: nat, error: ApplyError)
    ensures Locate(lines, c, cursor) == Lost(error) <==>
      || (c.changeContext.Some? && Seek(lines, [c.changeContext.value], cursor, false) == None
          && error == ContextNotFound(c.changeContext.value))
      || (exists from: nat :: StartsFrom(lines, c, cursor, from) && LostFrom(lines, c, from, error))
  {
    forall from: nat ensures StartsFrom(lines, c, cursor, from) <==> AfterContext(lines, c, cursor) == Some(from) {
      ContextGivesTheStart(lines, c, cursor, from);
    }
    forall from: nat
      ensures LostFrom(lines, c, from, error) <==> c.oldLines != [] && LocateOldLines(lines, c, from) == Lost(error)
    {
      OldLinesAreLost(lines, c, from, error);
    }
  }

  predicate LostFrom(lines: seq<string>, c: Chunk, from: nat, error: ApplyError) {
    && c.oldLines != [] && error == LinesNotFound(c.oldLines)
    && Missing(c, Seek(lines, c.oldLines, from, c.isEndOfFile),
               Seek(lines, c.oldLines[..|c.oldLines| - 1], from, c.isEndOfFile))
  }

  lemma {:induction false} OldLinesAreLost(lines: seq<string>, c: Chunk, from: nat, error: ApplyError)
    ensures LostFrom(lines, c, from, error) <==> c.oldLines != [] && LocateOldLines(lines, c, from) == Lost(error)
  {
    if c.oldLines != [] {
      LocatedIsEditFor(lines, c, from);
      FoundLinesAreReplaced(c, Seek(lines, c.oldLines, from, c.isEndOfFile),
                            Seek(lines, c.oldLines[..|c.oldLines| - 1], from, c.isEndOfFile), Edit(0, 0, []), 0, error);
    }
  }

  lemma {:induction false} ContextHasItsBestPlace(lines: seq<string>, context: string, cursor: nat, at: nat)
    requires Seek(lines, [context], cursor, false) == Some(at)
    ensures BestPlace(lines, [context], cursor, at)
  {
    SeekFindsTheBest(lines, [context], cursor, false, at);
  }

  lemma {:induction false} OldLinesFollow(lines: seq<string>, c: Chunk, from: nat, e: Edit, next: nat)
    requires c.oldLines != [] && !c.isEndOfFile && LocateOldLines(lines, c, from) == At(e, next)
    ensures from <= e.start
  {
    SeekIsInBounds(lines, c.oldLines, from, false);
    SeekIsInBounds(lines, DropLast(c.oldLines), from, false);
  }

  lemma {:induction false} LocatedFromItsStart(
    lines: seq<string>, c: Chunk, cursor: nat, e: Edit, next: nat) returns (from: nat)
    requires Locate(lines, c, cursor) == At(e, next) && c.oldLines != []
    ensures AfterContext(lines, c, cursor) == Some(from) && LocateOldLines(lines, c, from) == At(e, next)
  {
    from := AfterContext(lines, c, cursor).value;
  }

  lemma {:induction false} SearchStartsBehind(lines: seq<string>, c: Chunk, cursor: nat, from: nat)
    requires c.changeContext.Some? && AfterContext(lines, c, cursor) == Some(from)
    ensures from > 0 && Seek(lines, [c.changeContext.value], cursor, false) == Some(from - 1)
  {
    ContextGivesTheStart(lines, c, cursor, from);
  }

  /** What a chunk with a context line replaces lies behind the best place of that line. */
  lemma {:induction false} EditsFollowTheirContext(
    lines: seq<string>, c: Chunk, cursor: nat, e: Edit, next: nat) returns (at: nat)
    requires Locate(lines, c, cursor) == At(e, next)
    requires c.changeContext.Some? && c.oldLines != [] && !c.isEndOfFile
    ensures BestPlace(lines, [c.changeContext.value], cursor, at) && at < e.start
  {
    var from := LocatedFromItsStart(lines, c, cursor, e, next);
    OldLinesFollow(lines, c, from, e, next);
    SearchStartsBehind(lines, c, cursor, from);
    at := from - 1;
    ContextHasItsBestPlace(lines, c.changeContext.value, cursor, at);
  }

  // ---------------------------------------------------------------------------
  // Additions and retried chunks, from text to text
  // ---------------------------------------------------------------------------

  lemma {:induction false} OneEditMeans(contents: string, c: Chunk, e: Edit, next: nat)
    requires var lines := OriginalLines(contents); Lands(lines, c, 0, e, next) && e.End() <= |lines|
    ensures var lines := OriginalLines(contents);
      Derive(contents, [c]) == NewText(FinalText(lines[..e.start] + e.newLines + lines[e.start + e.oldLen..]))
  {
    var lines := OriginalLines(contents);
    LandedIsReplaced(lines, c, e, next);
    OneEditApplies(lines, e);
    OneEditDerives(contents, [c], e, lines[..e.start] + e.newLines + lines[e.start + e.oldLen..]);
  }

  lemma {:induction false} LandedIsReplaced(lines: seq<string>, c: Chunk, e: Edit, next: nat)
    requires Lands(lines, c, 0, e, next)
    ensures Replacements(lines, [c]) == Ok([e])
  {
    assert Locate(lines, c, 0) == At(e, next) by { ChunksLand(lines, c, 0, e, next); }
    OneReplacement(lines, c, e, next);
  }

  lemma {:induction false} OneEditDerives(contents: string, chunks: seq<Chunk>, e: Edit, lines: seq<string>)
    requires Replacements(OriginalLines(contents), chunks) == Ok([e])
    requires e.start <= |OriginalLines(contents)| && ApplyBackwards(OriginalLines(contents), [e]) == lines
    ensures Derive(contents, chunks) == NewText(FinalText(lines))
  {
  }

  lemma {:induction false} OneReplacement(lines: seq<string>, c: Chunk, e: Edit, next: nat)
    requires Locate(lines, c, 0) == At(e, next)
    ensures Replacements(lines, [c]) == Ok([e])
  {
    LocateFirst(lines, c, [], 0, e, next, []);
    assert [c] + [] == [c] && [e] + [] == [e] && [e][1..] == [] && SortByStart([e]) == [e];
  }

  lemma {:induction false} OneEditApplies(lines: seq<string>, e: Edit)
    requires e.End() <= |lines|
    ensures ApplyBackwards(lines, [e]) == lines[..e.start] + e.newLines + lines[e.start + e.oldLen..]
  {
    assert [e][1..] == [];
  }

  lemma {:induction false} AddedAtTheEnd(lines: seq<string>, added: seq<string>, at: nat)
    requires at == if lines != [] && lines[|lines| - 1] == "" then |lines| - 1 else |lines|
    ensures lines[..at] + added + lines[at..]
         == if lines != [] && lines[|lines| - 1] == "" then lines[..|lines| - 1] + added + [""] else lines + added
  {
  }

  /** A patch of one chunk without old lines appends its new lines, before a blank last line. */
  lemma {:induction false} AdditionAppends(contents: string, added: seq<string>, atEnd: bool)
    ensures var lines := OriginalLines(contents);
      Derive(contents, [Chunk(None, [], added, atEnd)])
      == NewText(FinalText(if lines != [] && lines[|lines| - 1] == "" then lines[..|lines| - 1] + added + [""]
                           else lines + added))
  {
    var lines, c := OriginalLines(contents), Chunk(None, [], added, atEnd);
    var at := if lines != [] && lines[|lines| - 1] == "" then |lines| - 1 else |lines|;
    var e := Edit(at, 0, added);
    AddedAtTheEnd(lines, added, at);
    assert Lands(lines, c, 0, e, 0) by { assert StartsFrom(lines, c, 0, 0) && LandsFrom(lines, c, 0, e, 0); }
    OneEditMeans(contents, c, e, 0);
  }

  /** A patch of one chunk whose old lines, but for the blank one behind them, end the file: that
      blank line stands for the final newline, in the new lines as well. */
  lemma {:induction false} BlankBehindTheEndIsDropped(
    contents: string, k0: seq<string>, before: seq<string>, after: seq<string>)
    requires var lines := OriginalLines(contents);
      && lines == k0 + before && before != []
      && Seek(lines, before + [""], 0, false) == None && FirstExact(lines, before, 0) == |k0|
    ensures Derive(contents, [Chunk(None, before + [""], after + [""], false)]) == NewText(FinalText(k0 + after))
  {
    var lines, c := OriginalLines(contents), Chunk(None, before + [""], after + [""], false);
    var e := Edit(|k0|, |before|, after);
    assert c.oldLines[..|c.oldLines| - 1] == before && c.newLines[..|c.newLines| - 1] == after;
    FirstExactIsFound(lines, before, 0);
    assert Lands(lines, c, 0, e, |lines|) by {
      assert Replaces(c, None, Some(|k0|), e);
      assert StartsFrom(lines, c, 0, 0) && LandsFrom(lines, c, 0, e, |lines|);
    }
    OneEditMeans(contents, c, e, |lines|);
    assert lines[..|k0|] + after + lines[|lines|..] == k0 + after;
  }
}
