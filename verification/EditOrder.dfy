/** When the edits of a patch overlap, and when they do not. */
module EditOrder {
  import opened Text
  import opened Patch
  import opened SeekSequence
  import opened ApplyPatch

  // ---------------------------------------------------------------------------
  // Sorting and disjointness
  // ---------------------------------------------------------------------------

  /** `a`, listed before `b`, stays clear of it once both are sorted by start. */
  predicate Clear(a: Edit, b: Edit) {
    if a.start <= b.start then a.End() <= b.start else b.End() <= a.start
  }

  predicate ClearOfAll(e: Edit, edits: seq<Edit>) {
    forall b | b in edits :: Clear(e, b)
  }

  predicate PairwiseClear(edits: seq<Edit>)
    decreases |edits|
  {
    edits == [] || (ClearOfAll(edits[0], edits[1..]) && PairwiseClear(edits[1..]))
  }

  lemma InsertedElements(e: Edit, edits: seq<Edit>)
    ensures forall b :: b in Insert(e, edits) <==> b == e || b in edits
  {
    InsertKeepsElements(e, edits);
    forall b ensures b in Insert(e, edits) <==> b == e || b in edits {
      assert b in Insert(e, edits) <==> b in multiset(Insert(e, edits));
    }
  }

  lemma {:induction false} InsertingKeepsClear(e: Edit, edits: seq<Edit>)
    ensures PairwiseClear(Insert(e, edits)) <==> ClearOfAll(e, edits) && PairwiseClear(edits)
    decreases |edits|
  {
    if edits == [] || e.start <= edits[0].start {
      assert Insert(e, edits)[1..] == edits;
    } else {
      var first, rest := edits[0], edits[1..];
      assert edits == [first] + rest;
      assert Insert(e, edits)[0] == first && Insert(e, edits)[1..] == Insert(e, rest);
      InsertingKeepsClear(e, rest);
      InsertedElements(e, rest);
      assert ClearOfAll(first, Insert(e, rest)) <==> Clear(first, e) && ClearOfAll(first, rest);
      assert ClearOfAll(e, edits) <==> Clear(e, first) && ClearOfAll(e, rest);
    }
  }

  lemma SortedElements(edits: seq<Edit>)
    ensures forall b :: b in SortByStart(edits) <==> b in edits
  {
    SortSorts(edits);
    assert forall b :: b in SortByStart(edits) <==> b in multiset(SortByStart(edits));
    assert forall b :: b in edits <==> b in multiset(edits);
  }

  lemma {:induction false} SortingKeepsClear(edits: seq<Edit>)
    ensures PairwiseClear(SortByStart(edits)) <==> PairwiseClear(edits)
  {
    if edits != [] {
      var rest := SortByStart(edits[1..]);
      SortingKeepsClear(edits[1..]);
      InsertingKeepsClear(edits[0], rest);
      SortedElements(edits[1..]);
    }
  }

  lemma {:induction false} SortedClearIsApart(edits: seq<Edit>, from: nat, n: nat)
    requires Sorted(edits) && from <= n && forall e | e in edits :: from <= e.start && e.End() <= n
    ensures Apart(edits, from, n) <==> PairwiseClear(edits)
    decreases |edits|
  {
    if edits != [] {
      var e, rest := edits[0], edits[1..];
      assert edits == [e] + rest;
      if ClearOfAll(e, rest) {
        forall b | b in rest ensures e.End() <= b.start {
          var j :| 0 <= j < |rest| && rest[j] == b;
          assert edits[j + 1] == b;
        }
        SortedClearIsApart(rest, e.End(), n);
      } else if Apart(rest, e.End(), n) {
        ApartIsPairwise(rest, e.End(), n);
      }
    }
  }

  /** Sorting gives disjoint edits exactly when they are clear of each other in list order. */
  lemma SortedApartExactlyWhenClear(edits: seq<Edit>, n: nat)
    requires forall e | e in edits :: e.End() <= n
    ensures Apart(SortByStart(edits), 0, n) <==> PairwiseClear(edits)
  {
    var sorted := SortByStart(edits);
    SortSorts(edits);
    forall e | e in sorted ensures e.End() <= n {
      assert e in multiset(sorted);
      assert e in edits;
    }
    SortedClearIsApart(sorted, 0, n);
    SortingKeepsClear(edits);
  }

  // ---------------------------------------------------------------------------
  // Where chunks land
  // ---------------------------------------------------------------------------

  /** A chunk found from a cursor at or behind `cursor`: additions go to the insertion point, what
      an end-of-file chunk replaces reaches the end, everything else starts behind the cursor. */
  predicate Placed(lines: seq<string>, c: Chunk, e: Edit, cursor: nat) {
    && e.End() <= |lines|
    && (if c.oldLines == [] then e.start == InsertionPoint(lines) && e.oldLen == 0
        else if c.isEndOfFile && e.oldLen > 0 then e.End() == |lines|
        else cursor <= e.start)
  }

  lemma OldLinesArePlaced(lines: seq<string>, c: Chunk, cursor: nat)
    requires cursor <= |lines| && c.oldLines != []
    ensures var r := LocateOldLines(lines, c, cursor);
      r.At? ==> Placed(lines, c, r.edit, cursor) && r.cursor == r.edit.End() && cursor <= r.cursor
  {
    SeekIsInBounds(lines, c.oldLines, cursor, c.isEndOfFile);
    SeekIsInBounds(lines, DropLast(c.oldLines), cursor, c.isEndOfFile);
    if c.isEndOfFile {
      EofIgnoresTheCursor(lines, c.oldLines, cursor, cursor);
      if DropLast(c.oldLines) != [] { EofIgnoresTheCursor(lines, DropLast(c.oldLines), cursor, cursor); }
    }
  }

  lemma ChunkIsPlaced(lines: seq<string>, c: Chunk, cursor: nat)
    requires cursor <= |lines|
    ensures var r := Locate(lines, c, cursor);
      r.At? ==>
        && Placed(lines, c, r.edit, cursor) && cursor <= r.cursor <= |lines|
        && (c.oldLines != [] ==> r.edit.End() <= r.cursor)
  {
    AfterContextIsInBounds(lines, c, cursor);
    var from := AfterContext(lines, c, cursor);
    if from.Some? && c.oldLines != [] { OldLinesArePlaced(lines, c, from.value); }
  }

  /** Every edit lies where its chunk puts it, behind everything earlier chunks replaced. */
  ghost predicate AllPlaced(lines: seq<string>, chunks: seq<Chunk>, edits: seq<Edit>, cursor: nat) {
    && |edits| == |chunks|
    && (forall j | 0 <= j < |chunks| :: Placed(lines, chunks[j], edits[j], cursor))
    && (forall i, j | 0 <= i < j < |chunks| && chunks[i].oldLines != [] ::
          Placed(lines, chunks[j], edits[j], edits[i].End()))
  }

  lemma {:induction false} ChunksArePlaced(lines: seq<string>, chunks: seq<Chunk>, cursor: nat)
    requires cursor <= |lines|
    ensures var r := LocateAll(lines, chunks, cursor); r.Ok? ==> AllPlaced(lines, chunks, r.value, cursor)
    decreases |chunks|
  {
    var r := LocateAll(lines, chunks, cursor);
    if chunks != [] && r.Ok? {
      var first := Locate(lines, chunks[0], cursor);
      var rest := LocateAll(lines, chunks[1..], first.cursor).value;
      ChunkIsPlaced(lines, chunks[0], cursor);
      ChunksArePlaced(lines, chunks[1..], first.cursor);
      assert r.value == [first.edit] + rest;
      OneMorePlaced(lines, chunks, first.edit, rest, cursor, first.cursor);
    }
  }

  lemma OneMorePlaced(
    lines: seq<string>, chunks: seq<Chunk>, e: Edit, rest: seq<Edit>, cursor: nat, next: nat)
    requires chunks != [] && Placed(lines, chunks[0], e, cursor) && cursor <= next
    requires chunks[0].oldLines != [] ==> e.End() <= next
    requires AllPlaced(lines, chunks[1..], rest, next)
    ensures AllPlaced(lines, chunks, [e] + rest, cursor)
  {
    var edits := [e] + rest;
    forall j | 0 < j < |chunks| ensures Placed(lines, chunks[j], edits[j], next) {
      assert Placed(lines, chunks[1..][j - 1], rest[j - 1], next);
    }
    forall i, j | 0 <= i < j < |chunks| && chunks[i].oldLines != []
      ensures Placed(lines, chunks[j], edits[j], edits[i].End())
    {
      if i > 0 { assert Placed(lines, chunks[1..][j - 1], rest[j - 1], rest[i - 1].End()); }
    }
  }

  // ---------------------------------------------------------------------------
  // The exact condition
  // ---------------------------------------------------------------------------

  /** The later of two chunks is not an end-of-file chunk that reaches back into the lines the
      earlier one was found at. */
  predicate EofFits(lines: seq<string>, c: Chunk, e: Edit, d: Chunk, f: Edit) {
    d.isEndOfFile && f.oldLen > 0 && c.oldLines != [] && !AtEnd(e, |lines|) ==> e.End() <= |lines| - f.oldLen
  }

  /** The edit replaces lines up to and including a blank last line. */
  predicate TakesBlankEnd(lines: seq<string>, e: Edit) {
    EndsBlank(lines) && e.oldLen > 0 && e.End() == |lines|
  }

  /** An addition goes before a blank last line: of two chunks, one that takes that line takes it
      alone, and comes after the addition. */
  predicate AdditionFits(lines: seq<string>, c: Chunk, e: Edit, d: Chunk, f: Edit) {
    && (c.oldLines == [] && TakesBlankEnd(lines, f) ==> f.oldLen == 1)
    && (d.oldLines == [] ==> !TakesBlankEnd(lines, e))
  }

  /** No end-of-file chunk reaches back, and no addition falls into what another chunk takes. */
  ghost predicate Fitting(lines: seq<string>, chunks: seq<Chunk>, edits: seq<Edit>)
    requires |edits| == |chunks|
  {
    forall i, j | 0 <= i < j < |chunks| ::
      && EofFits(lines, chunks[i], edits[i], chunks[j], edits[j])
      && AdditionFits(lines, chunks[i], edits[i], chunks[j], edits[j])
  }

  /** For two chunks where they land. */
  lemma ClearExactlyWhenFitting(lines: seq<string>, c: Chunk, e: Edit, d: Chunk, f: Edit)
    requires Placed(lines, c, e, 0) && Placed(lines, d, f, if c.oldLines != [] then e.End() else 0)
    ensures Clear(e, f) <==> EofFits(lines, c, e, d, f) && AdditionFits(lines, c, e, d, f)
  {
  }

  lemma {:induction false} PairwiseByIndex(edits: seq<Edit>)
    ensures PairwiseClear(edits) <==> forall i, j | 0 <= i < j < |edits| :: Clear(edits[i], edits[j])
    decreases |edits|
  {
    if edits != [] {
      var rest := edits[1..];
      PairwiseByIndex(rest);
      if PairwiseClear(edits) {
        forall i, j | 0 <= i < j < |edits| ensures Clear(edits[i], edits[j]) {
          assert edits[j] == rest[j - 1];
          if i > 0 { assert edits[i] == rest[i - 1]; }
        }
      }
      if forall i, j | 0 <= i < j < |edits| :: Clear(edits[i], edits[j]) {
        forall b | b in rest ensures Clear(edits[0], b) {
          var j :| 0 <= j < |rest| && rest[j] == b;
          assert edits[j + 1] == b;
        }
        forall i, j | 0 <= i < j < |rest| ensures Clear(rest[i], rest[j]) {
          assert Clear(edits[i + 1], edits[j + 1]);
        }
      }
    }
  }

  // ---------------------------------------------------------------------------
  // Replacing edits stay in chunk order
  // ---------------------------------------------------------------------------

  /** The edits that replace something start in list order. */
  predicate RealInOrder(edits: seq<Edit>)
    decreases |edits|
  {
    edits == [] || (ComesBefore(edits[0], edits[1..]) && RealInOrder(edits[1..]))
  }

  predicate ComesBefore(e: Edit, edits: seq<Edit>) {
    e.oldLen > 0 ==> forall b | b in edits && b.oldLen > 0 :: e.start <= b.start
  }

  lemma RealCons(e: Edit, rest: seq<Edit>)
    ensures Real([e] + rest) == Real([e]) + Real(rest)
    ensures Real([e]) == if e.oldLen > 0 then [e] else []
  {
    assert ([e] + rest)[1..] == rest && [e][1..] == [];
  }

  lemma {:induction false} InsertingKeepsReal(e: Edit, edits: seq<Edit>)
    requires ComesBefore(e, edits)
    ensures Real(Insert(e, edits)) == Real([e]) + Real(edits)
    decreases |edits|
  {
    if edits == [] || e.start <= edits[0].start {
      RealCons(e, edits);
    } else {
      InsertingKeepsReal(e, edits[1..]);
      InsertingBehind(e, edits[0], edits[1..]);
      assert edits == [edits[0]] + edits[1..];
    }
  }

  lemma InsertingBehind(e: Edit, first: Edit, rest: seq<Edit>)
    requires e.oldLen == 0 || first.oldLen == 0
    requires Real(Insert(e, rest)) == Real([e]) + Real(rest)
    ensures Real([first] + Insert(e, rest)) == Real([e]) + Real([first] + rest)
  {
    RealCons(first, Insert(e, rest));
    RealCons(first, rest);
    RealCons(e, []);
  }

  lemma {:induction false} SortingKeepsReal(edits: seq<Edit>)
    requires RealInOrder(edits)
    ensures Real(SortByStart(edits)) == Real(edits)
    decreases |edits|
  {
    if edits != [] {
      var e, rest := edits[0], SortByStart(edits[1..]);
      SortingKeepsReal(edits[1..]);
      assert ComesBefore(e, rest) by { SortedElements(edits[1..]); }
      InsertingKeepsReal(e, rest);
      RealCons(e, edits[1..]);
      assert edits == [e] + edits[1..];
    }
  }

  /** Two edits that are clear of each other where their chunks put them. */
  lemma ClearEditsAreInOrder(lines: seq<string>, c: Chunk, e: Edit, d: Chunk, f: Edit)
    requires Placed(lines, c, e, 0) && Placed(lines, d, f, if c.oldLines != [] then e.End() else 0)
    requires Clear(e, f) && e.oldLen > 0 && f.oldLen > 0
    ensures e.start <= f.start
  {
  }

  lemma {:induction false} ClearChunksAreInOrder(lines: seq<string>, chunks: seq<Chunk>, edits: seq<Edit>)
    requires AllPlaced(lines, chunks, edits, 0) && PairwiseClear(edits)
    ensures RealInOrder(edits)
    decreases |edits|
  {
    if edits != [] {
      var rest := edits[1..];
      forall b | b in rest && b.oldLen > 0 && edits[0].oldLen > 0 ensures edits[0].start <= b.start {
        var j :| 0 <= j < |rest| && rest[j] == b;
        assert edits[j + 1] == b;
        ClearEditsAreInOrder(lines, chunks[0], edits[0], chunks[j + 1], b);
      }
      assert AllPlaced(lines, chunks[1..], rest, 0) by { OneFewerPlaced(lines, chunks, edits); }
      ClearChunksAreInOrder(lines, chunks[1..], rest);
    }
  }

  lemma OneFewerPlaced(lines: seq<string>, chunks: seq<Chunk>, edits: seq<Edit>)
    requires AllPlaced(lines, chunks, edits, 0) && edits != []
    ensures AllPlaced(lines, chunks[1..], edits[1..], 0)
  {
    var cs, es := chunks[1..], edits[1..];
    forall j | 0 <= j < |cs| ensures Placed(lines, cs[j], es[j], 0) {
      assert Placed(lines, chunks[j + 1], edits[j + 1], 0);
    }
    forall i, j | 0 <= i < j < |cs| && cs[i].oldLines != [] ensures Placed(lines, cs[j], es[j], es[i].End()) {
      assert Placed(lines, chunks[j + 1], edits[j + 1], edits[i + 1].End());
    }
  }

  /** Main: the edits of a patch are disjoint exactly when every end-of-file chunk starts at or
      behind the end of what the chunks before it replaced, and no chunk takes a blank last line
      that an addition goes before, except alone and after the addition. Then the edits that
      replace something are in chunk order. */
  lemma ReplacementsAreDisjointExactlyWhen(lines: seq<string>, chunks: seq<Chunk>)
    ensures var located, r := LocateAll(lines, chunks, 0), Replacements(lines, chunks);
      r.Ok? ==>
        && located.Ok? && |located.value| == |chunks|
        && (Apart(r.value, 0, |lines|) <==> Fitting(lines, chunks, located.value))
        && (Apart(r.value, 0, |lines|) ==> Real(r.value) == Real(located.value))
  {
    FittingIsApart(lines, chunks);
    var located := LocateAll(lines, chunks, 0);
    if located.Ok? && Apart(SortByStart(located.value), 0, |lines|) {
      ChunksArePlaced(lines, chunks, 0);
      LocateAllIsInBounds(lines, chunks, 0);
      SortedApartExactlyWhenClear(located.value, |lines|);
      ClearChunksAreInOrder(lines, chunks, located.value);
      SortingKeepsReal(located.value);
    }
  }

  lemma FittingIsApart(lines: seq<string>, chunks: seq<Chunk>)
    ensures var located := LocateAll(lines, chunks, 0);
      located.Ok? ==>
        && |located.value| == |chunks|
        && (Apart(SortByStart(located.value), 0, |lines|) <==> Fitting(lines, chunks, located.value))
  {
    var located := LocateAll(lines, chunks, 0);
    if located.Ok? {
      ChunksArePlaced(lines, chunks, 0);
      LocateAllIsInBounds(lines, chunks, 0);
      SortedApartExactlyWhenClear(located.value, |lines|);
      FittingIsClear(lines, chunks, located.value);
    }
  }

  lemma FittingIsClear(lines: seq<string>, chunks: seq<Chunk>, edits: seq<Edit>)
    requires AllPlaced(lines, chunks, edits, 0)
    ensures PairwiseClear(edits) <==> Fitting(lines, chunks, edits)
  {
    PairwiseByIndex(edits);
    forall i, j | 0 <= i < j < |chunks|
      ensures Clear(edits[i], edits[j]) <==>
                && EofFits(lines, chunks[i], edits[i], chunks[j], edits[j])
                && AdditionFits(lines, chunks[i], edits[i], chunks[j], edits[j])
    {
      ClearExactlyWhenFitting(lines, chunks[i], edits[i], chunks[j], edits[j]);
    }
  }
}
