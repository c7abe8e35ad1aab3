/** Applying an update hunk to a file's text: locating the chunks, and the edit loop. */
module ApplyPatch {
  import opened Text
  import opened Patch
  import opened SeekSequence

  /** Replace `oldLen` lines from index `start` on by `newLines`. */
  datatype Edit = Edit(start: nat, oldLen: nat, newLines: seq<string>) {
    function End(): nat { start + oldLen }
  }

  datatype ApplyError = ContextNotFound(context: string) | LinesNotFound(oldLines: seq<string>)

  datatype Result<+T> = Ok(value: T) | Err(error: ApplyError)

  datatype Located = At(edit: Edit, cursor: nat) | Lost(error: ApplyError)

  // ---------------------------------------------------------------------------
  // Locating chunks
  // ---------------------------------------------------------------------------

  predicate EndsBlank(lines: seq<string>) {
    lines != [] && Last(lines) == ""
  }

  /** Without its last line if that is empty. */
  function Chop(lines: seq<string>): seq<string> {
    if EndsBlank(lines) then DropLast(lines) else lines
  }

  /** Where a chunk without old lines puts its new ones. */
  function InsertionPoint(lines: seq<string>): nat {
    if EndsBlank(lines) then |lines| - 1 else |lines|
  }

  function AfterContext(lines: seq<string>, chunk: Chunk, cursor: nat): Option<nat> {
    match chunk.changeContext
    case None => Some(cursor)
    case Some(context) =>
      match Seek(lines, [context], cursor, false)
      case Some(i) => Some(i + 1)
      case None => None
  }

  /** The edit for the old lines of a chunk, searched from `cursor` on. */
  function LocateOldLines(lines: seq<string>, chunk: Chunk, cursor: nat): Located
    requires chunk.oldLines != []
  {
    var wanted := chunk.oldLines;
    match Seek(lines, wanted, cursor, chunk.isEndOfFile)
    case Some(i) => At(Edit(i, |wanted|, chunk.newLines), i + |wanted|)
    case None =>
      if Last(wanted) != "" then Lost(LinesNotFound(wanted))
      else
        match Seek(lines, DropLast(wanted), cursor, chunk.isEndOfFile)
        case Some(i) => At(Edit(i, |wanted| - 1, Chop(chunk.newLines)), i + |wanted| - 1)
        case None => Lost(LinesNotFound(wanted))
  }

  function Locate(lines: seq<string>, chunk: Chunk, cursor: nat): Located {
    match AfterContext(lines, chunk, cursor)
    case None => Lost(ContextNotFound(chunk.changeContext.value))
    case Some(from) =>
      if chunk.oldLines == [] then At(Edit(InsertionPoint(lines), 0, chunk.newLines), from)
      else LocateOldLines(lines, chunk, from)
  }

  /** The edits of all chunks, in chunk order. */
  function LocateAll(lines: seq<string>, chunks: seq<Chunk>, cursor: nat): Result<seq<Edit>>
    decreases |chunks|
  {
    if chunks == [] then Ok([])
    else
      match Locate(lines, chunks[0], cursor)
      case Lost(e) => Err(e)
      case At(edit, next) =>
        match LocateAll(lines, chunks[1..], next)
        case Err(e) => Err(e)
        case Ok(rest) => Ok([edit] + rest)
  }

  // ---------------------------------------------------------------------------
  // The stable sort by start index
  // ---------------------------------------------------------------------------

  function Insert(e: Edit, edits: seq<Edit>): seq<Edit> {
    if edits == [] || e.start <= edits[0].start then [e] + edits
    else [edits[0]] + Insert(e, edits[1..])
  }

  function SortByStart(edits: seq<Edit>): seq<Edit> {
    if edits == [] then [] else Insert(edits[0], SortByStart(edits[1..]))
  }

  predicate Sorted(edits: seq<Edit>) {
    forall i, j | 0 <= i < j < |edits| :: edits[i].start <= edits[j].start
  }

  /** The edits that start at `k`, in list order. */
  function StartingAt(edits: seq<Edit>, k: nat): seq<Edit> {
    if edits == [] then []
    else (if edits[0].start == k then [edits[0]] else []) + StartingAt(edits[1..], k)
  }

  lemma {:induction false} InsertKeepsElements(e: Edit, edits: seq<Edit>)
    ensures multiset(Insert(e, edits)) == multiset{e} + multiset(edits)
  {
    if edits != [] && edits[0].start < e.start {
      InsertKeepsElements(e, edits[1..]);
      assert edits == [edits[0]] + edits[1..];
    }
  }

  lemma {:induction false} InsertKeepsBound(e: Edit, edits: seq<Edit>, from: nat)
    requires from <= e.start && forall b | b in edits :: from <= b.start
    ensures forall b | b in Insert(e, edits) :: from <= b.start
  {
    if edits != [] && edits[0].start < e.start {
      InsertKeepsBound(e, edits[1..], from);
      assert forall b | b in Insert(e, edits) :: b == edits[0] || b in Insert(e, edits[1..]);
    }
  }

  lemma {:induction false} InsertSorts(e: Edit, edits: seq<Edit>)
    requires Sorted(edits)
    ensures Sorted(Insert(e, edits))
  {
    if edits != [] && edits[0].start < e.start {
      var rest := Insert(e, edits[1..]);
      InsertSorts(e, edits[1..]);
      InsertKeepsBound(e, edits[1..], edits[0].start);
      assert forall i | 0 <= i < |rest| :: rest[i] in rest;
      assert Insert(e, edits) == [edits[0]] + rest;
    }
  }

  lemma {:induction false} InsertIsStable(e: Edit, edits: seq<Edit>, k: nat)
    ensures StartingAt(Insert(e, edits), k) == (if e.start == k then [e] else []) + StartingAt(edits, k)
  {
    if edits == [] || e.start <= edits[0].start {
      assert ([e] + edits)[1..] == edits;
    } else {
      InsertIsStable(e, edits[1..], k);
      assert Insert(e, edits)[1..] == Insert(e, edits[1..]);
    }
  }

  lemma {:induction false} SortSorts(edits: seq<Edit>)
    ensures Sorted(SortByStart(edits))
    ensures multiset(SortByStart(edits)) == multiset(edits)
  {
    if edits != [] {
      SortSorts(edits[1..]);
      InsertSorts(edits[0], SortByStart(edits[1..]));
      InsertKeepsElements(edits[0], SortByStart(edits[1..]));
      assert edits == [edits[0]] + edits[1..];
    }
  }

  /** Edits with the same start keep their order. */
  lemma {:induction false} SortIsStable(edits: seq<Edit>, k: nat)
    ensures StartingAt(SortByStart(edits), k) == StartingAt(edits, k)
  {
    if edits != [] {
      SortIsStable(edits[1..], k);
      InsertIsStable(edits[0], SortByStart(edits[1..]), k);
    }
  }

  lemma {:induction false} SortedIsFixed(edits: seq<Edit>)
    requires Sorted(edits)
    ensures SortByStart(edits) == edits
  {
    if edits != [] {
      SortedIsFixed(edits[1..]);
    }
  }

  /** What `compute_replacements` returns. */
  function Replacements(lines: seq<string>, chunks: seq<Chunk>): Result<seq<Edit>> {
    match LocateAll(lines, chunks, 0)
    case Err(e) => Err(e)
    case Ok(edits) => Ok(SortByStart(edits))
  }

  method LocateChunk(lines: seq<string>, chunk: Chunk, cursor: nat) returns (r: Located)
    ensures r == Locate(lines, chunk, cursor)
  {
    var lineIndex := cursor;
    if chunk.changeContext.Some? {
      var idx := SeekLines(lines, [chunk.changeContext.value], lineIndex, false);
      if idx.None? {
        return Lost(ContextNotFound(chunk.changeContext.value));
      }
      lineIndex := idx.value + 1;
    }
    assert AfterContext(lines, chunk, cursor) == Some(lineIndex);
    if chunk.oldLines == [] {
      var insertionIdx := if EndsBlank(lines) then |lines| - 1 else |lines|;
      return At(Edit(insertionIdx, 0, chunk.newLines), lineIndex);
    }
    r := FindOldLines(lines, chunk, lineIndex);
  }

  method FindOldLines(lines: seq<string>, chunk: Chunk, lineIndex: nat) returns (r: Located)
    requires chunk.oldLines != []
    ensures r == LocateOldLines(lines, chunk, lineIndex)
  {
    var pattern := chunk.oldLines;
    var newSlice := chunk.newLines;
    var found := SeekLines(lines, pattern, lineIndex, chunk.isEndOfFile);
    if found.None? && EndsBlank(pattern) {
      pattern := DropLast(pattern);
      if EndsBlank(newSlice) {
        newSlice := DropLast(newSlice);
      }
      found := SeekLines(lines, pattern, lineIndex, chunk.isEndOfFile);
    }
    if found.None? {
      return Lost(LinesNotFound(chunk.oldLines));
    }
    return At(Edit(found.value, |pattern|, newSlice), found.value + |pattern|);
  }

  method ComputeReplacements(lines: seq<string>, chunks: seq<Chunk>) returns (r: Result<seq<Edit>>)
    ensures r == Replacements(lines, chunks)
  {
    var replacements: seq<Edit> := [];
    var lineIndex := 0;
    PrependNothing(LocateAll(lines, chunks, 0));
    assert chunks[0..] == chunks;
    for i := 0 to |chunks|
      invariant LocateAll(lines, chunks, 0) == Prepend(replacements, LocateAll(lines, chunks[i..], lineIndex))
    {
      assert chunks[i..][1..] == chunks[i + 1..];
      ghost var before := replacements;
      var located := LocateChunk(lines, chunks[i], lineIndex);
      if located.Lost? {
        return Err(located.error);
      }
      replacements := replacements + [located.edit];
      lineIndex := located.cursor;
      PrependTwice(before, located.edit, LocateAll(lines, chunks[i + 1..], lineIndex));
    }
    assert chunks[|chunks|..] == [] && replacements + [] == replacements;
    return Ok(SortByStart(replacements));
  }

  function Prepend(edits: seq<Edit>, r: Result<seq<Edit>>): Result<seq<Edit>> {
    if r.Ok? then Ok(edits + r.value) else r
  }

  lemma PrependNothing(r: Result<seq<Edit>>)
    ensures Prepend([], r) == r
  {
    if r.Ok? { assert [] + r.value == r.value; }
  }

  lemma PrependTwice(edits: seq<Edit>, e: Edit, r: Result<seq<Edit>>)
    ensures Prepend(edits, Prepend([e], r)) == Prepend(edits + [e], r)
  {
    if r.Ok? { assert edits + ([e] + r.value) == edits + [e] + r.value; }
  }

  // ---------------------------------------------------------------------------
  // Where the edits are
  // ---------------------------------------------------------------------------

  predicate InBounds(lines: seq<string>, edits: seq<Edit>) {
    forall e | e in edits :: e.End() <= |lines|
  }

  lemma AfterContextIsInBounds(lines: seq<string>, chunk: Chunk, cursor: nat)
    requires cursor <= |lines|
    ensures var r := AfterContext(lines, chunk, cursor); r.Some? ==> cursor <= r.value <= |lines|
  {
    if chunk.changeContext.Some? {
      SeekIsInBounds(lines, [chunk.changeContext.value], cursor, false);
    }
  }

  lemma LocateIsInBounds(lines: seq<string>, chunk: Chunk, cursor: nat)
    requires cursor <= |lines|
    ensures var r := Locate(lines, chunk, cursor);
      r.At? ==>
        && r.edit.End() <= |lines| && r.cursor <= |lines|
        && (chunk.oldLines != [] ==> r.cursor == r.edit.End())
        && (!chunk.isEndOfFile ==> cursor <= r.cursor && (chunk.oldLines != [] ==> cursor <= r.edit.start))
  {
    AfterContextIsInBounds(lines, chunk, cursor);
    var from := AfterContext(lines, chunk, cursor);
    if from.Some? && chunk.oldLines != [] {
      SeekIsInBounds(lines, chunk.oldLines, from.value, chunk.isEndOfFile);
      SeekIsInBounds(lines, DropLast(chunk.oldLines), from.value, chunk.isEndOfFile);
    }
  }

  lemma {:induction false} LocateAllIsInBounds(lines: seq<string>, chunks: seq<Chunk>, cursor: nat)
    requires cursor <= |lines|
    ensures var r := LocateAll(lines, chunks, cursor); r.Ok? ==> InBounds(lines, r.value)
    decreases |chunks|
  {
    if chunks != [] {
      LocateIsInBounds(lines, chunks[0], cursor);
      var located := Locate(lines, chunks[0], cursor);
      if located.At? {
        LocateAllIsInBounds(lines, chunks[1..], located.cursor);
      }
    }
  }

  /** The edits are always sorted and inside the file. */
  lemma ReplacementsAreSortedAndInBounds(lines: seq<string>, chunks: seq<Chunk>)
    ensures var r := Replacements(lines, chunks); r.Ok? ==> Sorted(r.value) && InBounds(lines, r.value)
  {
    var r := LocateAll(lines, chunks, 0);
    LocateAllIsInBounds(lines, chunks, 0);
    if r.Ok? {
      SortSorts(r.value);
      forall e | e in SortByStart(r.value) ensures e in r.value {
        assert e in multiset(SortByStart(r.value));
      }
    }
  }

  /** Each edit ends before the next one starts, all of them between `from` and `to`. */
  predicate Apart(edits: seq<Edit>, from: nat, to: nat)
    decreases |edits|
  {
    if edits == [] then from <= to
    else from <= edits[0].start && Apart(edits[1..], edits[0].End(), to)
  }

  /** The recursive reading and the pairwise one are the same. */
  lemma {:induction false} ApartIsPairwise(edits: seq<Edit>, from: nat, to: nat)
    ensures Apart(edits, from, to) <==>
      && from <= to
      && (forall e | e in edits :: from <= e.start && e.End() <= to)
      && (forall i, j | 0 <= i < j < |edits| :: edits[i].End() <= edits[j].start)
    decreases |edits|
  {
    if edits != [] {
      ApartIsPairwise(edits[1..], edits[0].End(), to);
      PairwiseByHead(edits[0], edits[1..]);
      assert edits == [edits[0]] + edits[1..];
    }
  }

  lemma PairwiseByHead(first: Edit, rest: seq<Edit>)
    ensures var edits := [first] + rest;
      (forall i, j | 0 <= i < j < |edits| :: edits[i].End() <= edits[j].start) <==>
      && (forall e | e in rest :: first.End() <= e.start)
      && (forall i, j | 0 <= i < j < |rest| :: rest[i].End() <= rest[j].start)
  {
    var edits := [first] + rest;
    assert edits[0] == first && edits[1..] == rest;
    if forall i, j | 0 <= i < j < |edits| :: edits[i].End() <= edits[j].start {
      forall e | e in rest ensures first.End() <= e.start {
        var j :| 0 <= j < |rest| && rest[j] == e;
        assert edits[j + 1] == e;
      }
      forall i, j | 0 <= i < j < |rest| ensures rest[i].End() <= rest[j].start {
        assert edits[i + 1].End() <= edits[j + 1].start;
      }
    }
  }

  /** An insertion behind the last line. */
  predicate AtEnd(e: Edit, n: nat) {
    e.start == n && e.oldLen == 0
  }

  /** In list order the edits move forward, except for insertions behind the last line. */
  predicate Forward(edits: seq<Edit>, from: nat, n: nat)
    decreases |edits|
  {
    if edits == [] then from <= n
    else if AtEnd(edits[0], n) then Forward(edits[1..], from, n)
    else from <= edits[0].start && Forward(edits[1..], edits[0].End(), n)
  }

  /** No chunk is tied to the end of the file, and pure additions go behind the last line. */
  predicate Orderly(lines: seq<string>, chunks: seq<Chunk>) {
    && (forall c | c in chunks :: !c.isEndOfFile)
    && (EndsBlank(lines) ==> forall c | c in chunks :: c.oldLines != [])
  }

  lemma {:induction false} OrderlyChunksMoveForward(lines: seq<string>, chunks: seq<Chunk>, from: nat, cursor: nat)
    requires Orderly(lines, chunks) && from <= cursor <= |lines|
    ensures var r := LocateAll(lines, chunks, cursor); r.Ok? ==> Forward(r.value, from, |lines|)
    decreases |chunks|
  {
    if chunks != [] {
      assert chunks[0] in chunks;
      LocateIsInBounds(lines, chunks[0], cursor);
      var located := Locate(lines, chunks[0], cursor);
      if located.At? {
        var edit := located.edit;
        var next := if AtEnd(edit, |lines|) then from else edit.End();
        OrderlyChunksMoveForward(lines, chunks[1..], next, located.cursor);
      }
    }
  }

  lemma {:induction false} ForwardIsBounded(edits: seq<Edit>, from: nat, n: nat)
    requires Forward(edits, from, n)
    ensures from <= n
    decreases |edits|
  {
    if edits != [] {
      ForwardIsBounded(edits[1..], if AtEnd(edits[0], n) then from else edits[0].End(), n);
    }
  }

  lemma {:induction false} InsertAtEnd(e: Edit, edits: seq<Edit>, from: nat, n: nat)
    requires AtEnd(e, n) && Apart(edits, from, n) && from <= n
    ensures Apart(Insert(e, edits), from, n)
    ensures Real(Insert(e, edits)) == Real(edits)
    decreases |edits|
  {
    if edits == [] || n <= edits[0].start {
      assert ([e] + edits)[1..] == edits;
    } else {
      ApartIsPairwise(edits[1..], edits[0].End(), n);
      InsertAtEnd(e, edits[1..], edits[0].End(), n);
      assert Insert(e, edits)[1..] == Insert(e, edits[1..]);
    }
  }

  /** The edits that replace something. */
  function Real(edits: seq<Edit>): seq<Edit> {
    if edits == [] then []
    else (if edits[0].oldLen > 0 then [edits[0]] else []) + Real(edits[1..])
  }

  lemma {:induction false} SortingForwardEdits(edits: seq<Edit>, from: nat, n: nat)
    requires Forward(edits, from, n)
    ensures Apart(SortByStart(edits), from, n)
    ensures Real(SortByStart(edits)) == Real(edits)
    decreases |edits|
  {
    if edits != [] {
      var e := edits[0];
      var rest := SortByStart(edits[1..]);
      if AtEnd(e, n) {
        SortingForwardEdits(edits[1..], from, n);
        ForwardIsBounded(edits[1..], from, n);
        InsertAtEnd(e, rest, from, n);
      } else {
        SortingForwardEdits(edits[1..], e.End(), n);
        assert SortByStart(edits) == [e] + rest;
      }
    }
  }

  /** For orderly chunks the edits are pairwise disjoint, and those that replace something
      appear in chunk order. */
  lemma OrderlyReplacementsAreDisjoint(lines: seq<string>, chunks: seq<Chunk>)
    requires Orderly(lines, chunks)
    ensures var located, r := LocateAll(lines, chunks, 0), Replacements(lines, chunks);
      r.Ok? ==> located.Ok? && Apart(r.value, 0, |lines|) && Real(r.value) == Real(located.value)
  {
    OrderlyChunksMoveForward(lines, chunks, 0, 0);
    if LocateAll(lines, chunks, 0).Ok? {
      SortingForwardEdits(LocateAll(lines, chunks, 0).value, 0, |lines|);
    }
  }

  // ---------------------------------------------------------------------------
  // Applying edits
  // ---------------------------------------------------------------------------

  /** One edit: remove as many of the old lines as there are, then insert the new ones. */
  function ApplyOne(lines: seq<string>, e: Edit): (r: seq<string>)
    requires e.start <= |lines|
    ensures e.start <= |r|
    ensures r[..e.start] == lines[..e.start]
  {
    var end := if e.End() <= |lines| then e.End() else |lines|;
    lines[..e.start] + e.newLines + lines[end..]
  }

  /** The edits applied from the last to the first. */
  function ApplyBackwards(lines: seq<string>, edits: seq<Edit>): (r: seq<string>)
    requires Sorted(edits) && forall e | e in edits :: e.start <= |lines|
    ensures edits != [] ==> edits[0].start <= |r|
    ensures edits == [] ==> r == lines
    decreases |edits|
  {
    if edits == [] then lines
    else
      var later := ApplyBackwards(lines, edits[1..]);
      assert edits[0] in edits;
      assert |edits| > 1 ==> edits[0].start <= edits[1].start;
      ApplyOne(later, edits[0])
  }

  /** One left-to-right splice. */
  function Splice(lines: seq<string>, at: nat, edits: seq<Edit>): seq<string>
    requires Apart(edits, at, |lines|)
    decreases |edits|
  {
    if edits == [] then lines[at..]
    else
      ApartIsPairwise(edits, at, |lines|);
      assert edits[0] in edits;
      lines[at..edits[0].start] + edits[0].newLines + Splice(lines, edits[0].End(), edits[1..])
  }

  lemma ApartIsSorted(edits: seq<Edit>, from: nat, to: nat)
    requires Apart(edits, from, to)
    ensures Sorted(edits) && forall e | e in edits :: e.start <= e.End() <= to
  {
    ApartIsPairwise(edits, from, to);
  }

  lemma ApplyOneBeforeTail(lines: seq<string>, at: nat, e: Edit, tail: seq<string>)
    requires at <= e.start && e.End() <= |lines|
    ensures ApplyOne(lines[..e.End()] + tail, e) == lines[..at] + (lines[at..e.start] + e.newLines + tail)
  {
    var later := lines[..e.End()] + tail;
    assert later[..e.start] == lines[..at] + lines[at..e.start];
    assert later[e.End()..] == tail;
  }

  /** For edits that are apart the backward loop is the forward splice. */
  lemma {:induction false} BackwardsIsSplice(lines: seq<string>, at: nat, edits: seq<Edit>)
    requires Apart(edits, at, |lines|) && Sorted(edits) && forall e | e in edits :: e.start <= |lines|
    ensures ApplyBackwards(lines, edits) == lines[..at] + Splice(lines, at, edits)
    decreases |edits|
  {
    ApartIsPairwise(edits, at, |lines|);
    if edits == [] {
      assert lines == lines[..at] + lines[at..];
    } else {
      var e, rest := edits[0], edits[1..];
      assert e in edits;
      ApplyOneBeforeTail(lines, at, e, Splice(lines, e.End(), rest));
      BackwardsIsSplice(lines, e.End(), rest);
    }
  }

  function OldCount(edits: seq<Edit>): nat {
    if edits == [] then 0 else edits[0].oldLen + OldCount(edits[1..])
  }

  function NewCount(edits: seq<Edit>): nat {
    if edits == [] then 0 else |edits[0].newLines| + NewCount(edits[1..])
  }

  lemma {:induction false} SpliceLength(lines: seq<string>, at: nat, edits: seq<Edit>)
    requires Apart(edits, at, |lines|)
    ensures |Splice(lines, at, edits)| == |lines| - at - OldCount(edits) + NewCount(edits)
    decreases |edits|
  {
    if edits != [] {
      ApartIsPairwise(edits, at, |lines|);
      assert edits[0] in edits;
      SpliceLength(lines, edits[0].End(), edits[1..]);
    }
  }

  /** What `ApplyBackwards` asks of its edits. */
  predicate Applicable(edits: seq<Edit>, n: nat) {
    Sorted(edits) && forall e | e in edits :: e.start <= n
  }

  lemma ApplicableTail(e: Edit, rest: seq<Edit>, n: nat)
    requires Applicable([e] + rest, n)
    ensures e.start <= n && Applicable(rest, n)
  {
    var all := [e] + rest;
    assert e in all;
    assert forall i | 0 <= i < |rest| :: rest[i] == all[i + 1];
    assert forall b | b in rest :: b in all;
  }

  lemma ApplyFirst(lines: seq<string>, e: Edit, rest: seq<Edit>)
    requires Applicable([e] + rest, |lines|) && Applicable(rest, |lines|)
    ensures e.start <= |ApplyBackwards(lines, rest)|
    ensures ApplyBackwards(lines, [e] + rest) == ApplyOne(ApplyBackwards(lines, rest), e)
  {
    assert ([e] + rest)[1..] == rest && ([e] + rest)[0] == e;
    if rest == [] { ApplicableTail(e, rest, |lines|); } else { assert ([e] + rest)[1].start == rest[0].start; }
  }

  lemma InsertTwice(lines: seq<string>, i: nat, a: seq<string>, b: seq<string>)
    requires i <= |lines|
    ensures ApplyOne(ApplyOne(lines, Edit(i, 0, b)), Edit(i, 0, a)) == ApplyOne(lines, Edit(i, 0, a + b))
  {
    var later := lines[..i] + b + lines[i..];
    assert later[..i] == lines[..i] && later[i..] == b + lines[i..];
    assert lines[..i] + a + (b + lines[i..]) == lines[..i] + (a + b) + lines[i..];
  }

  lemma InsertionsAtTheHead(lines: seq<string>, i: nat, a: seq<string>, b: seq<string>, post: seq<Edit>)
    requires Applicable([Edit(i, 0, a)] + ([Edit(i, 0, b)] + post), |lines|)
    requires Applicable([Edit(i, 0, a + b)] + post, |lines|)
    ensures ApplyBackwards(lines, [Edit(i, 0, a)] + ([Edit(i, 0, b)] + post))
         == ApplyBackwards(lines, [Edit(i, 0, a + b)] + post)
  {
    var x, y, z := Edit(i, 0, a), Edit(i, 0, b), Edit(i, 0, a + b);
    ApplicableTail(x, [y] + post, |lines|);
    ApplicableTail(y, post, |lines|);
    ApplyFirst(lines, x, [y] + post);
    ApplyFirst(lines, y, post);
    ApplyFirst(lines, z, post);
    InsertTwice(ApplyBackwards(lines, post), i, a, b);
  }

  lemma ApplicableWithout(pre: seq<Edit>, x: Edit, y: Edit, z: Edit, post: seq<Edit>, n: nat)
    requires Applicable(pre + ([x] + ([y] + post)), n) && z.start == x.start == y.start
    ensures Applicable(pre + ([z] + post), n)
  {
    var long, short := pre + ([x] + ([y] + post)), pre + ([z] + post);
    forall i | 0 <= i < |short|
      ensures short[i].start == long[if i <= |pre| then i else i + 1].start <= n
    {
      assert long[if i <= |pre| then i else i + 1] in long;
    }
  }

  /** Two insertions of a sorted list that follow each other at one index are one insertion of both
      texts, the first one's before the second one's, whatever else the list holds. */
  lemma {:induction false} InsertionsKeepTheirOrder(
    lines: seq<string>, pre: seq<Edit>, i: nat, a: seq<string>, b: seq<string>, post: seq<Edit>)
    requires Applicable(pre + ([Edit(i, 0, a)] + ([Edit(i, 0, b)] + post)), |lines|)
    ensures Applicable(pre + ([Edit(i, 0, a + b)] + post), |lines|)
    ensures ApplyBackwards(lines, pre + ([Edit(i, 0, a)] + ([Edit(i, 0, b)] + post)))
         == ApplyBackwards(lines, pre + ([Edit(i, 0, a + b)] + post))
    decreases |pre|
  {
    var x, y, z := Edit(i, 0, a), Edit(i, 0, b), Edit(i, 0, a + b);
    var two, one := [x] + ([y] + post), [z] + post;
    ApplicableWithout(pre, x, y, z, post, |lines|);
    if pre == [] {
      assert pre + two == two && pre + one == one;
      InsertionsAtTheHead(lines, i, a, b, post);
    } else {
      var e, rest := pre[0], pre[1..];
      assert pre + two == [e] + (rest + two) && pre + one == [e] + (rest + one);
      ApplicableTail(e, rest + two, |lines|);
      InsertionsKeepTheirOrder(lines, rest, i, a, b, post);
      ApplyFirst(lines, e, rest + two);
      ApplyFirst(lines, e, rest + one);
    }
  }

  /** The edit loop, with the vector operations of the source: each `remove` and `insert`
      shifts the lines behind it. Every insertion index is in range, even when edits overlap. */
  method ApplyReplacements(original: seq<string>, edits: seq<Edit>) returns (lines: seq<string>)
    requires Sorted(edits) && forall e | e in edits :: e.start <= |original|
    ensures lines == ApplyBackwards(original, edits)
  {
    lines := original;
    var k := |edits|;
    assert edits[k..] == [];
    while k > 0
      invariant 0 <= k <= |edits|
      invariant Sorted(edits[k..]) && forall e | e in edits[k..] :: e.start <= |original|
      invariant lines == ApplyBackwards(original, edits[k..])
    {
      k := k - 1;
      assert edits[k..][1..] == edits[k + 1..] && edits[k] in edits;
      assert k + 1 < |edits| ==> edits[k].start <= edits[k + 1].start;
      assert Sorted(edits[k..]);
      lines := ApplyReplacement(lines, edits[k]);
    }
    assert edits[0..] == edits;
  }

  method ApplyReplacement(before: seq<string>, e: Edit) returns (lines: seq<string>)
    requires e.start <= |before|
    ensures lines == ApplyOne(before, e)
  {
    lines := before;
    for i := 0 to e.oldLen
      invariant lines == ApplyOne(before, Edit(e.start, i, []))
    {
      if e.start < |lines| {
        lines := lines[..e.start] + lines[e.start + 1..];
      }
    }
    ghost var removed := lines;
    for offset := 0 to |e.newLines|
      invariant lines == removed[..e.start] + e.newLines[..offset] + removed[e.start..]
    {
      lines := lines[..e.start + offset] + [e.newLines[offset]] + lines[e.start + offset..];
    }
    assert e.newLines[..|e.newLines|] == e.newLines;
  }
}
