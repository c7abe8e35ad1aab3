/** Applying whole patches to a tree of files, modelled as a map from resolved path to text. */
module Workspace {
  import opened Text
  import opened Patch
  import opened WellFormed
  import opened PatchPrinter
  import opened RoundTrip
  import opened PatchParser
  import opened ApplyPatch
  import opened PatchMeaning

  type Files = map<string, string>

  datatype Summary = Summary(added: seq<string>, modified: seq<string>, deleted: seq<string>)

  const NOTHING := Summary([], [], [])

  datatype DiskError = Missing(path: string) | CannotApply(error: ApplyError)

  /** What a call leaves behind: the files, the summary so far, and the error if it failed. */
  datatype Outcome = Outcome(files: Files, summary: Summary, error: Option<DiskError>)

  function Resolve(cwd: string, path: string): string {
    if path != "" && path[0] == '/' then path
    else if cwd == "" || Last(cwd) == '/' then cwd + path
    else cwd + "/" + path
  }

  function ApplyHunk(cwd: string, o: Outcome, h: Hunk): Outcome {
    match h
    case AddFile(path, contents) =>
      o.(files := o.files[Resolve(cwd, path) := contents], summary := o.summary.(added := o.summary.added + [path]))
    case DeleteFile(path) =>
      var target := Resolve(cwd, path);
      if target !in o.files then o.(error := Some(Missing(target)))
      else o.(files := o.files - {target}, summary := o.summary.(deleted := o.summary.deleted + [path]))
    case UpdateFile(path, movePath, chunks) =>
      var src := Resolve(cwd, path);
      if src !in o.files then o.(error := Some(Missing(src)))
      else
        match Derive(o.files[src], chunks)
        case Failed(e) => o.(error := Some(CannotApply(e)))
        case NewText(text) =>
          var shown := if movePath.Some? then movePath.value else path;
          var dest := Resolve(cwd, shown);
          var written := o.files[dest := text];
          o.(files := if dest == src then written else written - {src},
             summary := o.summary.(modified := o.summary.modified + [shown]))
  }

  /** Hunk after hunk, stopping at the first error. */
  function ApplyAll(cwd: string, o: Outcome, hunks: seq<Hunk>): Outcome
    decreases |hunks|
  {
    if hunks == [] || o.error.Some? then o
    else ApplyAll(cwd, ApplyHunk(cwd, o, hunks[0]), hunks[1..])
  }

  class Tree {
    const cwd: string
    var files: Files

    constructor (cwd: string, files: Files)
      ensures this.cwd == cwd && this.files == files
    {
      this.cwd := cwd;
      this.files := files;
    }

    /** `apply_hunks_to_disk`. */
    method ApplyHunks(hunks: seq<Hunk>) returns (summary: Summary, error: Option<DiskError>)
      modifies this
      ensures Outcome(files, summary, error) == ApplyAll(cwd, Outcome(old(files), NOTHING, None), hunks)
    {
      summary, error := NOTHING, None;
      for i := 0 to |hunks|
        invariant error.None?
        invariant ApplyAll(cwd, Outcome(files, summary, None), hunks[i..])
               == ApplyAll(cwd, Outcome(old(files), NOTHING, None), hunks)
      {
        assert hunks[i..][1..] == hunks[i + 1..];
        summary, error := ApplyOneHunk(hunks[i], summary);
        if error.Some? { return; }
      }
    }

    method ApplyOneHunk(h: Hunk, before: Summary) returns (summary: Summary, error: Option<DiskError>)
      modifies this
      ensures Outcome(files, summary, error) == ApplyHunk(cwd, Outcome(old(files), before, None), h)
    {
      summary, error := before, None;
      match h {
        case AddFile(path, contents) =>
          files := files[Resolve(cwd, path) := contents];
          summary := summary.(added := summary.added + [path]);
        case DeleteFile(path) =>
          var target := Resolve(cwd, path);
          if target !in files { return before, Some(Missing(target)); }
          files := files - {target};
          summary := summary.(deleted := summary.deleted + [path]);
        case UpdateFile(path, movePath, chunks) =>
          var src := Resolve(cwd, path);
          if src !in files { return before, Some(Missing(src)); }
          var derived := DeriveNewContents(files[src], chunks);
          if derived.Failed? { return before, Some(CannotApply(derived.error)); }
          match movePath {
            case Some(destRel) =>
              var dest := Resolve(cwd, destRel);
              files := files[dest := derived.text];
              if dest != src {
                files := files - {src};
              }
              summary := summary.(modified := summary.modified + [destRel]);
            case None =>
              files := files[src := derived.text];
              summary := summary.(modified := summary.modified + [path]);
          }
      }
    }
  }

  // ---------------------------------------------------------------------------
  // Frame, order, summary
  // ---------------------------------------------------------------------------

  function Touched(cwd: string, h: Hunk): set<string> {
    {Resolve(cwd, h.path)} +
    if h.UpdateFile? && h.movePath.Some? then {Resolve(cwd, h.movePath.value)} else {}
  }

  function AllTouched(cwd: string, hunks: seq<Hunk>): set<string> {
    if hunks == [] then {} else Touched(cwd, hunks[0]) + AllTouched(cwd, hunks[1..])
  }

  predicate SameOutside(a: Files, b: Files, paths: set<string>) {
    a - paths == b - paths
  }

  lemma HunkStaysInItsPaths(cwd: string, o: Outcome, h: Hunk)
    ensures SameOutside(o.files, ApplyHunk(cwd, o, h).files, Touched(cwd, h))
  {
  }

  lemma SameOutsideUnion(a: Files, b: Files, c: Files, p: set<string>, q: set<string>)
    requires SameOutside(a, b, p) && SameOutside(b, c, q)
    ensures SameOutside(a, c, p + q)
  {
    assert a - (p + q) == (a - p) - q;
    assert b - (p + q) == (b - p) - q == (b - q) - p;
    assert c - (p + q) == (c - q) - p;
  }

  /** Applying a patch, successfully or not, changes no file its hunks do not name. */
  lemma {:induction false} OtherFilesAreUntouched(cwd: string, o: Outcome, hunks: seq<Hunk>)
    ensures SameOutside(o.files, ApplyAll(cwd, o, hunks).files, AllTouched(cwd, hunks))
    decreases |hunks|
  {
    if hunks != [] && o.error.None? {
      var next := ApplyHunk(cwd, o, hunks[0]);
      HunkStaysInItsPaths(cwd, o, hunks[0]);
      OtherFilesAreUntouched(cwd, next, hunks[1..]);
      SameOutsideUnion(o.files, next.files, ApplyAll(cwd, next, hunks[1..]).files,
                       Touched(cwd, hunks[0]), AllTouched(cwd, hunks[1..]));
    }
  }

  lemma {:induction false} ApplyAppend(cwd: string, o: Outcome, a: seq<Hunk>, b: seq<Hunk>)
    ensures ApplyAll(cwd, o, a + b) == ApplyAll(cwd, ApplyAll(cwd, o, a), b)
    decreases |a|
  {
    if a == [] {
      assert a + b == b;
    } else if o.error.None? {
      assert (a + b)[1..] == a[1..] + b;
      ApplyAppend(cwd, ApplyHunk(cwd, o, a[0]), a[1..], b);
    }
  }

  lemma FailedHunkChangesNothing(cwd: string, o: Outcome, h: Hunk)
    requires o.error.None? && ApplyHunk(cwd, o, h).error.Some?
    ensures ApplyHunk(cwd, o, h).files == o.files && ApplyHunk(cwd, o, h).summary == o.summary
  {
  }

  /** A failing patch is not rolled back: the hunks before the failing one stay applied, the
      failing one and those after it have no effect. */
  lemma {:induction false} FailureKeepsThePrefix(cwd: string, o: Outcome, hunks: seq<Hunk>) returns (k: nat)
    requires o.error.None? && ApplyAll(cwd, o, hunks).error.Some?
    ensures k < |hunks|
    ensures var before := ApplyAll(cwd, o, hunks[..k]);
      && before.error.None?
      && ApplyHunk(cwd, before, hunks[k]).error.Some?
      && ApplyAll(cwd, o, hunks) == before.(error := ApplyHunk(cwd, before, hunks[k]).error)
    decreases |hunks|
  {
    var next := ApplyHunk(cwd, o, hunks[0]);
    if next.error.Some? {
      k := 0;
      FailedHunkChangesNothing(cwd, o, hunks[0]);
    } else {
      var j := FailureKeepsThePrefix(cwd, next, hunks[1..]);
      k := j + 1;
      assert hunks[..k][1..] == hunks[1..][..j] && hunks[1..][j] == hunks[k];
    }
  }

  /** `Hunk::path`: an update that moves the file is reported under its new name. */
  function ShownPath(h: Hunk): string {
    if h.UpdateFile? && h.movePath.Some? then h.movePath.value else h.path
  }

  function SummaryEntry(h: Hunk): Summary {
    match h
    case AddFile(_, _) => NOTHING.(added := [ShownPath(h)])
    case DeleteFile(_) => NOTHING.(deleted := [ShownPath(h)])
    case UpdateFile(_, _, _) => NOTHING.(modified := [ShownPath(h)])
  }

  function Plus(a: Summary, b: Summary): Summary {
    Summary(a.added + b.added, a.modified + b.modified, a.deleted + b.deleted)
  }

  function SummaryOf(hunks: seq<Hunk>): Summary {
    if hunks == [] then NOTHING else Plus(SummaryEntry(hunks[0]), SummaryOf(hunks[1..]))
  }

  lemma PlusIsAssociative(a: Summary, b: Summary, c: Summary)
    ensures Plus(Plus(a, b), c) == Plus(a, Plus(b, c))
    ensures Plus(a, NOTHING) == a
  {
    assert a.added + (b.added + c.added) == a.added + b.added + c.added;
    assert a.modified + (b.modified + c.modified) == a.modified + b.modified + c.modified;
    assert a.deleted + (b.deleted + c.deleted) == a.deleted + b.deleted + c.deleted;
    assert a.added + [] == a.added && a.modified + [] == a.modified && a.deleted + [] == a.deleted;
  }

  lemma AppliedHunkIsListed(cwd: string, o: Outcome, h: Hunk)
    requires o.error.None? && ApplyHunk(cwd, o, h).error.None?
    ensures ApplyHunk(cwd, o, h).summary == Plus(o.summary, SummaryEntry(h))
  {
    var s := o.summary;
    assert s.added + [] == s.added && s.modified + [] == s.modified && s.deleted + [] == s.deleted;
  }

  lemma {:induction false} ErrorsStay(cwd: string, o: Outcome, hunks: seq<Hunk>)
    ensures o.error.Some? ==> ApplyAll(cwd, o, hunks) == o
  {
  }

  /** On success the summary lists every hunk once, under its kind and in patch order. */
  lemma {:induction false} SummaryListsEveryHunk(cwd: string, o: Outcome, hunks: seq<Hunk>)
    requires ApplyAll(cwd, o, hunks).error.None?
    ensures ApplyAll(cwd, o, hunks).summary == Plus(o.summary, SummaryOf(hunks))
    ensures var s := SummaryOf(hunks); |s.added| + |s.modified| + |s.deleted| == |hunks|
    decreases |hunks|
  {
    PlusIsAssociative(o.summary, NOTHING, NOTHING);
    if hunks != [] {
      var next := ApplyHunk(cwd, o, hunks[0]);
      ErrorsStay(cwd, next, hunks[1..]);
      SummaryListsEveryHunk(cwd, next, hunks[1..]);
      AppliedHunkIsListed(cwd, o, hunks[0]);
      PlusIsAssociative(o.summary, SummaryEntry(hunks[0]), SummaryOf(hunks[1..]));
    }
  }

  // ---------------------------------------------------------------------------
  // From patch text to files
  // ---------------------------------------------------------------------------

  /** `apply_patch_to_disk`. */
  datatype PatchOutcome = NotParsed(error: ParseError) | Ran(outcome: Outcome)

  function ApplyPatchText(cwd: string, files: Files, patch: string): PatchOutcome {
    match ParsePatch(patch)
    case Invalid(e) => NotParsed(e)
    case Parsed(_, hunks, _) => Ran(ApplyAll(cwd, Outcome(files, NOTHING, None), hunks))
  }

  function Removals(lines: seq<string>): seq<BodyLine> {
    if lines == [] then [] else [Remove(lines[0])] + Removals(lines[1..])
  }

  function Insertions(lines: seq<string>): seq<BodyLine> {
    if lines == [] then [] else [BodyLine.Insert(lines[0])] + Insertions(lines[1..])
  }

  /** The diff of a block: its old lines removed, its new ones inserted. */
  function DiffOf(b: Block): ChunkDoc {
    ChunkDoc(if b.chunk.changeContext.Some? then Header.At(b.chunk.changeContext.value) else Anywhere,
             Removals(b.chunk.oldLines) + Insertions(b.chunk.newLines), b.chunk.isEndOfFile)
  }

  function DiffsOf(bs: seq<Block>): seq<ChunkDoc> {
    if bs == [] then [] else [DiffOf(bs[0])] + DiffsOf(bs[1..])
  }

  /** The text of a patch that replaces the blocks' old lines in one file. */
  function PatchFor(path: string, bs: seq<Block>): string {
    PrintText(PatchDoc(None, [Update(path, None, DiffsOf(bs))]))
  }

  lemma {:induction false} InsertionsMean(lines: seq<string>)
    requires NewlineFree(lines)
    ensures OldLines(Insertions(lines)) == [] && NewLines(Insertions(lines)) == lines
    ensures forall b | b in Insertions(lines) :: PrintableBodyLine(b)
  {
    if lines != [] {
      InsertionsMean(lines[1..]);
    }
  }

  lemma {:induction false} RemovalsMean(lines: seq<string>)
    requires NewlineFree(lines)
    ensures OldLines(Removals(lines)) == lines && NewLines(Removals(lines)) == []
    ensures forall b | b in Removals(lines) :: PrintableBodyLine(b)
  {
    if lines != [] {
      RemovalsMean(lines[1..]);
    }
  }

  lemma {:induction false} OldLinesAppend(a: seq<BodyLine>, b: seq<BodyLine>)
    ensures OldLines(a + b) == OldLines(a) + OldLines(b)
  {
    if a == [] {
      assert a + b == b;
    } else {
      assert (a + b)[0] == a[0] && (a + b)[1..] == a[1..] + b;
      OldLinesAppend(a[1..], b);
    }
  }

  lemma {:induction false} NewLinesAppend(a: seq<BodyLine>, b: seq<BodyLine>)
    ensures NewLines(a + b) == NewLines(a) + NewLines(b)
  {
    if a == [] {
      assert a + b == b;
    } else {
      assert (a + b)[0] == a[0] && (a + b)[1..] == a[1..] + b;
      NewLinesAppend(a[1..], b);
    }
  }

  lemma DiffMeans(before: seq<string>, after: seq<string>)
    requires NewlineFree(before) && NewlineFree(after)
    ensures var body := Removals(before) + Insertions(after);
      && OldLines(body) == before && NewLines(body) == after
      && (forall b | b in body :: PrintableBodyLine(b))
      && (before != [] || after != [] ==> body != [])
  {
    RemovalsMean(before);
    InsertionsMean(after);
    OldLinesAppend(Removals(before), Insertions(after));
    NewLinesAppend(Removals(before), Insertions(after));
    assert before + [] == before && [] + after == after;
  }

  predicate PrintableBlocks(bs: seq<Block>) {
    forall b | b in bs ::
      && NewlineFree(b.chunk.oldLines) && NewlineFree(b.chunk.newLines)
      && (b.chunk.oldLines != [] || b.chunk.newLines != [])
      && (b.chunk.changeContext.Some? ==> CleanName(b.chunk.changeContext.value))
  }

  lemma {:induction false} DiffsMean(bs: seq<Block>)
    requires PrintableBlocks(bs)
    ensures ChunksOf(DiffsOf(bs)) == ChunksFor(bs)
    ensures forall c | c in DiffsOf(bs) :: PrintableChunk(c) && !c.header.Implicit?
    ensures |DiffsOf(bs)| == |bs|
  {
    if bs != [] {
      assert bs[0] in bs;
      DiffMeans(bs[0].chunk.oldLines, bs[0].chunk.newLines);
      DiffsMean(bs[1..]);
    }
  }

  /** From the printed diff to the file on disk: if `path` holds the lines k0·o1·k1·…·om·km
      and the blocks are well aimed, applying the patch text succeeds, rewrites that file to
      k0·n1·k1·…·nm·km, reports it as modified and touches nothing else. */
  lemma PrintedDiffRewritesTheFile(cwd: string, files: Files, path: string, k0: seq<string>, bs: seq<Block>)
    requires CleanName(path) && bs != [] && PrintableBlocks(bs)
    requires Resolve(cwd, path) in files
    requires OriginalLines(files[Resolve(cwd, path)]) == k0 + Before(bs)
    requires WellAimed(k0 + Before(bs), bs, 0, |k0|)
    ensures ApplyPatchText(cwd, files, PatchFor(path, bs))
         == Ran(Outcome(files[Resolve(cwd, path) := FinalText(k0 + After(bs))], Summary([], [path], []), None))
  {
    PatchForParses(path, bs);
    UpdateRewritesTheFile(cwd, files, path, k0, bs);
  }

  lemma PatchForParses(path: string, bs: seq<Block>)
    requires CleanName(path) && bs != [] && PrintableBlocks(bs)
    ensures var r := ParsePatch(PatchFor(path, bs));
      r.Parsed? && r.hunks == [UpdateFile(path, None, ChunksFor(bs))] && r.environmentId.None?
  {
    var hunk := Update(path, None, DiffsOf(bs));
    DiffsMean(bs);
    assert PrintableChunks(DiffsOf(bs)) by {
      assert forall i | 0 <= i < |DiffsOf(bs)| :: DiffsOf(bs)[i] in DiffsOf(bs);
    }
    assert [hunk][1..] == [] && HunksOf([hunk]) == [UpdateFile(path, None, ChunksFor(bs))];
    PrintThenParse(PatchDoc(None, [hunk]));
  }

  lemma UpdateRewritesTheFile(cwd: string, files: Files, path: string, k0: seq<string>, bs: seq<Block>)
    requires Resolve(cwd, path) in files
    requires OriginalLines(files[Resolve(cwd, path)]) == k0 + Before(bs)
    requires WellAimed(k0 + Before(bs), bs, 0, |k0|)
    ensures ApplyAll(cwd, Outcome(files, NOTHING, None), [UpdateFile(path, None, ChunksFor(bs))])
         == Outcome(files[Resolve(cwd, path) := FinalText(k0 + After(bs))], Summary([], [path], []), None)
  {
    var update := UpdateFile(path, None, ChunksFor(bs));
    var start := Outcome(files, NOTHING, None);
    assert [update][1..] == [];
    assert ApplyAll(cwd, start, [update]) == ApplyHunk(cwd, start, update);
    PatchMeansReplacement(files[Resolve(cwd, path)], k0, bs);
  }

  /** What a patch inserts to make `lines` the lines of a file: a blank last line is written
      twice, because the editor takes one away, and an empty file is one blank line. */
  function LinesToInsert(lines: seq<string>): seq<string> {
    if lines == [] || EndsBlank(lines) then lines + [""] else lines
  }

  /** A patch that replaces all the lines of a file. */
  function RewritePatch(path: string, contents: string, lines: seq<string>): string {
    PatchFor(path, [Block(Chunk(None, OriginalLines(contents), LinesToInsert(lines), false), [])])
  }

  /** A text as terminated lines. */
  function Terminated(lines: seq<string>): string {
    Join(lines + [""])
  }

  lemma InsertedLinesAreTerminated(lines: seq<string>)
    ensures FinalText(LinesToInsert(lines)) == Terminated(lines)
  {
  }

  lemma OriginalLinesAreNewlineFree(contents: string)
    ensures NewlineFree(OriginalLines(contents))
  {
    assert forall l | l in OriginalLines(contents) :: l in Split(contents);
  }

  /** What the one chunk of such a patch makes of the file. */
  lemma WholeFileIsReplaced(contents: string, lines: seq<string>)
    requires NewlineFree(lines)
    ensures Derive(contents, ChunksFor([Block(Chunk(None, OriginalLines(contents), LinesToInsert(lines), false), [])]))
         == NewText(Terminated(lines))
  {
    var before, target := OriginalLines(contents), LinesToInsert(lines);
    var bs := [Block(Chunk(None, before, target, false), [])];
    assert bs[1..] == [];
    assert Before(bs) == before + [] + [];
    assert After(bs) == target + [] + [];
    InsertedLinesAreTerminated(lines);
    if before == [] {
      InsertingIntoNothing(contents, target);
    } else {
      assert [] + Before(bs) == before && [] + After(bs) == target;
      PatchMeansReplacement(contents, [], bs);
    }
  }

  /** An empty file takes a chunk without old lines at its start. */
  lemma InsertingIntoNothing(contents: string, target: seq<string>)
    requires OriginalLines(contents) == []
    ensures Derive(contents, ChunksFor([Block(Chunk(None, [], target, false), [])])) == NewText(FinalText(target))
  {
    var chunk, edit := Chunk(None, [], target, false), Edit(0, 0, target);
    assert [Block(chunk, [])][1..] == [] && ChunksFor([Block(chunk, [])]) == [chunk];
    assert Locate([], chunk, 0) == Located.At(edit, 0);
    LocateFirst([], chunk, [], 0, edit, 0, []);
    assert [edit][1..] == [] && SortByStart([edit]) == [edit];
    assert ApplyBackwards([], [edit]) == target;
  }

  /** One hunk that only updates a file in place. */
  lemma UpdateInPlace(cwd: string, files: Files, path: string, chunks: seq<Chunk>, text: string)
    requires Resolve(cwd, path) in files && Derive(files[Resolve(cwd, path)], chunks) == NewText(text)
    ensures ApplyAll(cwd, Outcome(files, NOTHING, None), [UpdateFile(path, None, chunks)])
         == Outcome(files[Resolve(cwd, path) := text], Summary([], [path], []), None)
  {
    var update, start := UpdateFile(path, None, chunks), Outcome(files, NOTHING, None);
    assert [update][1..] == [];
    assert ApplyAll(cwd, start, [update]) == ApplyHunk(cwd, start, update);
  }

  /** Main: whatever a file holds and whatever lines it shall hold, there is a patch text that
      makes it exactly those lines, each of them terminated, and touches nothing else. */
  lemma EveryRewriteHasAPatch(cwd: string, files: Files, path: string, lines: seq<string>)
    requires CleanName(path) && Resolve(cwd, path) in files && NewlineFree(lines)
    ensures ApplyPatchText(cwd, files, RewritePatch(path, files[Resolve(cwd, path)], lines))
         == Ran(Outcome(files[Resolve(cwd, path) := Terminated(lines)], Summary([], [path], []), None))
  {
    var contents := files[Resolve(cwd, path)];
    var bs := [Block(Chunk(None, OriginalLines(contents), LinesToInsert(lines), false), [])];
    OriginalLinesAreNewlineFree(contents);
    PatchForParses(path, bs);
    WholeFileIsReplaced(contents, lines);
    UpdateInPlace(cwd, files, path, ChunksFor(bs), Terminated(lines));
  }

  /** Main: a text can be the outcome of a patch that updates a file exactly when it is empty or
      ends in a newline. */
  lemma ReachableTextsAreTerminated(cwd: string, files: Files, path: string, text: string)
    requires CleanName(path) && Resolve(cwd, path) in files
    ensures text == "" || Last(text) == '\n' <==>
      exists patch :: var r := ParsePatch(patch);
        && r.Parsed? && |r.hunks| == 1 && r.hunks[0].UpdateFile? && r.hunks[0].movePath.None?
        && r.hunks[0].path == path
        && ApplyPatchText(cwd, files, patch)
           == Ran(Outcome(files[Resolve(cwd, path) := text], Summary([], [path], []), None))
  {
    var key := Resolve(cwd, path);
    if text == "" || Last(text) == '\n' {
      var lines := DropLast(Split(text));
      TerminatedSplit(text);
      EveryRewriteHasAPatch(cwd, files, path, lines);
      RewriteParses(path, files[key], lines);
    } else if patch :| var r := ParsePatch(patch);
        && r.Parsed? && |r.hunks| == 1 && r.hunks[0].UpdateFile? && r.hunks[0].movePath.None?
        && r.hunks[0].path == path
        && ApplyPatchText(cwd, files, patch)
           == Ran(Outcome(files[key := text], Summary([], [path], []), None)) {
      var update := ParsePatch(patch).hunks[0];
      assert ParsePatch(patch).hunks == [update];
      UpdateTerminates(cwd, files, update);
    }
  }

  lemma RewriteParses(path: string, contents: string, lines: seq<string>)
    requires CleanName(path) && NewlineFree(lines)
    ensures var r := ParsePatch(RewritePatch(path, contents, lines));
      r.Parsed? && |r.hunks| == 1 && r.hunks[0].UpdateFile? && r.hunks[0].movePath.None? && r.hunks[0].path == path
  {
    OriginalLinesAreNewlineFree(contents);
    PatchForParses(path, [Block(Chunk(None, OriginalLines(contents), LinesToInsert(lines), false), [])]);
  }

  /** Splitting a terminated text ends in the empty piece behind its last newline. */
  lemma TerminatedSplit(text: string)
    requires text == "" || Last(text) == '\n'
    ensures Terminated(DropLast(Split(text))) == text && NewlineFree(DropLast(Split(text)))
  {
    var pieces := Split(text);
    JoinOfSplit(text);
    assert forall l | l in DropLast(pieces) :: l in pieces;
    if text != "" {
      assert text == DropLast(text) + "\n" + "";
      SplitAppend(DropLast(text), "");
    }
    assert DropLast(pieces) + [""] == pieces;
  }

  lemma UpdateTerminates(cwd: string, files: Files, update: Hunk)
    requires update.UpdateFile? && update.movePath.None?
    ensures var r := ApplyAll(cwd, Outcome(files, NOTHING, None), [update]); var key := Resolve(cwd, update.path);
      r.error.None? ==> key in r.files && (r.files[key] == "" || Last(r.files[key]) == '\n')
  {
    var start := Outcome(files, NOTHING, None);
    assert [update][1..] == [];
    assert ApplyAll(cwd, start, [update]) == ApplyHunk(cwd, start, update);
    if Resolve(cwd, update.path) in files {
      DerivedTextIsEmptyOrTerminated(files[Resolve(cwd, update.path)], update.chunks);
    }
  }
}
