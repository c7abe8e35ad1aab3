/** What a patch leaves on disk, hunk by hunk, and what its text says in plain characters. */
module DiskEffects {
  import opened Text
  import opened Patch
  import opened WellFormed
  import opened PatchPrinter
  import opened PatchParser
  import opened ApplyPatch
  import opened PatchMeaning
  import opened Workspace

  // ---------------------------------------------------------------------------
  // Where a path leads
  // ---------------------------------------------------------------------------

  /** How many characters come before the first '/'. */
  function NameLength(path: string): (n: nat)
    ensures n <= |path|
  {
    if path == "" || path[0] == '/' then 0 else 1 + NameLength(path[1..])
  }

  /** The names of a path: what stands between its slashes. */
  function Names(path: string): seq<string>
    decreases |path|
  {
    if path == "" then []
    else if path[0] == '/' then Names(path[1..])
    else [path[..NameLength(path)]] + Names(path[NameLength(path)..])
  }

  lemma {:induction false} NameLengthBefore(a: string, b: string)
    requires b == "" || b[0] == '/'
    ensures NameLength(a + b) == NameLength(a)
  {
    if a == "" {
      assert a + b == b;
    } else {
      assert (a + b)[1..] == a[1..] + b;
      NameLengthBefore(a[1..], b);
    }
  }

  lemma {:induction false} NamesAppend(a: string, b: string)
    requires b == "" || b[0] == '/'
    ensures Names(a + b) == Names(a) + Names(b)
    decreases |a|
  {
    var n := NameLength(a);
    if a == "" {
      assert a + b == b;
    } else if a[0] == '/' {
      assert (a + b)[1..] == a[1..] + b;
      NamesAppend(a[1..], b);
    } else {
      NameLengthBefore(a, b);
      assert (a + b)[..n] == a[..n] && (a + b)[n..] == a[n..] + b;
      NamesAppend(a[n..], b);
    }
  }

  /** Whatever stands before and behind a slash. */
  lemma {:induction false} NamesAroundSlash(a: string, b: string)
    ensures Names(a + "/" + b) == Names(a) + Names(b)
  {
    assert a + "/" + b == a + ("/" + b) && ("/" + b)[1..] == b;
    NamesAppend(a, "/" + b);
  }

  /** An absolute path is itself, a relative one lies under `cwd`. */
  lemma {:induction false} PathsAreResolved(cwd: string, path: string)
    ensures path != "" && path[0] == '/' ==> Resolve(cwd, path) == path
    ensures path == "" || path[0] != '/' ==>
      cwd <= Resolve(cwd, path) && Names(Resolve(cwd, path)) == Names(cwd) + Names(path)
  {
    if path == "" || path[0] != '/' {
      if cwd == "" {
        assert cwd + path == path;
      } else if cwd[|cwd| - 1] == '/' {
        NamesUnder(cwd, path);
      } else {
        NamesAroundSlash(cwd, path);
      }
    }
  }

  lemma {:induction false} NamesUnder(cwd: string, path: string)
    requires cwd != "" && cwd[|cwd| - 1] == '/'
    ensures Names(cwd + path) == Names(cwd) + Names(path)
  {
    var dir := cwd[..|cwd| - 1];
    assert cwd == dir + "/" && dir + "/" + "" == cwd;
    NamesAroundSlash(dir, path);
    NamesAroundSlash(dir, "");
  }

  // ---------------------------------------------------------------------------
  // What a hunk does
  // ---------------------------------------------------------------------------

  ghost predicate SameBut(a: Files, b: Files, paths: set<string>) {
    forall k | k !in paths :: (k in a <==> k in b) && (k in a ==> b[k] == a[k])
  }

  predicate Holds(files: Files, path: string, text: string) {
    path in files && files[path] == text
  }

  /** How a hunk that succeeds changes the tree: an added file holds its contents, a deleted one is
      gone, an updated one holds its new text, under its new name if it moves. */
  ghost predicate TakesEffect(cwd: string, a: Files, h: Hunk, b: Files) {
    match h
    case AddFile(path, contents) =>
      Holds(b, Resolve(cwd, path), contents) && SameBut(a, b, {Resolve(cwd, path)})
    case DeleteFile(path) =>
      && Resolve(cwd, path) in a && Resolve(cwd, path) !in b && SameBut(a, b, {Resolve(cwd, path)})
    case UpdateFile(path, None, chunks) =>
      var file := Resolve(cwd, path);
      && file in a && Derive(a[file], chunks).NewText?
      && Holds(b, file, Derive(a[file], chunks).text) && SameBut(a, b, {file})
    case UpdateFile(path, Some(newPath), chunks) =>
      var src, dest := Resolve(cwd, path), Resolve(cwd, newPath);
      && src in a && Derive(a[src], chunks).NewText?
      && Holds(b, dest, Derive(a[src], chunks).text) && (src != dest ==> src !in b) && SameBut(a, b, {src, dest})
  }

  /** Why a hunk fails: its file is missing, or its chunks do not apply to it. */
  predicate Fails(cwd: string, a: Files, h: Hunk, error: DiskError) {
    && !h.AddFile?
    && var file := Resolve(cwd, h.path);
       if file !in a then error == Missing(file)
       else h.UpdateFile? && Derive(a[file], h.chunks).Failed? && error == CannotApply(Derive(a[file], h.chunks).error)
  }

  /** Main: a hunk takes effect, or fails for its reason and leaves the files alone. */
  lemma HunksTakeEffect(cwd: string, o: Outcome, h: Hunk)
    requires o.error.None?
    ensures var r := ApplyHunk(cwd, o, h);
      if r.error.None? then TakesEffect(cwd, o.files, h, r.files)
      else Fails(cwd, o.files, h, r.error.value) && r.files == o.files
    ensures ApplyHunk(cwd, o, h).error.Some? <==> exists e :: Fails(cwd, o.files, h, e)
  {
    var r := ApplyHunk(cwd, o, h);
    if r.error.Some? { assert Fails(cwd, o.files, h, r.error.value); }
  }

  /** The trees a patch goes through, one for each hunk that took effect. */
  ghost predicate Trail(cwd: string, trees: seq<Files>, hunks: seq<Hunk>) {
    |trees| == |hunks| + 1 && forall i | 0 <= i < |hunks| :: TakesEffect(cwd, trees[i], hunks[i], trees[i + 1])
  }

  lemma {:induction false} TrailGrows(cwd: string, first: Files, h: Hunk, trees: seq<Files>, hunks: seq<Hunk>)
    requires Trail(cwd, trees, hunks) && TakesEffect(cwd, first, h, trees[0])
    ensures Trail(cwd, [first] + trees, [h] + hunks)
  {
    var all, hs := [first] + trees, [h] + hunks;
    forall i | 0 <= i < |hs| ensures TakesEffect(cwd, all[i], hs[i], all[i + 1]) {
      if i > 0 { assert TakesEffect(cwd, trees[i - 1], hunks[i - 1], trees[i]); }
    }
  }

  /** The trail of a run that starts with `a` and comes out as `r`: all hunks took effect, or all
      before one that fails. */
  ghost predicate TrailOf(cwd: string, trees: seq<Files>, a: Files, hunks: seq<Hunk>, r: Outcome) {
    var k := |trees| - 1;
    && 0 <= k <= |hunks| && Trail(cwd, trees, hunks[..k]) && trees[0] == a && trees[k] == r.files
    && (if r.error.None? then k == |hunks| else k < |hunks| && Fails(cwd, trees[k], hunks[k], r.error.value))
  }

  lemma {:induction false} TrailOfMore(
    cwd: string, first: Files, a: Files, hunks: seq<Hunk>, r: Outcome, trees: seq<Files>)
    requires hunks != [] && TakesEffect(cwd, first, hunks[0], a) && TrailOf(cwd, trees, a, hunks[1..], r)
    ensures TrailOf(cwd, [first] + trees, first, hunks, r)
  {
    var k, all := |trees| - 1, [first] + trees;
    assert Trail(cwd, all, hunks[..k + 1]) by {
      TrailGrows(cwd, first, hunks[0], trees, hunks[1..][..k]);
      assert [hunks[0]] + hunks[1..][..k] == hunks[..k + 1];
    }
    assert all[0] == first && all[k + 1] == trees[k];
  }

  /** Main: a patch goes through its hunks one after the other up to the first that fails. */
  lemma {:induction false} PatchesLeaveATrail(cwd: string, o: Outcome, hunks: seq<Hunk>) returns (trees: seq<Files>)
    requires o.error.None?
    ensures TrailOf(cwd, trees, o.files, hunks, ApplyAll(cwd, o, hunks))
    decreases |hunks|
  {
    trees := [o.files];
    if hunks != [] {
      var next := ApplyHunk(cwd, o, hunks[0]);
      HunksTakeEffect(cwd, o, hunks[0]);
      if next.error.None? {
        trees := PatchesLeaveATrail(cwd, next, hunks[1..]);
        TrailOfMore(cwd, o.files, next.files, hunks, ApplyAll(cwd, o, hunks), trees);
        trees := [o.files] + trees;
      }
    }
  }

  // ---------------------------------------------------------------------------
  // From plain text to files
  // ---------------------------------------------------------------------------

  /** Every line behind a plus sign and terminated. */
  function PlusLines(lines: seq<string>): string {
    if lines == [] then "" else "+" + lines[0] + "\n" + PlusLines(lines[1..])
  }

  function AddText(path: string, lines: seq<string>): string {
    "*** Begin Patch" + "\n" + ("*** Add File: " + path) + "\n" + PlusLines(lines) + "*** End Patch"
  }

  function DeleteText(path: string): string {
    "*** Begin Patch" + "\n" + ("*** Delete File: " + path) + "\n" + "*** End Patch"
  }

  /** A patch with everything an update can have. */
  function UpdateText(
    id: string, path: string, newPath: string, context: string, keep: string, remove: string, insert: string): string
  {
    "*** Begin Patch" + "\n" + ("*** Environment ID: " + id) + "\n" + ("*** Update File: " + path) + "\n"
    + ("*** Move to: " + newPath) + "\n" + ("@@ " + context) + "\n" + (" " + keep) + "\n" + ("-" + remove) + "\n"
    + ("+" + insert) + "\n" + "*** End of File" + "\n" + "*** End Patch"
  }

  predicate Plain(lines: seq<string>) {
    NewlineFree(lines) && forall l | l in lines :: l == "" || l[|l| - 1] != '\r'
  }

  lemma {:induction false} JoinCons(line: string, rest: seq<string>)
    requires rest != []
    ensures Join([line] + rest) == line + "\n" + Join(rest)
  {
    assert ([line] + rest)[1..] == rest;
  }

  lemma {:induction false} AddedLinesJoin(lines: seq<string>, last: string)
    ensures Join(PrintAdded(lines) + [last]) == PlusLines(lines) + last
  {
    if lines == [] {
      assert PrintAdded(lines) + [last] == [last] && "" + last == last;
    } else {
      var line, rest := "+" + lines[0], PrintAdded(lines[1..]) + [last];
      assert PrintAdded(lines) + [last] == [line] + rest;
      assert Join([line] + rest) == line + "\n" + Join(rest) by { JoinCons(line, rest); }
      assert Join(rest) == PlusLines(lines[1..]) + last by { AddedLinesJoin(lines[1..], last); }
      assert PlusLines(lines) == line + "\n" + PlusLines(lines[1..]);
      assert line + "\n" + (PlusLines(lines[1..]) + last) == line + "\n" + PlusLines(lines[1..]) + last;
    }
  }

  lemma {:induction false} ContentsAreTerminated(lines: seq<string>)
    ensures ContentsOf(lines) == Join(lines + [""])
  {
    if lines == [] {
      assert lines + [""] == [""];
    } else {
      assert lines + [""] == [lines[0]] + (lines[1..] + [""]);
      JoinCons(lines[0], lines[1..] + [""]);
      ContentsAreTerminated(lines[1..]);
    }
  }

  lemma {:induction false} Regrouped(a: string, b: string, c: string, d: string, e: string, f: string)
    ensures a + b + (c + d + (e + f)) == a + b + c + d + e + f
  {
  }

  lemma {:induction false} AddTextIsPrinted(path: string, lines: seq<string>)
    ensures Join(PrintPatch(PatchDoc(None, [Add(path, lines)]))) == AddText(path, lines)
  {
    var h := Add(path, lines);
    var body := PrintAdded(lines) + [END_PATCH];
    assert [h][1..] == [] && PrintHunks([h]) == PrintHunk(h) + [];
    assert PrintPatch(PatchDoc(None, [h])) == [BEGIN_PATCH] + ([ADD_FILE + path] + body);
    JoinCons(BEGIN_PATCH, [ADD_FILE + path] + body);
    JoinCons(ADD_FILE + path, body);
    AddedLinesJoin(lines, END_PATCH);
    Regrouped(BEGIN_PATCH, "\n", ADD_FILE + path, "\n", PlusLines(lines), END_PATCH);
  }

  predicate EndsInCr(l: string) {
    l != "" && l[|l| - 1] == '\r'
  }

  /** A print without such lines is the plain text of the grammar, and is read as its document. */
  lemma {:induction false} PlainPrintIsRead(d: PatchDoc, text: string)
    requires Printable(d) && text == Join(PrintPatch(d)) && forall l | l in PrintPatch(d) :: !EndsInCr(l)
    ensures ParsePatch(text) == Parsed(text, HunksOf(d.hunks), d.environmentId)
  {
    var lines := PrintPatch(d);
    assert StripCrs(lines) == lines by {
      forall i | 0 <= i < |lines| ensures StripCr(lines[i]) == lines[i] { assert lines[i] in lines; }
    }
    PrintThenParse(d);
  }

  lemma {:induction false} NamesAreInk(marker: string, name: string)
    requires CleanName(name)
    ensures !EndsInCr(marker + name)
  {
    assert (marker + name)[|marker + name| - 1] == name[|name| - 1];
  }

  lemma {:induction false} PlainLinesPrintPlainly(lines: seq<string>)
    requires Plain(lines)
    ensures forall l | l in PrintAdded(lines) :: !EndsInCr(l)
  {
    if lines != [] {
      var l := lines[0];
      assert l in lines && ("+" + l)[|"+" + l| - 1] == if l == "" then '+' else l[|l| - 1];
      PlainLinesPrintPlainly(lines[1..]);
    }
  }

  lemma {:induction false} OneHunkMeans(h: HunkDoc)
    ensures PrintHunks([h]) == PrintHunk(h) && HunksOf([h]) == [HunkOf(h)]
  {
    assert [h][1..] == [] && PrintHunk(h) + [] == PrintHunk(h);
  }

  lemma {:induction false} PlainBetween(first: string, head: string, body: seq<string>, last: string)
    requires !EndsInCr(first) && !EndsInCr(head) && !EndsInCr(last) && forall l | l in body :: !EndsInCr(l)
    ensures forall l | l in [first] + ([head] + body) + [last] :: !EndsInCr(l)
  {
  }

  lemma {:induction false} AddIsSpelledOut(path: string, lines: seq<string>)
    ensures PrintPatch(PatchDoc(None, [Add(path, lines)]))
         == [BEGIN_PATCH] + ([ADD_FILE + path] + PrintAdded(lines)) + [END_PATCH]
  {
    OneHunkMeans(Add(path, lines));
  }

  lemma {:induction false} AddPrintIsPlain(path: string, lines: seq<string>)
    requires CleanName(path) && Plain(lines)
    ensures forall l | l in PrintPatch(PatchDoc(None, [Add(path, lines)])) :: !EndsInCr(l)
  {
    AddIsSpelledOut(path, lines);
    NamesAreInk(ADD_FILE, path);
    PlainLinesPrintPlainly(lines);
    PlainBetween(BEGIN_PATCH, ADD_FILE + path, PrintAdded(lines), END_PATCH);
  }

  lemma {:induction false} AddTextIsRead(path: string, lines: seq<string>)
    requires CleanName(path) && Plain(lines)
    ensures ParsePatch(AddText(path, lines))
         == Parsed(AddText(path, lines), [AddFile(path, Join(lines + [""]))], None)
  {
    AddTextIsPrinted(path, lines);
    AddPrintIsPlain(path, lines);
    ContentsAreTerminated(lines);
    OneHunkMeans(Add(path, lines));
    PlainPrintIsRead(PatchDoc(None, [Add(path, lines)]), AddText(path, lines));
  }

  lemma {:induction false} OneHunkPatchRuns(cwd: string, files: Files, text: string, h: Hunk)
    requires ParsePatch(text) == Parsed(text, [h], None)
    ensures ApplyPatchText(cwd, files, text) == Ran(ApplyHunk(cwd, Outcome(files, NOTHING, None), h))
  {
    OneHunkRuns(cwd, Outcome(files, NOTHING, None), h);
  }

  lemma {:induction false} OneHunkRuns(cwd: string, o: Outcome, h: Hunk)
    requires o.error.None?
    ensures ApplyAll(cwd, o, [h]) == ApplyHunk(cwd, o, h)
  {
    var next := ApplyHunk(cwd, o, h);
    assert [h][1..] == [] && ApplyAll(cwd, next, []) == next;
  }

  lemma {:induction false} AddHunkAdds(cwd: string, files: Files, path: string, contents: string)
    ensures ApplyHunk(cwd, Outcome(files, NOTHING, None), AddFile(path, contents))
         == Outcome(files[Resolve(cwd, path) := contents], Summary([path], [], []), None)
  {
  }

  lemma {:induction false} DeleteHunkDeletes(cwd: string, files: Files, path: string)
    ensures var target := Resolve(cwd, path);
      ApplyHunk(cwd, Outcome(files, NOTHING, None), DeleteFile(path))
      == if target in files then Outcome(files - {target}, Summary([], [], [path]), None)
         else Outcome(files, NOTHING, Some(Missing(target)))
  {
  }

  /** Main: the text of an addition makes a file with exactly its lines, each terminated. */
  lemma {:induction false} AddTextMakesTheFile(cwd: string, files: Files, path: string, lines: seq<string>)
    requires CleanName(path) && Plain(lines)
    ensures ApplyPatchText(cwd, files, AddText(path, lines))
         == Ran(Outcome(files[Resolve(cwd, path) := Join(lines + [""])], Summary([path], [], []), None))
  {
    var text, contents := AddText(path, lines), Join(lines + [""]);
    AddTextIsRead(path, lines);
    OneHunkPatchRuns(cwd, files, text, AddFile(path, contents));
    AddHunkAdds(cwd, files, path, contents);
  }

  lemma {:induction false} DeleteTextIsPrinted(path: string)
    requires CleanName(path)
    ensures Join(PrintPatch(PatchDoc(None, [Delete(path)]))) == DeleteText(path)
    ensures forall l | l in PrintPatch(PatchDoc(None, [Delete(path)])) :: !EndsInCr(l)
  {
    OneHunkMeans(Delete(path));
    assert PrintPatch(PatchDoc(None, [Delete(path)])) == [BEGIN_PATCH] + ([DELETE_FILE + path] + [END_PATCH]);
    JoinCons(BEGIN_PATCH, [DELETE_FILE + path] + [END_PATCH]);
    JoinCons(DELETE_FILE + path, [END_PATCH]);
    Regrouped(BEGIN_PATCH, "\n", DELETE_FILE + path, "\n", END_PATCH, "");
    assert END_PATCH + "" == END_PATCH && DeleteText(path) + "" == DeleteText(path);
    NamesAreInk(DELETE_FILE, path);
  }

  lemma {:induction false} DeleteTextIsRead(path: string)
    requires CleanName(path)
    ensures ParsePatch(DeleteText(path)) == Parsed(DeleteText(path), [DeleteFile(path)], None)
  {
    DeleteTextIsPrinted(path);
    OneHunkMeans(Delete(path));
    PlainPrintIsRead(PatchDoc(None, [Delete(path)]), DeleteText(path));
  }

  /** The text of a deletion removes its file, or reports that it is missing. */
  lemma {:induction false} DeleteTextRemovesTheFile(cwd: string, files: Files, path: string)
    requires CleanName(path)
    ensures var target := Resolve(cwd, path);
      ApplyPatchText(cwd, files, DeleteText(path))
      == Ran(if target in files then Outcome(files - {target}, Summary([], [], [path]), None)
             else Outcome(files, NOTHING, Some(Missing(target))))
  {
    DeleteTextIsRead(path);
    OneHunkPatchRuns(cwd, files, DeleteText(path), DeleteFile(path));
    DeleteHunkDeletes(cwd, files, path);
  }

  lemma {:induction false} BodySpelledOut(keep: string, remove: string, insert: string)
    ensures var body := [Keep(keep), Remove(remove), BodyLine.Insert(insert)];
      && PrintBody(body) == [" " + keep, "-" + remove, "+" + insert]
      && OldLines(body) == [keep, remove] && NewLines(body) == [keep, insert]
  {
    var body := [Keep(keep), Remove(remove), BodyLine.Insert(insert)];
    var two, one := body[1..], body[2..];
    assert two[1..] == one && one[1..] == [];
    assert OldLines(one) == [] && NewLines(one) == [insert] + [] && PrintBody(one) == ["+" + insert] + [];
    assert OldLines(two) == [remove] + [] && NewLines(two) == [] + [insert];
    assert PrintBody(two) == ["-" + remove] + PrintBody(one);
  }

  lemma {:induction false} TenLinesJoin(l: seq<string>)
    requires |l| == 10
    ensures Join(l) == l[0] + "\n" + l[1] + "\n" + l[2] + "\n" + l[3] + "\n" + l[4] + "\n" + l[5] + "\n" + l[6]
                       + "\n" + l[7] + "\n" + l[8] + "\n" + l[9]
  {
    assert l[..5] + l[5..] == l;
    FiveLinesJoin(l[..5]);
    FiveLinesJoin(l[5..]);
    JoinAppend(l[..5], l[5..]);
  }

  lemma {:induction false} FiveLinesJoin(l: seq<string>)
    requires |l| == 5
    ensures Join(l) == l[0] + "\n" + l[1] + "\n" + l[2] + "\n" + l[3] + "\n" + l[4]
  {
    assert l[1..][1..] == l[2..] && l[2..][1..] == l[3..] && l[3..][1..] == l[4..];
    assert Join(l[4..]) == l[4] && Join(l[3..]) == l[3] + "\n" + l[4] && Join(l[2..]) == l[2] + "\n" + Join(l[3..]);
    assert Join(l[1..]) == l[1] + "\n" + Join(l[2..]);
  }

  lemma {:induction false} MarkedLinesArePlain(mark: char, l: string)
    requires mark != '\r' && !EndsInCr(l)
    ensures !EndsInCr([mark] + l)
  {
    if l != "" { assert ([mark] + l)[|l|] == l[|l| - 1]; }
  }

  /** The document of such an update. */
  function UpdateDoc(
    id: string, path: string, newPath: string, context: string, keep: string, remove: string, insert: string): PatchDoc
  {
    var body := [Keep(keep), Remove(remove), BodyLine.Insert(insert)];
    PatchDoc(Some(id), [Update(path, Some(newPath), [ChunkDoc(Header.At(context), body, true)])])
  }

  function UpdateLines(
    id: string, path: string, newPath: string, context: string, keep: string, remove: string, insert: string)
    : seq<string>
  {
    ["*** Begin Patch", "*** Environment ID: " + id, "*** Update File: " + path, "*** Move to: " + newPath,
     "@@ " + context, " " + keep, "-" + remove, "+" + insert, "*** End of File", "*** End Patch"]
  }

  lemma {:induction false} UpdateIsSpelledOut(
    id: string, path: string, newPath: string, context: string, keep: string, remove: string, insert: string)
    ensures var d := UpdateDoc(id, path, newPath, context, keep, remove, insert);
      && PrintPatch(d) == UpdateLines(id, path, newPath, context, keep, remove, insert)
      && HunksOf(d.hunks)
         == [UpdateFile(path, Some(newPath), [Chunk(Some(context), [keep, remove], [keep, insert], true)])]
  {
    var c := ChunkDoc(Header.At(context), [Keep(keep), Remove(remove), BodyLine.Insert(insert)], true);
    BodySpelledOut(keep, remove, insert);
    assert PrintChunk(c) == ["@@ " + context, " " + keep, "-" + remove, "+" + insert, "*** End of File"];
    OneChunkMeans(c);
    OneHunkMeans(Update(path, Some(newPath), [c]));
    assert ENVIRONMENT_ID + " " + id == "*** Environment ID: " + id;
  }

  lemma {:induction false} OneChunkMeans(c: ChunkDoc)
    ensures PrintChunks([c]) == PrintChunk(c) && ChunksOf([c]) == [ChunkOf(c)]
  {
    assert [c][1..] == [] && PrintChunk(c) + [] == PrintChunk(c);
  }

  lemma {:induction false} UpdateLinesArePlain(
    id: string, path: string, newPath: string, context: string, keep: string, remove: string, insert: string)
    requires CleanName(id) && CleanName(path) && CleanName(newPath) && CleanName(context)
    requires Plain([keep, remove, insert])
    ensures forall l | l in UpdateLines(id, path, newPath, context, keep, remove, insert) :: !EndsInCr(l)
  {
    assert !EndsInCr("*** Begin Patch") && !EndsInCr("*** End of File") && !EndsInCr("*** End Patch");
    NamesAreInk("*** Environment ID: ", id);
    NamesAreInk("*** Update File: ", path);
    NamesAreInk("*** Move to: ", newPath);
    NamesAreInk("@@ ", context);
    assert !EndsInCr(" " + keep) && !EndsInCr("-" + remove) && !EndsInCr("+" + insert) by {
      var texts := [keep, remove, insert];
      assert texts[0] in texts && texts[1] in texts && texts[2] in texts;
      MarkedLinesArePlain(' ', keep);
      MarkedLinesArePlain('-', remove);
      MarkedLinesArePlain('+', insert);
    }
  }

  lemma {:induction false} UpdateDocIsPrintable(
    id: string, path: string, newPath: string, context: string, keep: string, remove: string, insert: string)
    requires CleanName(id) && StartsInk(id) && CleanName(path) && CleanName(newPath) && CleanName(context)
    requires Plain([keep, remove, insert])
    ensures Printable(UpdateDoc(id, path, newPath, context, keep, remove, insert))
  {
    var texts := [keep, remove, insert];
    assert texts[0] in texts && texts[1] in texts && texts[2] in texts;
  }

  lemma {:induction false} UpdateTextIsJoined(
    id: string, path: string, newPath: string, context: string, keep: string, remove: string, insert: string)
    ensures Join(UpdateLines(id, path, newPath, context, keep, remove, insert))
         == UpdateText(id, path, newPath, context, keep, remove, insert)
  {
    TenLinesJoin(UpdateLines(id, path, newPath, context, keep, remove, insert));
  }

  /** The text of an update is read as the hunk it spells out. */
  lemma {:induction false} UpdateTextIsRead(
    id: string, path: string, newPath: string, context: string, keep: string, remove: string, insert: string)
    requires CleanName(id) && StartsInk(id) && CleanName(path) && CleanName(newPath) && CleanName(context)
    requires Plain([keep, remove, insert])
    ensures var text := UpdateText(id, path, newPath, context, keep, remove, insert);
      ParsePatch(text) == Parsed(
        text, [UpdateFile(path, Some(newPath), [Chunk(Some(context), [keep, remove], [keep, insert], true)])], Some(id))
  {
    UpdateIsSpelledOut(id, path, newPath, context, keep, remove, insert);
    UpdateLinesArePlain(id, path, newPath, context, keep, remove, insert);
    UpdateTextIsJoined(id, path, newPath, context, keep, remove, insert);
    UpdateDocIsPrintable(id, path, newPath, context, keep, remove, insert);
    PlainPrintIsRead(UpdateDoc(id, path, newPath, context, keep, remove, insert),
                     UpdateText(id, path, newPath, context, keep, remove, insert));
  }
}
