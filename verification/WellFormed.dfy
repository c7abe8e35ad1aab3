/** What an accepted patch is guaranteed to look like, and the parser invariant behind it. */
module WellFormed {
  import opened Text
  import opened Patch
  import opened ParserSteps

  /** A path, a move target or a context: not empty, on one line, no white space at its end. */
  predicate CleanName(s: string) {
    s != "" && EndsInk(s) && '\n' !in s
  }

  predicate ChunkShaped(c: Chunk) {
    && (c.changeContext.Some? ==> CleanName(c.changeContext.value))
    && NewlineFree(c.oldLines) && NewlineFree(c.newLines)
    && (c.isEndOfFile ==> !c.IsEmpty())
  }

  predicate HunkShaped(h: Hunk) {
    CleanName(h.path) &&
    match h
    case AddFile(_, contents) => contents != "" ==> contents[|contents| - 1] == '\n'
    case DeleteFile(_) => true
    case UpdateFile(_, movePath, chunks) =>
      && (movePath.Some? ==> CleanName(movePath.value))
      && (forall c | c in chunks :: ChunkShaped(c))
  }

  /** An update hunk has a chunk, and each of its chunks has a line. */
  predicate HunkComplete(h: Hunk) {
    HunkShaped(h) &&
    (h.UpdateFile? ==> h.chunks != [] && forall c | c in h.chunks :: !c.IsEmpty())
  }

  /** A hunk still being read: only the very last chunk may be without lines. */
  predicate HunkPending(h: Hunk) {
    HunkShaped(h) &&
    (h.UpdateFile? && h.chunks != [] ==> forall c | c in DropLast(h.chunks) :: !c.IsEmpty())
  }

  predicate AllComplete(hs: seq<Hunk>) {
    forall h | h in hs :: HunkComplete(h)
  }

  /** The mode tells the kind of the last hunk, and all hunks before it are complete. */
  predicate Inv(st: ParserState) {
    && '\n' !in st.lineBuffer
    && (st.environmentId.Some? ==> CleanName(st.environmentId.value) && StartsInk(st.environmentId.value))
    && match st.mode
       case NotStarted => st.hunks == [] && st.environmentId.None?
       case StartedPatch => st.hunks == []
       case AddingFile => st.hunks != [] && Last(st.hunks).AddFile? && AllComplete(st.hunks)
       case DeletingFile => st.hunks != [] && Last(st.hunks).DeleteFile? && AllComplete(st.hunks)
       case UpdatingFile(_) =>
         && st.hunks != [] && Last(st.hunks).UpdateFile?
         && AllComplete(DropLast(st.hunks)) && HunkPending(Last(st.hunks))
       case EndedPatch => AllComplete(st.hunks)
  }

  lemma InDropLast<T>(s: seq<T>, x: T)
    requires s != []
    ensures x in s <==> x in DropLast(s) || x == Last(s)
  {
    assert s == DropLast(s) + [Last(s)];
  }

  lemma CompleteAtTheEnd(hs: seq<Hunk>, h: Hunk)
    requires AllComplete(hs) && HunkComplete(h)
    ensures AllComplete(hs + [h])
  {
  }

  /** If the last hunk may be closed, every hunk is complete. */
  lemma ClosableIsComplete(st: ParserState, line: string)
    requires Inv(st) && EmptinessError(st, line).None?
    ensures AllComplete(st.hunks)
  {
    if st.mode.UpdatingFile? {
      var h := Last(st.hunks);
      forall c | c in h.chunks ensures !c.IsEmpty() {
        InDropLast(h.chunks, c);
      }
      forall k | k in st.hunks ensures HunkComplete(k) {
        InDropLast(st.hunks, k);
      }
    }
  }

  /** What follows a marker in a line without white space at its end is a clean name,
      because the marker itself ends in a blank. */
  lemma NameAfterMarker(marker: string, line: string)
    requires marker <= line && marker != "" && IsWhitespace(Last(marker))
    requires EndsInk(line) && '\n' !in line
    ensures CleanName(line[|marker|..])
  {
    assert line[|marker| - 1] == Last(marker);
    assert line != marker;
    assert |line| > |marker|;
    assert line[|marker|..][|line| - |marker| - 1] == line[|line| - 1];
  }

  lemma HandleHeaderKeepsInv(st: ParserState, trimmed: string)
    requires Inv(st) && !st.mode.NotStarted? && !st.mode.EndedPatch?
    requires EndsInk(trimmed) && '\n' !in trimmed
    ensures var r := HandleHeader(st, trimmed); r.Done? ==> Inv(r.state)
  {
    if st.mode == StartedPatch && ENVIRONMENT_ID <= trimmed {
      TrimShape(trimmed[|ENVIRONMENT_ID|..]);
    } else if HandleHeader(st, trimmed).Done? {
      ClosableIsComplete(st, trimmed);
      if trimmed != END_PATCH {
        if ADD_FILE <= trimmed {
          NameAfterMarker(ADD_FILE, trimmed);
          CompleteAtTheEnd(st.hunks, AddFile(trimmed[|ADD_FILE|..], ""));
        } else if DELETE_FILE <= trimmed {
          NameAfterMarker(DELETE_FILE, trimmed);
          CompleteAtTheEnd(st.hunks, DeleteFile(trimmed[|DELETE_FILE|..]));
        } else {
          NameAfterMarker(UPDATE_FILE, trimmed);
          assert DropLast(st.hunks + [UpdateFile(trimmed[|UPDATE_FILE|..], None, [])]) == st.hunks;
        }
      }
    }
  }

  lemma ExtendKeepsPending(h: Hunk, olds: seq<string>, news: seq<string>)
    requires HunkPending(h) && h.UpdateFile?
    requires h.chunks != [] ==> !Last(h.chunks).isEndOfFile
    requires NewlineFree(olds) && NewlineFree(news) && (olds != [] || news != [])
    ensures HunkPending(h.(chunks := Extend(h.chunks, olds, news)))
  {
    var chunks := Extend(h.chunks, olds, news);
    assert h.chunks != [] ==> Last(h.chunks) in h.chunks;
    assert h.chunks != [] ==> DropLast(chunks) == DropLast(h.chunks);
    forall c | c in chunks ensures ChunkShaped(c) {
      InDropLast(chunks, c);
    }
  }

  lemma NewChunkKeepsPending(h: Hunk, context: Option<string>)
    requires HunkPending(h) && h.UpdateFile?
    requires h.chunks != [] ==> !Last(h.chunks).IsEmpty()
    requires context.Some? ==> CleanName(context.value)
    ensures HunkPending(h.(chunks := h.chunks + [NewChunk(context)]))
  {
    var chunks := h.chunks + [NewChunk(context)];
    assert DropLast(chunks) == h.chunks;
    forall c | c in h.chunks ensures !c.IsEmpty() {
      InDropLast(h.chunks, c);
    }
  }

  lemma MarkKeepsPending(h: Hunk)
    requires HunkPending(h) && h.UpdateFile? && h.chunks != [] && !Last(h.chunks).IsEmpty()
    ensures HunkPending(h.(chunks := DropLast(h.chunks) + [Last(h.chunks).(isEndOfFile := true)]))
  {
    var chunks := DropLast(h.chunks) + [Last(h.chunks).(isEndOfFile := true)];
    assert DropLast(chunks) == DropLast(h.chunks);
    assert Last(h.chunks) in h.chunks;
    forall c | c in chunks ensures ChunkShaped(c) {
      InDropLast(chunks, c);
    }
  }

  lemma ContinueUpdateKeepsPending(h: Hunk, line: string)
    requires HunkPending(h) && h.UpdateFile? && '\n' !in line
    ensures var r := ContinueUpdate(h, line); r.Grown? ==> r.hunk.UpdateFile? && HunkPending(r.hunk)
  {
    TrimEndShape(line);
    var mark := TrimEnd(line);
    var r := ContinueUpdate(h, line);
    if r.Grown? && r.hunk != h {
      if h.chunks == [] && h.movePath.None? && MOVE_TO <= mark {
        NameAfterMarker(MOVE_TO, mark);
      } else if mark == EMPTY_CHANGE_CONTEXT {
        NewChunkKeepsPending(h, None);
      } else if CHANGE_CONTEXT <= mark {
        NameAfterMarker(CHANGE_CONTEXT, mark);
        NewChunkKeepsPending(h, Some(mark[|CHANGE_CONTEXT|..]));
      } else if mark == EOF_MARKER {
        MarkKeepsPending(h);
      } else if line == "" {
        ExtendKeepsPending(h, [""], [""]);
      } else if line[0] == ' ' {
        ExtendKeepsPending(h, [line[1..]], [line[1..]]);
      } else if line[0] == '+' {
        ExtendKeepsPending(h, [], [line[1..]]);
      } else {
        ExtendKeepsPending(h, [line[1..]], []);
      }
    }
  }

  lemma ProcessUpdateLineKeepsInv(st: ParserState, line: string)
    requires Inv(st) && st.mode.UpdatingFile? && '\n' !in line
    ensures Inv(ProcessUpdateLine(st, line).state)
  {
    var r := ContinueUpdate(Last(st.hunks), line);
    ContinueUpdateKeepsPending(Last(st.hunks), line);
    if r.Grown? {
      assert DropLast(DropLast(st.hunks) + [r.hunk]) == DropLast(st.hunks);
    }
  }

  lemma ProcessAddedLineKeepsInv(st: ParserState, line: string)
    requires Inv(st) && st.mode.AddingFile? && '\n' !in line
    ensures Inv(ProcessAddedLine(st, line).state)
  {
    if line != "" && line[0] == '+' {
      var h := Last(st.hunks);
      assert h in st.hunks;
      CompleteAtTheEnd(DropLast(st.hunks), h.(contents := h.contents + line[1..] + "\n"));
    }
  }

  lemma ProcessLineKeepsInv(st: ParserState, line: string)
    requires Inv(st) && '\n' !in line
    ensures Inv(ProcessLine(st, line).state)
  {
    if !st.mode.NotStarted? && !st.mode.EndedPatch? {
      TrimEndShape(line);
      TrimShape(line);
      HandleHeaderKeepsInv(st, if st.mode.UpdatingFile? then TrimEnd(line) else Trim(line));
      if st.mode.UpdatingFile? { ProcessUpdateLineKeepsInv(st, line); }
      if st.mode.AddingFile? { ProcessAddedLineKeepsInv(st, line); }
    }
  }

  lemma TakingKeepsInv(st: ParserState)
    requires Inv(st)
    ensures Inv(st.(lineBuffer := "", lineNumber := st.lineNumber + 1))
    ensures '\n' !in st.lineBuffer && '\n' !in StripCr(st.lineBuffer)
  {
  }

  lemma EndLineKeepsInv(st: ParserState)
    requires Inv(st)
    ensures Inv(EndLine(st).state)
  {
    var taken := st.(lineBuffer := "", lineNumber := st.lineNumber + 1);
    var line := StripCr(st.lineBuffer);
    TakingKeepsInv(st);
    ProcessLineKeepsInv(taken, line);
    assert EndLine(st) == ProcessLine(taken, line);
  }

  lemma {:induction false} PushKeepsInv(st: ParserState, delta: string)
    requires Inv(st)
    ensures Inv(Push(st, delta).state)
    decreases |delta|
  {
    if delta != "" {
      assert delta[0..] == delta;
      PushStep(st, delta, 0);
      if delta[0] == '\n' {
        EndLineKeepsInv(st);
        PushKeepsInv(EndLine(st).state, delta[1..]);
      } else {
        PushKeepsInv(st.(lineBuffer := st.lineBuffer + [delta[0]]), delta[1..]);
      }
    }
  }

  lemma FinishLineKeepsInv(st: ParserState)
    requires Inv(st)
    ensures Inv(FinishLine(st).state)
  {
    var taken := st.(lineBuffer := "", lineNumber := st.lineNumber + 1);
    var line := st.lineBuffer;
    TakingKeepsInv(st);
    if line != "" && Trim(line) == END_PATCH {
      if EmptinessError(taken, END_PATCH).None? { ClosableIsComplete(taken, END_PATCH); }
    } else if line != "" {
      ProcessLineKeepsInv(taken, line);
      assert FinishLine(st) == ProcessLine(taken, line);
    }
  }

  lemma FinishKeepsInv(st: ParserState)
    requires Inv(st)
    ensures Inv(Finish(st).state)
  {
    FinishLineKeepsInv(st);
    assert Finish(st).state == FinishLine(st).state;
  }

  /** A text that is pushed into a new parser and finished without error yields complete hunks. */
  lemma AcceptedIsComplete(text: string)
    requires Finish(Push(INITIAL, text).state).error.None?
    ensures var st := Finish(Push(INITIAL, text).state).state;
      AllComplete(st.hunks) && Inv(st)
  {
    PushKeepsInv(INITIAL, text);
    FinishKeepsInv(Push(INITIAL, text).state);
  }

  /** `finish` alone does not insist on the begin marker: in every state whose last hunk may
      be closed, an unterminated end marker is accepted, even before anything was read. */
  lemma FinishAcceptsABareEndMarker(st: ParserState)
    requires Trim(st.lineBuffer) == END_PATCH
    ensures Finish(st).error.None? <==>
      EmptinessError(st.(lineBuffer := "", lineNumber := st.lineNumber + 1), END_PATCH).None?
    ensures st.mode.NotStarted? && Inv(st) ==> Finish(st).error.None?
  {
    assert st.lineBuffer != "" by { TrimShape(st.lineBuffer); }
  }
}
