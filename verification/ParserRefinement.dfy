/** What never changes while a patch streams in: the text may be cut anywhere, and what
    has been read is only ever extended. */
module ParserRefinement {
  import opened Text
  import opened Patch
  import opened ParserSteps

  // ---------------------------------------------------------------------------
  // Cutting the text
  // ---------------------------------------------------------------------------

  /** Pushing `a + b` is pushing `a` and then, if that succeeded, `b`. */
  lemma {:induction false} PushAppend(st: ParserState, a: string, b: string)
    ensures Push(st, a + b) == if Push(st, a).error.Some? then Push(st, a) else Push(Push(st, a).state, b)
    decreases |a|
  {
    if a == "" {
      assert a + b == b;
    } else {
      assert (a + b)[1..] == a[1..] + b;
      if a[0] == '\n' {
        PushAppend(EndLine(st).state, a[1..], b);
      } else {
        PushAppend(st.(lineBuffer := st.lineBuffer + [a[0]]), a[1..], b);
      }
    }
  }

  function Concat(deltas: seq<string>): string {
    if deltas == [] then "" else deltas[0] + Concat(deltas[1..])
  }

  /** Pushes one delta after the other, stopping at the first error. */
  function PushAll(st: ParserState, deltas: seq<string>): Step
    decreases |deltas|
  {
    if deltas == [] then Step(st, None)
    else
      var r := Push(st, deltas[0]);
      if r.error.Some? then r else PushAll(r.state, deltas[1..])
  }

  lemma {:induction false} PushAllIsPush(st: ParserState, deltas: seq<string>)
    ensures PushAll(st, deltas) == Push(st, Concat(deltas))
    decreases |deltas|
  {
    if deltas != [] {
      PushAppend(st, deltas[0], Concat(deltas[1..]));
      PushAllIsPush(Push(st, deltas[0]).state, deltas[1..]);
    }
  }

  /** Every way of cutting a patch gives the same hunks or the same first error. */
  lemma CuttingIsIrrelevant(st: ParserState, cut1: seq<string>, cut2: seq<string>)
    requires Concat(cut1) == Concat(cut2)
    ensures PushAll(st, cut1) == PushAll(st, cut2)
  {
    PushAllIsPush(st, cut1);
    PushAllIsPush(st, cut2);
  }

  // ---------------------------------------------------------------------------
  // Growth
  // ---------------------------------------------------------------------------

  predicate ChunkGrows(c: Chunk, d: Chunk) {
    && d.changeContext == c.changeContext
    && c.oldLines <= d.oldLines
    && c.newLines <= d.newLines
    && (c.isEndOfFile ==> d == c)
  }

  predicate ChunksGrow(cs: seq<Chunk>, ds: seq<Chunk>) {
    cs != [] ==>
      |cs| <= |ds| && DropLast(cs) == ds[..|cs| - 1] && ChunkGrows(Last(cs), ds[|cs| - 1])
  }

  predicate HunkGrows(h: Hunk, k: Hunk) {
    match h
    case AddFile(path, contents) => k.AddFile? && k.path == path && contents <= k.contents
    case DeleteFile(_) => k == h
    case UpdateFile(path, movePath, chunks) =>
      && k.UpdateFile? && k.path == path
      && (k.movePath == movePath || (movePath.None? && chunks == []))
      && ChunksGrow(chunks, k.chunks)
  }

  /** All hunks but the last are frozen, none disappears, and the last only grows. */
  predicate HunksGrow(hs: seq<Hunk>, ks: seq<Hunk>) {
    hs != [] ==>
      |hs| <= |ks| && DropLast(hs) == ks[..|hs| - 1] && HunkGrows(Last(hs), ks[|hs| - 1])
  }

  predicate Grows(s: ParserState, t: ParserState) {
    && HunksGrow(s.hunks, t.hunks)
    && s.lineNumber <= t.lineNumber
    && (s.environmentId.Some? ==> t.environmentId == s.environmentId)
    && (s.mode.EndedPatch? ==> t.mode.EndedPatch? && t.hunks == s.hunks)
    && (t.mode.NotStarted? ==> s.mode.NotStarted?)
  }

  lemma HunkGrowsTransitively(h: Hunk, k: Hunk, l: Hunk)
    requires HunkGrows(h, k) && HunkGrows(k, l)
    ensures HunkGrows(h, l)
  {
    if h.UpdateFile? && h.chunks != [] {
      var n := |h.chunks| - 1;
      assert k.chunks[..n] == l.chunks[..n] by {
        assert k.chunks[..n] == DropLast(k.chunks)[..n] && l.chunks[..n] == l.chunks[..|k.chunks| - 1][..n];
      }
      assert ChunkGrows(k.chunks[n], l.chunks[n]) by {
        if n < |k.chunks| - 1 {
          assert k.chunks[n] == DropLast(k.chunks)[n] == l.chunks[n];
        }
      }
    }
  }

  lemma HunkGrowsReflexively(h: Hunk)
    ensures HunkGrows(h, h)
  {
  }

  lemma GrowsTransitively(s: ParserState, t: ParserState, u: ParserState)
    requires Grows(s, t) && Grows(t, u)
    ensures Grows(s, u)
  {
    if s.hunks != [] {
      var n := |s.hunks| - 1;
      assert t.hunks[..n] == u.hunks[..n] by {
        assert t.hunks[..n] == DropLast(t.hunks)[..n] && u.hunks[..n] == u.hunks[..|t.hunks| - 1][..n];
      }
      if n < |t.hunks| - 1 {
        assert t.hunks[n] == DropLast(t.hunks)[n] == u.hunks[n];
      } else {
        HunkGrowsTransitively(s.hunks[n], t.hunks[n], u.hunks[n]);
      }
    }
  }

  /** A new last hunk, or a grown one. */
  lemma HunksGrowAtTheEnd(hs: seq<Hunk>, h: Hunk)
    ensures HunksGrow(hs, hs + [h])
    ensures hs != [] && HunkGrows(Last(hs), h) ==> HunksGrow(hs, DropLast(hs) + [h])
  {
    if hs != [] {
      HunkGrowsReflexively(Last(hs));
      assert (hs + [h])[..|hs| - 1] == DropLast(hs);
      assert (DropLast(hs) + [h])[..|hs| - 1] == DropLast(hs);
    }
  }

  lemma ContinueUpdateGrows(h: Hunk, line: string)
    requires h.UpdateFile?
    ensures var r := ContinueUpdate(h, line); r.Grown? ==> HunkGrows(h, r.hunk)
  {
    if h.chunks != [] {
      var n := |h.chunks| - 1;
      forall c: Chunk ensures (h.chunks + [c])[..n] == DropLast(h.chunks) == (DropLast(h.chunks) + [c])[..n] {
      }
    }
  }

  lemma GrowsReflexively(st: ParserState)
    ensures Grows(st, st)
  {
    if st.hunks != [] { HunkGrowsReflexively(Last(st.hunks)); }
  }

  lemma HandleHeaderGrows(st: ParserState, trimmed: string)
    requires !st.mode.NotStarted? && !st.mode.EndedPatch?
    ensures var r := HandleHeader(st, trimmed); r.Done? ==> Grows(st, r.state)
  {
    var r := HandleHeader(st, trimmed);
    GrowsReflexively(st);
    if r.Done? && r.state.hunks != st.hunks {
      HunksGrowAtTheEnd(st.hunks, Last(r.state.hunks));
    }
  }

  lemma ProcessUpdateLineGrows(st: ParserState, line: string)
    requires st.mode.UpdatingFile?
    ensures Grows(st, ProcessUpdateLine(st, line).state)
  {
    GrowsReflexively(st);
    if st.hunks != [] && Last(st.hunks).UpdateFile? {
      var r := ContinueUpdate(Last(st.hunks), line);
      if r.Grown? {
        ContinueUpdateGrows(Last(st.hunks), line);
        HunksGrowAtTheEnd(st.hunks, r.hunk);
      }
    }
  }

  lemma ProcessAddedLineGrows(st: ParserState, line: string)
    requires st.mode.AddingFile?
    ensures Grows(st, ProcessAddedLine(st, line).state)
  {
    GrowsReflexively(st);
    if st.hunks != [] {
      HunksGrowAtTheEnd(st.hunks, Last(ProcessAddedLine(st, line).state.hunks));
    }
  }

  lemma ProcessLineGrows(st: ParserState, line: string)
    ensures Grows(st, ProcessLine(st, line).state)
  {
    GrowsReflexively(st);
    if !st.mode.NotStarted? && !st.mode.EndedPatch? {
      HandleHeaderGrows(st, if st.mode.UpdatingFile? then TrimEnd(line) else Trim(line));
      if st.mode.UpdatingFile? { ProcessUpdateLineGrows(st, line); }
      if st.mode.AddingFile? { ProcessAddedLineGrows(st, line); }
    }
  }

  lemma GrowsAfterTaking(st: ParserState, t: ParserState)
    requires Grows(st.(lineBuffer := "", lineNumber := st.lineNumber + 1), t)
    ensures Grows(st, t)
  {
  }

  lemma TakenLineGrows(st: ParserState, line: string)
    ensures Grows(st, ProcessLine(st.(lineBuffer := "", lineNumber := st.lineNumber + 1), line).state)
  {
    var taken := st.(lineBuffer := "", lineNumber := st.lineNumber + 1);
    ProcessLineGrows(taken, line);
    GrowsAfterTaking(st, ProcessLine(taken, line).state);
  }

  lemma EndLineGrows(st: ParserState)
    ensures Grows(st, EndLine(st).state)
  {
    var taken, line := st.(lineBuffer := "", lineNumber := st.lineNumber + 1), StripCr(st.lineBuffer);
    var next := ProcessLine(taken, line);
    assert EndLine(st) == next;
    assert Grows(st, next.state) by { TakenLineGrows(st, line); }
  }

  lemma {:induction false} PushGrows(st: ParserState, delta: string)
    ensures Grows(st, Push(st, delta).state)
    decreases |delta|
  {
    if delta == "" {
      GrowsReflexively(st);
    } else {
      var next := if delta[0] == '\n' then EndLine(st).state
                  else st.(lineBuffer := st.lineBuffer + [delta[0]]);
      if delta[0] == '\n' { EndLineGrows(st); } else { GrowsReflexively(st); }
      PushGrows(next, delta[1..]);
      assert delta[0..] == delta;
      PushStep(st, delta, 0);
      GrowsTransitively(st, next, Push(next, delta[1..]).state);
    }
  }

  lemma FinishGrows(st: ParserState)
    ensures Grows(st, Finish(st).state)
  {
    FinishLineGrows(st);
    assert Finish(st).state == FinishLine(st).state;
  }

  lemma FinishTakenGrows(st: ParserState, line: string)
    ensures Grows(st, FinishTaken(st, line).state)
  {
    if Trim(line) == END_PATCH { GrowsReflexively(st); } else { ProcessLineGrows(st, line); }
  }

  lemma FinishLineGrows(st: ParserState)
    ensures Grows(st, FinishLine(st).state)
  {
    var taken := st.(lineBuffer := "", lineNumber := st.lineNumber + 1);
    if st.lineBuffer == "" {
      GrowsReflexively(st);
    } else {
      FinishTakenGrows(taken, st.lineBuffer);
      GrowsAfterTaking(st, FinishTaken(taken, st.lineBuffer).state);
    }
  }

  datatype Operation = PushDelta(delta: string) | CallFinish

  /** A caller that goes on whatever errors it gets. */
  function Run(st: ParserState, ops: seq<Operation>): ParserState
    decreases |ops|
  {
    if ops == [] then st
    else
      match ops[0]
      case PushDelta(delta) => Run(Push(st, delta).state, ops[1..])
      case CallFinish => Run(Finish(st).state, ops[1..])
  }

  /** Streaming only refines: across any calls, failed ones included. */
  lemma {:induction false} StreamingOnlyRefines(st: ParserState, ops: seq<Operation>)
    ensures Grows(st, Run(st, ops))
    decreases |ops|
  {
    if ops == [] {
      GrowsReflexively(st);
    } else {
      var next := if ops[0].PushDelta? then Push(st, ops[0].delta).state else Finish(st).state;
      if ops[0].PushDelta? { PushGrows(st, ops[0].delta); } else { FinishGrows(st); }
      StreamingOnlyRefines(next, ops[1..]);
      GrowsTransitively(st, next, Run(next, ops[1..]));
    }
  }
}
