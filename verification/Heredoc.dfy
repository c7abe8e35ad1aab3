/** Wrapping a patch in a shell heredoc, and exactly when that makes no difference. */
module Heredoc {
  import opened Text
  import opened Patch
  import opened ParserSteps
  import opened PatchPrinter
  import opened PatchParser
  import ParserRefinement

  function Wrap(p: string): string {
    "<<EOF\n" + p + "\nEOF\n"
  }

  lemma TrimWrap(p: string)
    ensures Trim(Wrap(p)) == "<<EOF\n" + p + "\nEOF"
  {
    var t := "<<EOF\n" + p + "\nEOF";
    assert t[|t| - 1] == 'F' && t[0] == '<';
    assert Wrap(p)[|Wrap(p)| - 1] == '\n' && Wrap(p)[..|Wrap(p)| - 1] == t;
    TrimOfInk(t);
  }

  lemma StripAll(pieces: seq<string>)
    requires pieces != [] && Last(pieces) != "" && StripCr(Last(pieces)) == Last(pieces)
    ensures StripCrs(pieces) == LinesOf(pieces)
  {
    assert StripCrs(pieces) == StripCrs(pieces[..|pieces| - 1]) + [Last(pieces)];
  }

  /** The pieces of a trimmed text lose a carriage return only where `Lines` removes it too. */
  lemma StrippedPieces(p: string)
    requires EndsInk(p)
    ensures StripCrs(Split(p)) == if p == "" then [""] else Lines(p)
  {
    if p == "" {
      assert StripCrs([""]) == [""];
    } else {
      LastPiece(p);
      StripAll(Split(p));
    }
  }

  lemma SplitOfWrap(p: string)
    ensures Split(Trim(Wrap(p))) == ["<<EOF"] + Split(p) + ["EOF"]
  {
    assert "<<EOF" + "\n" + (p + "\n" + "EOF") == "<<EOF\n" + p + "\nEOF";
    TrimWrap(p);
    SplitOfWord("<<EOF");
    SplitOfWord("EOF");
    SplitAppend("<<EOF", p + "\n" + "EOF");
    SplitAppend(p, "EOF");
  }

  /** A last piece without a carriage return is a line of its own. */
  lemma LinesBetween(first: string, pieces: seq<string>, last: string)
    requires last != "" && StripCr(first) == first
    ensures LinesOf([first] + pieces + [last]) == [first] + StripCrs(pieces) + [last]
  {
    var all := [first] + pieces + [last];
    assert all[..|all| - 1] == [first] + pieces;
    assert ([first] + pieces)[1..] == pieces;
  }

  lemma LinesOfWrap(p: string)
    requires EndsInk(p)
    ensures Lines(Trim(Wrap(p))) == ["<<EOF"] + (if p == "" then [""] else Lines(p)) + ["EOF"]
  {
    StrippedPieces(p);
    LinesBetween("<<EOF", Split(p), "EOF");
    SplitOfWrap(p);
  }

  /** The texts for which the heredoc changes the outcome: none at all, a lone begin
      marker, or a heredoc already, unless its inside does not begin as a patch. */
  predicate HeredocMatters(lines: seq<string>) {
    || lines == []
    || (|lines| == 1 && Trim(lines[0]) == BEGIN_PATCH)
    || (IsHeredoc(lines) && CheckStrict(lines[1..|lines| - 1]) != Outside(FirstLineNotBegin))
  }

  lemma CheckWrapped(lines: seq<string>)
    ensures CheckLenient(["<<EOF"] + lines + ["EOF"]) ==
            if |lines| >= 2 then CheckStrict(lines) else Outside(FirstLineNotBegin)
  {
    var all := ["<<EOF"] + lines + ["EOF"];
    TrimOfInk("<<EOF");
    assert BEGIN_PATCH[0] == '*' && "<<EOF"[0] == '<';
    assert Trim(all[0]) != BEGIN_PATCH;
    assert all[1..|all| - 1] == lines;
    assert "EOF"[0..] == "EOF";
  }

  lemma HeredocOpenerIsNoPatch(lines: seq<string>)
    requires IsHeredoc(lines)
    ensures CheckStrict(lines) == Outside(FirstLineNotBegin)
  {
    TrimOfInk(lines[0]);
    assert BEGIN_PATCH[0] == '*' && lines[0][0] == '<';
  }

  /** A parser past its first line never complains about the first line. */
  predicate Started(r: Step) {
    !r.state.mode.NotStarted? && r.error != Some(InvalidPatch(FirstLineNotBegin))
  }

  lemma StartedStaysStarted(st: ParserState, line: string)
    requires !st.mode.NotStarted?
    ensures Started(ProcessLine(st, line))
  {
  }

  lemma EndLineStaysStarted(st: ParserState)
    requires !st.mode.NotStarted?
    ensures Started(EndLine(st))
  {
    var taken := st.(lineBuffer := "", lineNumber := st.lineNumber + 1);
    var line := StripCr(st.lineBuffer);
    var r := EndLine(st);
    assert r == ProcessLine(taken, line);
    assert Started(r) by { StartedStaysStarted(taken, line); }
  }

  lemma {:induction false} PushStaysStarted(st: ParserState, delta: string)
    requires !st.mode.NotStarted?
    ensures Started(Push(st, delta))
    decreases |delta|
  {
    if delta != "" {
      if delta[0] == '\n' {
        EndLineStaysStarted(st);
        PushStaysStarted(EndLine(st).state, delta[1..]);
      } else {
        PushStaysStarted(st.(lineBuffer := st.lineBuffer + [delta[0]]), delta[1..]);
      }
    }
  }

  lemma FinishStaysStarted(st: ParserState)
    requires !st.mode.NotStarted?
    ensures Finish(st).error != Some(InvalidPatch(FirstLineNotBegin))
  {
    var taken := st.(lineBuffer := "", lineNumber := st.lineNumber + 1);
    var line := st.lineBuffer;
    var r := FinishLine(st);
    if line != "" && Trim(line) != END_PATCH {
      assert r == ProcessLine(taken, line);
      assert Started(r) by { StartedStaysStarted(taken, line); }
    }
    assert r.error != Some(InvalidPatch(FirstLineNotBegin));
  }

  lemma {:induction false} TrimForgetsCr(l: string)
    ensures Trim(StripCr(l)) == Trim(l)
  {
  }

  /** Lines that begin as a patch are never refused for how they begin. */
  lemma BegunIsNotRefusedForItsBeginning(lines: seq<string>)
    requires |lines| >= 2 && NewlineFree(lines) && Trim(lines[0]) == BEGIN_PATCH
    ensures ParseLines(lines) != Invalid(InvalidPatch(FirstLineNotBegin))
  {
    var first, rest := lines[0], Join(lines[1..]);
    var buffered := INITIAL.(lineBuffer := first);
    assert "" + first == first && "\n"[1..] == "";
    assert lines[0] in lines;
    TrimForgetsCr(first);
    PushWord(INITIAL, first);
    ParserRefinement.PushAppend(INITIAL, first, "\n");
    ParserRefinement.PushAppend(INITIAL, first + "\n", rest);
    assert Join(lines) == first + "\n" + rest;
    var started := ParserState("", StartedPatch, [], None, 1);
    assert EndLine(buffered) == Step(started, None);
    assert Push(buffered, "\n") == Step(started, None);
    PushStaysStarted(started, rest);
    FinishStaysStarted(Push(started, rest).state);
  }

  /** The two boundary checks agree except on the exceptions, where the wrapped text is
      refused for its first line and the bare text is not. */
  lemma CompareBoundaries(lines: seq<string>)
    ensures var inner := if lines == [] then [""] else lines;
      var bare, wrapped := CheckLenient(lines), CheckLenient(["<<EOF"] + inner + ["EOF"]);
      if HeredocMatters(lines)
        then wrapped == Outside(FirstLineNotBegin) && bare != Outside(FirstLineNotBegin)
        else wrapped == bare
  {
    CheckWrapped(if lines == [] then [""] else lines);
    if IsHeredoc(lines) {
      HeredocOpenerIsNoPatch(lines);
    }
    if |lines| == 1 {
      assert BEGIN_PATCH != END_PATCH by { assert BEGIN_PATCH[4] == 'B' && END_PATCH[4] == 'E'; }
    }
  }

  /** Whatever the boundary check lets through begins as a patch and has an end. */
  lemma WithinBegins(lines: seq<string>)
    requires CheckLenient(lines).Within?
    ensures var body := CheckLenient(lines).lines;
      |body| >= 2 && Trim(body[0]) == BEGIN_PATCH && (NewlineFree(lines) ==> NewlineFree(body))
  {
    assert BEGIN_PATCH != END_PATCH by { assert BEGIN_PATCH[4] == 'B' && END_PATCH[4] == 'E'; }
  }

  /** For a text without surrounding white space, the heredoc gives the same result if and
      only if the text is not one of the exceptions. */
  lemma HeredocIsTransparent(p: string)
    requires Trim(p) == p
    ensures ParsePatch(Wrap(p)) == ParsePatch(p) <==> !HeredocMatters(Lines(p))
  {
    var lines := Lines(p);
    var bare := CheckLenient(lines);
    CompareBoundaries(lines);
    if HeredocMatters(lines) && bare.Within? {
      WithinBegins(lines);
      BegunIsNotRefusedForItsBeginning(bare.lines);
    }
    TrimShape(p);
    LinesOfWrap(p);
    assert p == "" <==> lines == [] by { if p != "" { LastPiece(p); } }
  }

  /** In particular a patch that its own boundary check accepts may be wrapped. */
  lemma WrappedPatchParsesTheSame(p: string)
    requires Trim(p) == p && CheckStrict(Lines(p)).Within?
    ensures ParsePatch(Wrap(p)) == ParsePatch(p)
  {
    StrictlyBoundedIsNoException(Lines(p));
    HeredocIsTransparent(p);
  }

  lemma StrictlyBoundedIsNoException(lines: seq<string>)
    requires CheckStrict(lines).Within?
    ensures !HeredocMatters(lines)
  {
    assert BEGIN_PATCH != END_PATCH by { assert BEGIN_PATCH[4] == 'B' && END_PATCH[4] == 'E'; }
    if IsHeredoc(lines) { HeredocOpenerIsNoPatch(lines); }
  }

  /** Printed, wrapped and parsed: still the identity. */
  lemma PrintWrapThenParse(d: PatchDoc)
    requires Printable(d)
    ensures ParsePatch(Wrap(PrintText(d)))
         == Parsed(Join(HalfGuarded(PrintPatch(d))), HunksOf(d.hunks), d.environmentId)
  {
    PrintedLinesAreBounded(d);
    WrappedPatchParsesTheSame(PrintText(d));
    PrintThenParse(d);
  }
}
