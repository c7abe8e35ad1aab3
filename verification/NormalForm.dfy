/** The normal form of the lines of a patch: white space around markers and lines without meaning
    go, depending only on where in the patch a line stands. */
module NormalForm {
  import opened Text
  import opened Patch
  import opened ParserSteps
  import opened WellFormed
  import opened RoundTrip

  /** Outside updates, in an update before its first chunk, in a chunk, behind the end-of-file
      marker of a chunk, and behind the end of the patch. */
  datatype Place = Between | UpdateHead | InChunk | ChunkEnd | Over

  predicate IsContextMarker(mark: string) {
    mark == EMPTY_CHANGE_CONTEXT || CHANGE_CONTEXT <= mark
  }

  /** What is left of a line: nothing, a marker without the white space around it, or the line.
      In an update only white space at the end is tolerated. */
  function Canon(place: Place, raw: string): seq<string> {
    match place
    case Between =>
      var trimmed := Trim(raw);
      if ENVIRONMENT_ID <= trimmed then [ENVIRONMENT_ID + " " + Trim(trimmed[|ENVIRONMENT_ID|..])]
      else if "*** " <= trimmed then [trimmed]
      else [raw]
    case Over => if Trim(raw) == "" then [] else [raw]
    case _ =>
      var mark := TrimEnd(raw);
      if place.UpdateHead? && mark == EOF_MARKER then []
      else if place.ChunkEnd? && mark == "" then []
      else if "*** " <= mark || IsContextMarker(mark) then [mark]
      else [raw]
  }

  /** Where the line behind `line` stands. */
  function After(place: Place, line: string): Place {
    if line == END_PATCH then Over
    else if UPDATE_FILE <= line || MOVE_TO <= line then UpdateHead
    else if line == EOF_MARKER then ChunkEnd
    else if place.Between? || ADD_FILE <= line || DELETE_FILE <= line then Between
    else InChunk
  }

  function AfterAll(place: Place, lines: seq<string>): Place
    decreases |lines|
  {
    if lines == [] then place else AfterAll(After(place, lines[0]), lines[1..])
  }

  /** The normal form of lines that begin at `place`. */
  function Normal(place: Place, raws: seq<string>): seq<string>
    decreases |raws|
  {
    if raws == [] then []
    else
      var line := Canon(place, raws[0]);
      line + Normal(AfterAll(place, line), raws[1..])
  }

  // ---------------------------------------------------------------------------
  // The parser's state tells the place
  // ---------------------------------------------------------------------------

  /** In an update the last hunk is that update. */
  predicate HasPlace(st: ParserState) {
    st.mode.UpdatingFile? ==> st.hunks != [] && Last(st.hunks).UpdateFile?
  }

  function PlaceIn(h: Hunk): Place
    requires h.UpdateFile?
  {
    PlaceBehind(h.chunks)
  }

  function PlaceBehind(chunks: seq<Chunk>): Place {
    if chunks == [] then UpdateHead else if Last(chunks).isEndOfFile then ChunkEnd else InChunk
  }

  function PlaceOf(st: ParserState): Place
    requires HasPlace(st)
  {
    match st.mode
    case UpdatingFile(_) => PlaceIn(Last(st.hunks))
    case EndedPatch => Over
    case _ => Between
  }

  lemma AfterOne(place: Place, line: string)
    ensures AfterAll(place, [line]) == After(place, line) && AfterAll(place, []) == place
  {
    assert [line][1..] == [];
  }

  function Taken(st: ParserState): ParserState {
    st.(lineBuffer := "", lineNumber := st.lineNumber + 1)
  }

  // ---------------------------------------------------------------------------
  // A line and its normal form are read alike
  // ---------------------------------------------------------------------------

  lemma SkippedLineIsIgnored(st: ParserState, raw: string)
    requires HasPlace(st) && Canon(PlaceOf(st), raw) == []
    ensures RunLine(st, raw) == Step(Taken(st), None)
  {
    if st.mode.UpdatingFile? {
      var h := Last(st.hunks);
      assert DropLast(st.hunks) + [h] == st.hunks;
      SkippedInUpdate(h, raw);
      assert HandleHeader(Taken(st), TrimEnd(raw)) == NotAHeader by { SkippedIsNoHeader(Taken(st), TrimEnd(raw)); }
    }
  }

  lemma SkippedIsNoHeader(st: ParserState, mark: string)
    requires st.mode.UpdatingFile? && (mark == EOF_MARKER || mark == "")
    ensures HandleHeader(st, mark) == NotAHeader
  {
    assert EOF_MARKER[8] == 'o' && END_PATCH[8] == 'P' && EOF_MARKER[4] == 'E' && ADD_FILE[4] == 'A'
        && DELETE_FILE[4] == 'D' && UPDATE_FILE[4] == 'U';
  }

  lemma SkippedInUpdate(h: Hunk, raw: string)
    requires h.UpdateFile? && Canon(PlaceIn(h), raw) == []
    ensures ContinueUpdate(h, raw) == Grown(h) && (TrimEnd(raw) == EOF_MARKER || TrimEnd(raw) == "")
  {
    assert EOF_MARKER[0] == '*' && CHANGE_CONTEXT[0] == '@' && EMPTY_CHANGE_CONTEXT[0] == '@' && EOF_MARKER[4] == 'E'
        && MOVE_TO[4] == 'M';
  }

  lemma {:induction false} TrimEndTwice(s: string)
    ensures TrimEnd(TrimEnd(s)) == TrimEnd(s)
  {
    TrimEndShape(s);
  }

  lemma TrimTwice(s: string)
    ensures Trim(Trim(s)) == Trim(s)
  {
    TrimShape(s);
    TrimOfInk(Trim(s));
  }

  /** In an update a marker is read by its beginning alone. */
  lemma MarkIsContinuedAlike(h: Hunk, raw: string)
    requires h.UpdateFile?
    requires var mark := TrimEnd(raw); "*** " <= mark || IsContextMarker(mark)
    requires ContinueUpdate(h, TrimEnd(raw)).Grown?
    ensures ContinueUpdate(h, raw) == ContinueUpdate(h, TrimEnd(raw))
  {
    var mark := TrimEnd(raw);
    TrimEndTwice(raw);
    assert mark[0] == '*' || mark[0] == '@';
  }

  lemma ReadAlikeInUpdate(st: ParserState, raw: string)
    requires HasPlace(st) && st.mode.UpdatingFile?
    requires var mark := TrimEnd(raw); "*** " <= mark || IsContextMarker(mark)
    requires ProcessLine(st, TrimEnd(raw)).error.None?
    ensures ProcessLine(st, raw) == ProcessLine(st, TrimEnd(raw))
  {
    TrimEndTwice(raw);
    if HandleHeader(st, TrimEnd(raw)).NotAHeader? { MarkIsContinuedAlike(Last(st.hunks), raw); }
  }

  lemma ReadAlikeBetween(st: ParserState, raw: string)
    requires HasPlace(st) && PlaceOf(st).Between? && "*** " <= Trim(raw)
    requires ProcessLine(st, Trim(raw)).error.None?
    ensures ProcessLine(st, raw) == ProcessLine(st, Trim(raw))
  {
    TrimTwice(raw);
  }

  /** The environment line, whatever white space is in it. */
  lemma EnvironmentReadAlike(st: ParserState, raw: string)
    requires HasPlace(st) && PlaceOf(st).Between? && ENVIRONMENT_ID <= Trim(raw)
    requires ProcessLine(st, Canon(Between, raw)[0]).error.None?
    ensures ProcessLine(st, raw) == ProcessLine(st, Canon(Between, raw)[0])
  {
    var rest := Trim(raw)[|ENVIRONMENT_ID|..];
    var id := Trim(rest);
    var line := ENVIRONMENT_ID + " " + id;
    assert Canon(Between, raw) == [line];
    TrimShape(rest);
    EnvironmentTrims(id);
    assert line[0] == '*' && ENVIRONMENT_ID <= Trim(line);
    assert st.mode.StartedPatch? by { OnlyFirstEnvironmentIsAccepted(st, line); }
    assert id != "";
  }

  lemma OnlyFirstEnvironmentIsAccepted(st: ParserState, line: string)
    requires HasPlace(st) && PlaceOf(st).Between? && ProcessLine(st, line).error.None?
    requires line != "" && line[0] == '*' && ENVIRONMENT_ID <= Trim(line)
    ensures st.mode.StartedPatch?
  {
    assert ENVIRONMENT_ID[4] == 'E' && BEGIN_PATCH[4] == 'B' && ADD_FILE[4] == 'A' && DELETE_FILE[4] == 'D'
        && UPDATE_FILE[4] == 'U' && ENVIRONMENT_ID[5] == 'n' && END_PATCH[6] == 'd' && ENVIRONMENT_ID[6] == 'v';
  }

  lemma EnvironmentTrims(id: string)
    requires StartsInk(id) && EndsInk(id)
    ensures var line := ENVIRONMENT_ID + " " + id;
      && Trim(line) == (if id == "" then ENVIRONMENT_ID else line)
      && Trim(Trim(line)[|ENVIRONMENT_ID|..]) == id
  {
    var line := ENVIRONMENT_ID + " " + id;
    assert line[|ENVIRONMENT_ID|..] == " " + id && (" " + id)[1..] == id;
    TrimOfInk(id);
    if id == "" {
      assert line[..|line| - 1] == ENVIRONMENT_ID;
      TrimOfInk(ENVIRONMENT_ID);
    } else {
      assert line[|line| - 1] == id[|id| - 1];
      TrimOfInk(line);
      TrimsCommute(" " + id);
    }
  }

  /** A line is read as its normal form is, if that is accepted. */
  lemma LineIsReadAlike(st: ParserState, raw: string)
    requires HasPlace(st) && Canon(PlaceOf(st), raw) != []
    requires RunLine(st, Canon(PlaceOf(st), raw)[0]).error.None?
    ensures RunLine(st, raw) == RunLine(st, Canon(PlaceOf(st), raw)[0])
  {
    var taken := Taken(st);
    assert PlaceOf(taken) == PlaceOf(st);
    if st.mode.UpdatingFile? {
      if "*** " <= TrimEnd(raw) || IsContextMarker(TrimEnd(raw)) { ReadAlikeInUpdate(taken, raw); }
    } else if !st.mode.EndedPatch? {
      if ENVIRONMENT_ID <= Trim(raw) {
        EnvironmentReadAlike(taken, raw);
      } else if "*** " <= Trim(raw) {
        ReadAlikeBetween(taken, raw);
      }
    }
  }

  // ---------------------------------------------------------------------------
  // The place moves with the state
  // ---------------------------------------------------------------------------

  lemma MarkersDiffer()
    ensures END_PATCH[4] == 'E' && END_PATCH[6] == 'd' && END_PATCH[8] == 'P' && EOF_MARKER[4] == 'E'
         && EOF_MARKER[8] == 'o' && ADD_FILE[4] == 'A' && DELETE_FILE[4] == 'D' && UPDATE_FILE[4] == 'U'
         && MOVE_TO[4] == 'M' && ENVIRONMENT_ID[4] == 'E' && ENVIRONMENT_ID[6] == 'v' && BEGIN_PATCH[4] == 'B'
         && CHANGE_CONTEXT[0] == '@' && EMPTY_CHANGE_CONTEXT[0] == '@'
  {
  }

  lemma HeaderMoves(st: ParserState, trimmed: string)
    requires HasPlace(st) && HandleHeader(st, trimmed).Done? && !(st.mode.StartedPatch? && ENVIRONMENT_ID <= trimmed)
    ensures var next := HandleHeader(st, trimmed).state;
      HasPlace(next) && PlaceOf(next) == After(PlaceOf(st), trimmed) && "*** " <= trimmed
    ensures trimmed != EOF_MARKER && !(ENVIRONMENT_ID <= trimmed)
  {
    MarkersDiffer();
  }

  /** Lines of a chunk. */
  lemma BodyLineMoves(place: Place, raw: string)
    requires (place.UpdateHead? || place.InChunk?) && (raw == "" || raw[0] in " +-")
    ensures Canon(place, raw) == [raw] && After(place, raw) == InChunk
  {
    MarkersDiffer();
    TrimEndShape(raw);
    assert TrimEnd(raw) == "" || TrimEnd(raw)[0] == raw[0];
  }

  lemma MarkMoves(h: Hunk, raw: string)
    requires h.UpdateFile? && ContinueUpdate(h, raw).Grown?
    requires var mark := TrimEnd(raw); "*** " <= mark || IsContextMarker(mark)
    ensures var k := ContinueUpdate(h, raw).hunk;
      k.UpdateFile? && PlaceIn(k) == AfterAll(PlaceIn(h), Canon(PlaceIn(h), raw))
  {
    var mark := TrimEnd(raw);
    MarkersDiffer();
    TrimEndShape(raw);
    AfterOne(PlaceIn(h), mark);
    assert raw[0] == mark[0];
  }

  lemma ContinuedLineMoves(h: Hunk, raw: string)
    requires h.UpdateFile? && ContinueUpdate(h, raw).Grown?
    ensures var k := ContinueUpdate(h, raw).hunk;
      k.UpdateFile? && PlaceIn(k) == AfterAll(PlaceIn(h), Canon(PlaceIn(h), raw))
  {
    var mark := TrimEnd(raw);
    if "*** " <= mark || IsContextMarker(mark) {
      MarkMoves(h, raw);
    } else if Canon(PlaceIn(h), raw) == [] {
      SkippedInUpdate(h, raw);
    } else {
      MarkersDiffer();
      assert raw == "" || raw[0] == ' ' || raw[0] == '+' || raw[0] == '-';
      BodyLineMoves(PlaceIn(h), raw);
      AfterOne(PlaceIn(h), raw);
    }
  }

  lemma AddedLineMoves(raw: string)
    requires raw != "" && raw[0] == '+'
    ensures Canon(Between, raw) == [raw] && After(Between, raw) == Between
  {
    MarkersDiffer();
    TrimEndKeepsHead(raw);
  }

  lemma UpdateLineMoves(st: ParserState, raw: string)
    requires HasPlace(st) && st.mode.UpdatingFile? && ProcessLine(st, raw).error.None?
    ensures var next := ProcessLine(st, raw).state;
      HasPlace(next) && PlaceOf(next) == AfterAll(PlaceOf(st), Canon(PlaceOf(st), raw))
  {
    var trimmed := TrimEnd(raw);
    if HandleHeader(st, trimmed).Done? {
      HeaderMoves(st, trimmed);
      AfterOne(PlaceOf(st), trimmed);
    } else {
      ContinuedLineMoves(Last(st.hunks), raw);
    }
  }

  lemma OuterLineMoves(st: ParserState, raw: string)
    requires HasPlace(st) && PlaceOf(st).Between? && ProcessLine(st, raw).error.None?
    ensures var next := ProcessLine(st, raw).state;
      HasPlace(next) && PlaceOf(next) == AfterAll(Between, Canon(Between, raw))
  {
    var trimmed := Trim(raw);
    var line := Canon(Between, raw)[0];
    AfterOne(Between, line);
    MarkersDiffer();
    if st.mode.NotStarted? {
      assert line == BEGIN_PATCH;
    } else if st.mode.StartedPatch? && ENVIRONMENT_ID <= trimmed {
      assert After(Between, line) == Between;
    } else if HandleHeader(st, trimmed).Done? {
      HeaderMoves(st, trimmed);
    } else {
      AddedLineMoves(raw);
    }
  }

  /** After an accepted line the state is where its normal form leads. */
  lemma PlaceMoves(st: ParserState, raw: string)
    requires HasPlace(st) && RunLine(st, raw).error.None?
    ensures var next := RunLine(st, raw).state;
      HasPlace(next) && PlaceOf(next) == AfterAll(PlaceOf(st), Canon(PlaceOf(st), raw))
  {
    var taken := Taken(st);
    assert PlaceOf(taken) == PlaceOf(st);
    if st.mode.UpdatingFile? {
      UpdateLineMoves(taken, raw);
    } else if st.mode.EndedPatch? {
      assert Canon(Over, raw) == [];
    } else {
      OuterLineMoves(taken, raw);
    }
  }

  // ---------------------------------------------------------------------------
  // Line numbers do not matter
  // ---------------------------------------------------------------------------

  function Unnumbered(st: ParserState): ParserState {
    st.(lineNumber := 0, mode := if st.mode.UpdatingFile? then UpdatingFile(0) else st.mode)
  }

  /** The states differ in line numbers only. */
  predicate Alike(s: ParserState, t: ParserState) {
    Unnumbered(s) == Unnumbered(t)
  }

  lemma HeadersAreHandledAlike(s: ParserState, t: ParserState, trimmed: string)
    requires Alike(s, t)
    ensures var a, b := HandleHeader(s, trimmed), HandleHeader(t, trimmed);
      && (a.Done? <==> b.Done?) && (a.NotAHeader? <==> b.NotAHeader?)
      && (a.Done? ==> Alike(a.state, b.state))
  {
    assert EmptinessError(s, trimmed).None? <==> EmptinessError(t, trimmed).None?;
  }

  lemma LinesAreProcessedAlike(s: ParserState, t: ParserState, line: string)
    requires Alike(s, t)
    ensures var a, b := ProcessLine(s, line), ProcessLine(t, line);
      && (a.error.None? <==> b.error.None?) && (a.error.None? ==> Alike(a.state, b.state))
  {
    HeadersAreHandledAlike(s, t, if s.mode.UpdatingFile? then TrimEnd(line) else Trim(line));
  }

  /** Main: lines whose normal form is accepted are accepted, with the same outcome. */
  lemma {:induction false} ReadLikeTheNormalForm(s: ParserState, t: ParserState, raws: seq<string>, lines: seq<string>)
    requires Alike(s, t) && s.lineBuffer == "" && HasPlace(s)
    requires lines == Normal(PlaceOf(s), raws) && RunLines(t, lines).error.None?
    ensures RunLines(s, raws).error.None? && Alike(RunLines(s, raws).state, RunLines(t, lines).state)
    decreases |raws|
  {
    if raws != [] {
      var raw, rest := raws[0], raws[1..];
      var line := Canon(PlaceOf(s), raw);
      if line == [] {
        SkippedLineIsIgnored(s, raw);
        AfterOne(PlaceOf(s), "");
        assert PlaceOf(Taken(s)) == PlaceOf(s);
        ReadLikeTheNormalForm(Taken(s), t, rest, lines);
      } else {
        NormalHead(PlaceOf(s), raws);
        LineReadAlike(s, t, raw);
        ReadLikeTheNormalForm(RunLine(s, raw).state, RunLine(t, line[0]).state, rest, lines[1..]);
      }
    }
  }

  lemma NormalHead(place: Place, raws: seq<string>)
    requires raws != [] && Canon(place, raws[0]) != []
    ensures var line, lines := Canon(place, raws[0]), Normal(place, raws);
      lines != [] && lines[0] == line[0] && lines[1..] == Normal(AfterAll(place, line), raws[1..])
  {
    var line := Canon(place, raws[0]);
    assert line == [line[0]];
  }

  lemma {:induction false} LinesAreRunAlike(s: ParserState, t: ParserState, line: string)
    requires Alike(s, t)
    ensures var a, b := RunLine(s, line), RunLine(t, line);
      && (a.error.None? <==> b.error.None?)
      && (a.error.None? ==> Alike(a.state, b.state) && a.state.lineBuffer == "")
  {
    assert RunLine(s, line) == ProcessLine(Taken(s), line) && RunLine(t, line) == ProcessLine(Taken(t), line);
    LinesAreProcessedAlike(Taken(s), Taken(t), line);
    LineBufferStaysEmpty(s, line);
  }

  lemma LineReadAlike(s: ParserState, t: ParserState, raw: string)
    requires Alike(s, t) && HasPlace(s) && Canon(PlaceOf(s), raw) != []
    requires RunLine(t, Canon(PlaceOf(s), raw)[0]).error.None?
    ensures var line := Canon(PlaceOf(s), raw);
      var a, b := RunLine(s, raw), RunLine(t, line[0]);
      && a.error.None? && Alike(a.state, b.state) && a.state.lineBuffer == ""
      && HasPlace(a.state) && PlaceOf(a.state) == AfterAll(PlaceOf(s), line)
  {
    var place := PlaceOf(s);
    var line := Canon(place, raw)[0];
    var a, b := RunLine(s, line), RunLine(t, line);
    assert a.error.None? && Alike(a.state, b.state) && a.state.lineBuffer == "" by { LinesAreRunAlike(s, t, line); }
    assert RunLine(s, raw) == a by { LineIsReadAlike(s, raw); }
    assert HasPlace(a.state) && PlaceOf(a.state) == AfterAll(place, Canon(place, raw)) by { PlaceMoves(s, raw); }
  }
}
