/** Finding a chunk's lines in a file, from the strictest comparison to the most lenient. */
module SeekSequence {
  import opened Text

  /** How two lines are compared, strictest first. */
  datatype Level = Exact | IgnoreTrailing | IgnoreSurrounding | Normalised {
    function Rank(): nat {
      match this
      case Exact => 0
      case IgnoreTrailing => 1
      case IgnoreSurrounding => 2
      case Normalised => 3
    }
  }

  /** Typographic dashes, quotes and spaces become their ASCII equivalents. */
  function NormaliseChar(c: char): char {
    if '\U{2010}' <= c <= '\U{2015}' || c == '\U{2212}' then '-'
    else if '\U{2018}' <= c <= '\U{201B}' then '\''
    else if '\U{201C}' <= c <= '\U{201F}' then '"'
    else if c == '\U{A0}' || '\U{2002}' <= c <= '\U{200A}' || c == '\U{202F}' || c == '\U{205F}' || c == '\U{3000}'
      then ' '
    else c
  }

  function NormaliseChars(s: string): (r: string)
    ensures |r| == |s| && forall i | 0 <= i < |s| :: r[i] == NormaliseChar(s[i])
  {
    seq(|s|, i requires 0 <= i < |s| => NormaliseChar(s[i]))
  }

  function Normalise(s: string): string {
    NormaliseChars(Trim(s))
  }

  /** What of a line counts at a level. */
  function Key(level: Level, s: string): string {
    match level
    case Exact => s
    case IgnoreTrailing => TrimEnd(s)
    case IgnoreSurrounding => Trim(s)
    case Normalised => Normalise(s)
  }

  predicate SameAt(level: Level, a: string, b: string) {
    Key(level, a) == Key(level, b)
  }

  /** Line `p` of a pattern laid over `lines` at index `i`. */
  predicate AgreesAt(level: Level, lines: seq<string>, pattern: seq<string>, i: nat, p: nat)
    requires i + |pattern| <= |lines| && p < |pattern|
  {
    SameAt(level, lines[i + p], pattern[p])
  }

  /** `pattern` occurs in `lines` at index `i`, compared at `level`. */
  predicate OccursAt(level: Level, lines: seq<string>, pattern: seq<string>, i: int) {
    && 0 <= i && i + |pattern| <= |lines|
    && forall p: nat | p < |pattern| :: AgreesAt(level, lines, pattern, i, p)
  }

  // ---------------------------------------------------------------------------
  // Specification
  // ---------------------------------------------------------------------------

  /** The first occurrence at or after `i`. */
  function FindFrom(level: Level, lines: seq<string>, pattern: seq<string>, i: nat): Option<nat>
    decreases |lines| - i
  {
    if i + |pattern| > |lines| then None
    else if OccursAt(level, lines, pattern, i) then Some(i)
    else if i == |lines| then None
    else FindFrom(level, lines, pattern, i + 1)
  }

  function OrElse(a: Option<nat>, b: Option<nat>): Option<nat> {
    if a.Some? then a else b
  }

  /** With `eof` only the very end of the file is looked at, wherever `start` is. */
  function SearchStart(lines: seq<string>, pattern: seq<string>, start: nat, eof: bool): nat {
    if eof && |pattern| <= |lines| then |lines| - |pattern| else start
  }

  function Seek(lines: seq<string>, pattern: seq<string>, start: nat, eof: bool): Option<nat> {
    if pattern == [] then Some(start)
    else if |pattern| > |lines| then None
    else
      var from := SearchStart(lines, pattern, start, eof);
      OrElse(FindFrom(Exact, lines, pattern, from),
      OrElse(FindFrom(IgnoreTrailing, lines, pattern, from),
      OrElse(FindFrom(IgnoreSurrounding, lines, pattern, from),
             FindFrom(Normalised, lines, pattern, from))))
  }

  // ---------------------------------------------------------------------------
  // The levels form a chain
  // ---------------------------------------------------------------------------

  lemma NormaliseKeepsInk(c: char)
    ensures !IsWhitespace(c) ==> !IsWhitespace(NormaliseChar(c))
    ensures NormaliseChar(NormaliseChar(c)) == NormaliseChar(c)
  {
  }

  /** Normalising twice is normalising once. */
  lemma NormaliseIsIdempotent(s: string)
    ensures Normalise(Normalise(s)) == Normalise(s)
  {
    var t := Trim(s);
    var n := NormaliseChars(t);
    TrimShape(s);
    forall i | 0 <= i < |t|
      ensures NormaliseChar(n[i]) == n[i] && (!IsWhitespace(t[i]) ==> !IsWhitespace(n[i]))
    {
      NormaliseKeepsInk(t[i]);
    }
    TrimOfInk(n);
    assert NormaliseChars(n) == n;
  }

  /** Lines that are the same at a level are the same at every more lenient one. */
  lemma LenienceGrows(strict: Level, lenient: Level, a: string, b: string)
    requires strict.Rank() <= lenient.Rank()
    requires SameAt(strict, a, b)
    ensures SameAt(lenient, a, b)
  {
  }

  lemma OccurrenceSurvives(strict: Level, lenient: Level, lines: seq<string>, pattern: seq<string>, i: int)
    requires strict.Rank() <= lenient.Rank() && OccursAt(strict, lines, pattern, i)
    ensures OccursAt(lenient, lines, pattern, i)
  {
    forall p: nat | p < |pattern| ensures AgreesAt(lenient, lines, pattern, i, p) {
      assert AgreesAt(strict, lines, pattern, i, p);
      LenienceGrows(strict, lenient, lines[i + p], pattern[p]);
    }
  }

  // ---------------------------------------------------------------------------
  // Soundness, completeness, strictness first
  // ---------------------------------------------------------------------------

  /** No occurrence at `level` from `from` up to, not including, `to`. */
  predicate NoneBetween(level: Level, lines: seq<string>, pattern: seq<string>, from: nat, to: int) {
    forall j | from <= j < to :: !OccursAt(level, lines, pattern, j)
  }

  lemma NoneEarlier(level: Level, lines: seq<string>, pattern: seq<string>, i: nat, to: int)
    requires !OccursAt(level, lines, pattern, i) && NoneBetween(level, lines, pattern, i + 1, to)
    ensures NoneBetween(level, lines, pattern, i, to)
  {
  }

  lemma {:induction false} FindFromIsFirst(level: Level, lines: seq<string>, pattern: seq<string>, i: nat)
    ensures var r := FindFrom(level, lines, pattern, i);
      match r
      case Some(k) => i <= k && OccursAt(level, lines, pattern, k) && NoneBetween(level, lines, pattern, i, k)
      case None => NoneBetween(level, lines, pattern, i, |lines| + 1)
    decreases |lines| - i
  {
    if i + |pattern| <= |lines| && !OccursAt(level, lines, pattern, i) && i < |lines| {
      FindFromIsFirst(level, lines, pattern, i + 1);
      var r := FindFrom(level, lines, pattern, i + 1);
      assert FindFrom(level, lines, pattern, i) == r;
      NoneEarlier(level, lines, pattern, i, if r.Some? then r.value else |lines| + 1);
    }
  }

  /** `k` is the place for `pattern` in the window: found at some level, first at that level,
      and nowhere in the window at a stricter one. */
  predicate IsBest(lines: seq<string>, pattern: seq<string>, from: nat, level: Level, k: nat) {
    && from <= k && OccursAt(level, lines, pattern, k)
    && NoneBetween(level, lines, pattern, from, k)
    && forall l: Level | l.Rank() < level.Rank() :: NoneBetween(l, lines, pattern, from, |lines| + 1)
  }

  /** The level at which `Seek` finds a pattern. */
  function SeekLevel(lines: seq<string>, pattern: seq<string>, from: nat): Level {
    if FindFrom(Exact, lines, pattern, from).Some? then Exact
    else if FindFrom(IgnoreTrailing, lines, pattern, from).Some? then IgnoreTrailing
    else if FindFrom(IgnoreSurrounding, lines, pattern, from).Some? then IgnoreSurrounding
    else Normalised
  }

  lemma BestIsFound(lines: seq<string>, pattern: seq<string>, from: nat, level: Level, k: nat)
    requires IsBest(lines, pattern, from, level, k)
    ensures FindFrom(level, lines, pattern, from) == Some(k)
  {
    FindFromIsFirst(level, lines, pattern, from);
    var r := FindFrom(level, lines, pattern, from);
    if r.Some? { assert OccursAt(level, lines, pattern, r.value); }
  }

  lemma NothingStricterIsFound(
    lines: seq<string>, pattern: seq<string>, from: nat, level: Level, k: nat, l: Level)
    requires IsBest(lines, pattern, from, level, k)
    ensures l.Rank() < level.Rank() ==> FindFrom(l, lines, pattern, from) == None
  {
    FindFromIsFirst(l, lines, pattern, from);
    var r := FindFrom(l, lines, pattern, from);
    if r.Some? { assert OccursAt(l, lines, pattern, r.value); }
  }

  lemma BestIsUnique(lines: seq<string>, pattern: seq<string>, from: nat, level: Level, k: nat)
    requires IsBest(lines, pattern, from, level, k)
    ensures FindFrom(level, lines, pattern, from) == Some(k)
    ensures level == SeekLevel(lines, pattern, from)
  {
    BestIsFound(lines, pattern, from, level, k);
    NothingStricterIsFound(lines, pattern, from, level, k, Exact);
    NothingStricterIsFound(lines, pattern, from, level, k, IgnoreTrailing);
    NothingStricterIsFound(lines, pattern, from, level, k, IgnoreSurrounding);
  }

  /** What `Seek` finds is the best place, at the level it was found. */
  lemma FoundIsBest(lines: seq<string>, pattern: seq<string>, from: nat, k: nat)
    requires FindFrom(SeekLevel(lines, pattern, from), lines, pattern, from) == Some(k)
    ensures IsBest(lines, pattern, from, SeekLevel(lines, pattern, from), k)
  {
    forall l: Level ensures var r := FindFrom(l, lines, pattern, from);
      r.None? ==> NoneBetween(l, lines, pattern, from, |lines| + 1)
    {
      FindFromIsFirst(l, lines, pattern, from);
    }
    FindFromIsFirst(SeekLevel(lines, pattern, from), lines, pattern, from);
  }

  lemma SeekFindsTheBestKey(lines: seq<string>, pattern: seq<string>, start: nat, eof: bool, k: nat)
    requires pattern != [] && |pattern| <= |lines|
    ensures Seek(lines, pattern, start, eof) == Some(k) <==>
      exists level :: IsBest(lines, pattern, SearchStart(lines, pattern, start, eof), level, k)
  {
    var from := SearchStart(lines, pattern, start, eof);
    FoundIfAndOnlyIfBest(lines, pattern, from, k);
    SeekIsFindAtItsLevel(lines, pattern, start, eof);
  }

  lemma FoundIfAndOnlyIfBest(lines: seq<string>, pattern: seq<string>, from: nat, k: nat)
    ensures FindFrom(SeekLevel(lines, pattern, from), lines, pattern, from) == Some(k) <==>
      exists level :: IsBest(lines, pattern, from, level, k)
  {
    if FindFrom(SeekLevel(lines, pattern, from), lines, pattern, from) == Some(k) {
      FoundIsBest(lines, pattern, from, k);
    } else if level :| IsBest(lines, pattern, from, level, k) {
      BestIsUnique(lines, pattern, from, level, k);
    }
  }

  lemma SeekIsFindAtItsLevel(lines: seq<string>, pattern: seq<string>, start: nat, eof: bool)
    requires pattern != [] && |pattern| <= |lines|
    ensures var from := SearchStart(lines, pattern, start, eof);
      Seek(lines, pattern, start, eof) == FindFrom(SeekLevel(lines, pattern, from), lines, pattern, from)
  {
  }

  lemma SeekFindsNoKey(lines: seq<string>, pattern: seq<string>, start: nat, eof: bool)
    requires pattern != [] && |pattern| <= |lines|
    ensures Seek(lines, pattern, start, eof) == None <==>
      NoneBetween(Normalised, lines, pattern, SearchStart(lines, pattern, start, eof), |lines| + 1)
  {
    var from := SearchStart(lines, pattern, start, eof);
    var level := SeekLevel(lines, pattern, from);
    SeekIsFindAtItsLevel(lines, pattern, start, eof);
    FindFromIsFirst(level, lines, pattern, from);
    var r := FindFrom(level, lines, pattern, from);
    if r.Some? {
      OccurrenceSurvives(level, Normalised, lines, pattern, r.value);
    } else {
      assert level == Normalised;
    }
  }

  /** Found places are inside the file; an empty pattern is found where the search starts. */
  lemma SeekIsInBounds(lines: seq<string>, pattern: seq<string>, start: nat, eof: bool)
    ensures var r := Seek(lines, pattern, start, eof);
      r.Some? ==>
        if pattern == [] then r.value == start
        else r.value + |pattern| <= |lines| && SearchStart(lines, pattern, start, eof) <= r.value
  {
    if pattern != [] && |pattern| <= |lines| {
      var from := SearchStart(lines, pattern, start, eof);
      FindFromIsFirst(SeekLevel(lines, pattern, from), lines, pattern, from);
    }
  }

  /** With `eof` set the cursor does not matter: there is no falling back to a search from it. */
  lemma EofIgnoresTheCursor(lines: seq<string>, pattern: seq<string>, start1: nat, start2: nat)
    requires pattern != []
    ensures Seek(lines, pattern, start1, true) == Seek(lines, pattern, start2, true)
    ensures Seek(lines, pattern, start1, true).Some? ==>
      Seek(lines, pattern, start1, true).value == |lines| - |pattern|
  {
    SeekIsInBounds(lines, pattern, start1, true);
  }

  lemma EofSeekLooksAtTheEnd(lines: seq<string>, pattern: seq<string>, start: nat)
    requires pattern != [] && |pattern| <= |lines|
    ensures Seek(lines, pattern, start, true).None? <==>
      !OccursAt(Normalised, lines, pattern, |lines| - |pattern|)
  {
    OnlyOnePlaceLeft(Normalised, lines, pattern);
    SeekFindsNoKey(lines, pattern, start, true);
  }

  lemma OnlyOnePlaceLeft(level: Level, lines: seq<string>, pattern: seq<string>)
    requires |pattern| <= |lines|
    ensures var end := |lines| - |pattern|;
      NoneBetween(level, lines, pattern, end, |lines| + 1) <==> !OccursAt(level, lines, pattern, end)
  {
  }

  /** The search the comment describes: first at the end, and then from `start`. */
  function SeekFallingBack(lines: seq<string>, pattern: seq<string>, start: nat): Option<nat> {
    OrElse(Seek(lines, pattern, start, true), Seek(lines, pattern, start, false))
  }

  lemma FallingBackByKeys(lines: seq<string>, pattern: seq<string>, start: nat)
    requires pattern != [] && |pattern| <= |lines|
    ensures SeekFallingBack(lines, pattern, start) == Seek(lines, pattern, start, true) <==>
      || OccursAt(Normalised, lines, pattern, |lines| - |pattern|)
      || NoneBetween(Normalised, lines, pattern, start, |lines| + 1)
  {
    EofSeekLooksAtTheEnd(lines, pattern, start);
    SeekFindsNoKey(lines, pattern, start, false);
  }

  lemma FallsBackByKeys(lines: seq<string>, pattern: seq<string>, start: nat)
    requires pattern != [] && |pattern| <= |lines|
    requires
      || OccursAt(Normalised, lines, pattern, |lines| - |pattern|)
      || NoneBetween(Normalised, lines, pattern, start, |lines| + 1)
    ensures SeekFallingBack(lines, pattern, start) == Seek(lines, pattern, start, true)
  {
    FallingBackByKeys(lines, pattern, start);
  }

  /** So an end-of-file pattern can be found before the cursor, which no other pattern can. */
  lemma EofMatchesBeforeTheCursor()
    ensures Seek(["x", "a"], ["a"], 2, true) == Some(1)
    ensures Seek(["x", "a"], ["a"], 2, false) == None
  {
    assert OccursAt(Exact, ["x", "a"], ["a"], 1);
  }

  // ---------------------------------------------------------------------------
  // The search itself
  // ---------------------------------------------------------------------------

  /** The comparison loop at one index. */
  method MatchesAt(level: Level, lines: seq<string>, pattern: seq<string>, i: nat) returns (ok: bool)
    requires i + |pattern| <= |lines|
    ensures ok == OccursAt(level, lines, pattern, i)
  {
    ok := true;
    var p := 0;
    while p < |pattern|
      invariant 0 <= p <= |pattern|
      invariant ok
      invariant forall q: nat | q < p :: AgreesAt(level, lines, pattern, i, q)
    {
      if Key(level, lines[i + p]) != Key(level, pattern[p]) {
        assert !AgreesAt(level, lines, pattern, i, p);
        ok := false;
        break;
      }
      p := p + 1;
    }
  }

  /** One turn of the search: the comparison at an index decides whether to go on from the next. */
  lemma FindFromSteps(level: Level, lines: seq<string>, pattern: seq<string>, i: nat)
    requires pattern != []
    ensures i + |pattern| > |lines| ==> FindFrom(level, lines, pattern, i) == None
    ensures i + |pattern| <= |lines| ==>
      FindFrom(level, lines, pattern, i)
      == if OccursAt(level, lines, pattern, i) then Some(i) else FindFrom(level, lines, pattern, i + 1)
  {
  }

  /** One pass of the search at one level. */
  method SearchLevel(level: Level, lines: seq<string>, pattern: seq<string>, searchStart: nat) returns (r: Option<nat>)
    requires pattern != [] && |pattern| <= |lines|
    ensures r == FindFrom(level, lines, pattern, searchStart)
  {
    var i := searchStart;
    ghost var goal := FindFrom(level, lines, pattern, searchStart);
    while i <= |lines| - |pattern|
      invariant searchStart <= i
      invariant FindFrom(level, lines, pattern, i) == goal
      decreases |lines| - |pattern| - i + 1
    {
      FindFromSteps(level, lines, pattern, i);
      var ok := MatchesAt(level, lines, pattern, i);
      if ok {
        return Some(i);
      }
      i := i + 1;
    }
    FindFromSteps(level, lines, pattern, i);
    return None;
  }

  method SeekLines(lines: seq<string>, pattern: seq<string>, start: nat, eof: bool) returns (r: Option<nat>)
    ensures r == Seek(lines, pattern, start, eof)
  {
    if pattern == [] {
      return Some(start);
    }
    if |pattern| > |lines| {
      return None;
    }
    var searchStart := if eof && |lines| >= |pattern| then |lines| - |pattern| else start;
    r := SearchLevel(Exact, lines, pattern, searchStart);
    if r.Some? { return; }
    r := SearchLevel(IgnoreTrailing, lines, pattern, searchStart);
    if r.Some? { return; }
    r := SearchLevel(IgnoreSurrounding, lines, pattern, searchStart);
    if r.Some? { return; }
    r := SearchLevel(Normalised, lines, pattern, searchStart);
  }
}
