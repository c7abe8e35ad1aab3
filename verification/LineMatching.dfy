/** What the levels of the search mean for the text of the lines, and so what it finds. */
module LineMatching {
  import opened Text
  import opened SeekSequence

  const DASHES := "-\U{2010}\U{2011}\U{2012}\U{2013}\U{2014}\U{2015}\U{2212}"
  const SINGLE_QUOTES := "'\U{2018}\U{2019}\U{201A}\U{201B}"
  const DOUBLE_QUOTES := "\"\U{201C}\U{201D}\U{201E}\U{201F}"
  const SPACES :=
    " \U{A0}\U{2002}\U{2003}\U{2004}\U{2005}\U{2006}\U{2007}\U{2008}\U{2009}\U{200A}\U{202F}\U{205F}\U{3000}"

  /** Characters of which one may be written for the other. */
  predicate Interchangeable(c: char, d: char) {
    || c == d
    || (c in DASHES && d in DASHES)
    || (c in SINGLE_QUOTES && d in SINGLE_QUOTES)
    || (c in DOUBLE_QUOTES && d in DOUBLE_QUOTES)
    || (c in SPACES && d in SPACES)
  }

  /** `n` characters of `a` from `i` on, with nothing but white space around them. */
  predicate Inner(a: string, i: nat, n: nat) {
    i + n <= |a| && Blank(a[..i]) && Blank(a[i + n..])
  }

  ghost predicate SameInner(a: string, b: string) {
    exists i: nat, j: nat, n: nat | Inner(a, i, n) && Inner(b, j, n) :: a[i..i + n] == b[j..j + n]
  }

  predicate AlikeThroughout(x: string, y: string) {
    |x| == |y| && forall k | 0 <= k < |x| :: Interchangeable(x[k], y[k])
  }

  ghost predicate AlikeInner(a: string, b: string) {
    exists i: nat, j: nat, n: nat | Inner(a, i, n) && Inner(b, j, n) :: AlikeThroughout(a[i..i + n], b[j..j + n])
  }

  /** The same text up to some point and white space behind it. */
  predicate SameUpTo(a: string, b: string, n: nat) {
    n <= |a| && n <= |b| && a[..n] == b[..n] && Blank(a[n..]) && Blank(b[n..])
  }

  /** When two lines agree: the same text; the same but for white space at the end; the same but for
      white space at both ends; or alike character by character between such white space. */
  ghost predicate Agree(level: Level, a: string, b: string) {
    match level
    case Exact => a == b
    case IgnoreTrailing => exists n :: SameUpTo(a, b, n)
    case IgnoreSurrounding => SameInner(a, b)
    case Normalised => AlikeInner(a, b)
  }

  lemma {:induction false} TrimEndDropsBlank(x: string, w: string)
    requires Blank(w)
    ensures TrimEnd(x + w) == TrimEnd(x)
    decreases |w|
  {
    if w == "" {
      assert x + w == x;
    } else {
      var shorter := w[..|w| - 1];
      assert (x + w)[..|x + w| - 1] == x + shorter;
      TrimEndDropsBlank(x, shorter);
    }
  }

  lemma {:induction false} TrimStartDropsBlank(w: string, x: string)
    requires Blank(w)
    ensures TrimStart(w + x) == TrimStart(x)
    decreases |w|
  {
    if w == "" {
      assert w + x == x;
    } else {
      assert (w + x)[1..] == w[1..] + x;
      TrimStartDropsBlank(w[1..], x);
    }
  }

  /** Trimming looks at what is inside alone. */
  lemma {:induction false} TrimOfInner(a: string, i: nat, n: nat)
    requires Inner(a, i, n)
    ensures Trim(a) == Trim(a[i..i + n])
  {
    var u, x, w := a[..i], a[i..i + n], a[i + n..];
    assert a == (u + x) + w;
    TrimEndDropsBlank(u + x, w);
    TrimsCommute(u + x);
    TrimStartDropsBlank(u, x);
    TrimsCommute(x);
  }

  lemma {:induction false} TrimIsInner(a: string) returns (i: nat)
    ensures Inner(a, i, |Trim(a)|) && a[i..i + |Trim(a)|] == Trim(a)
  {
    TrimEndShape(a);
    i := StartIsInner(TrimEnd(a));
    InnerOfFront(a, TrimEnd(a), i, |Trim(a)|);
  }

  lemma {:induction false} StartIsInner(t: string) returns (i: nat)
    ensures i + |TrimStart(t)| == |t| && Blank(t[..i]) && t[i..] == TrimStart(t)
  {
    TrimStartShape(t);
    i := |t| - |TrimStart(t)|;
  }

  lemma {:induction false} InnerOfFront(a: string, t: string, i: nat, n: nat)
    requires t <= a && i + n == |t| && Blank(t[..i]) && Blank(a[|t|..])
    ensures Inner(a, i, n) && a[i..i + n] == t[i..]
  {
    assert a[..|t|] == t && a[..i] == t[..i];
  }

  lemma CharsAgree(c: char, d: char)
    ensures NormaliseChar(c) == NormaliseChar(d) <==> Interchangeable(c, d)
  {
  }

  lemma NormaliseKeepsWhite(c: char)
    ensures IsWhitespace(NormaliseChar(c)) <==> IsWhitespace(c)
  {
  }

  lemma NormaliseSlice(s: string, i: nat, j: nat)
    requires i <= j <= |s|
    ensures NormaliseChars(s)[i..j] == NormaliseChars(s[i..j])
  {
  }

  lemma {:induction false} TrimEndOfNormalised(s: string)
    ensures TrimEnd(NormaliseChars(s)) == NormaliseChars(TrimEnd(s))
  {
    if s != "" {
      var n := |s| - 1;
      NormaliseKeepsWhite(s[n]);
      NormaliseSlice(s, 0, n);
      TrimEndOfNormalised(s[..n]);
    }
  }

  lemma {:induction false} TrimStartOfNormalised(s: string)
    ensures TrimStart(NormaliseChars(s)) == NormaliseChars(TrimStart(s))
  {
    if s != "" {
      NormaliseKeepsWhite(s[0]);
      NormaliseSlice(s, 1, |s|);
      assert NormaliseChars(s)[1..] == NormaliseChars(s[1..]);
      TrimStartOfNormalised(s[1..]);
    }
  }

  lemma TrimOfNormalised(s: string)
    ensures Trim(NormaliseChars(s)) == Normalise(s)
  {
    TrimEndOfNormalised(s);
    TrimStartOfNormalised(TrimEnd(s));
  }

  lemma NormalisedAlike(x: string, y: string)
    ensures NormaliseChars(x) == NormaliseChars(y) <==> AlikeThroughout(x, y)
  {
    forall k | 0 <= k < |x| && k < |y|
      ensures NormaliseChars(x)[k] == NormaliseChars(y)[k] <==> Interchangeable(x[k], y[k])
    {
      CharsAgree(x[k], y[k]);
    }
  }

  lemma TrailingMeans(a: string, b: string)
    ensures TrimEnd(a) == TrimEnd(b) <==> Agree(IgnoreTrailing, a, b)
  {
    if TrimEnd(a) == TrimEnd(b) {
      TrimEndShape(a);
      TrimEndShape(b);
      assert SameUpTo(a, b, |TrimEnd(a)|);
    }
    if n: nat :| SameUpTo(a, b, n) {
      assert a == a[..n] + a[n..] && b == b[..n] + b[n..];
      TrimEndDropsBlank(a[..n], a[n..]);
      TrimEndDropsBlank(b[..n], b[n..]);
    }
  }

  lemma SurroundingMeans(a: string, b: string)
    ensures Trim(a) == Trim(b) <==> Agree(IgnoreSurrounding, a, b)
  {
    if Trim(a) == Trim(b) {
      var i := TrimIsInner(a);
      var j := TrimIsInner(b);
    }
    if i: nat, j: nat, n: nat :| Inner(a, i, n) && Inner(b, j, n) && a[i..i + n] == b[j..j + n] {
      TrimOfInner(a, i, n);
      TrimOfInner(b, j, n);
    }
  }

  lemma NormalisedMeans(a: string, b: string)
    ensures Normalise(a) == Normalise(b) <==> Agree(Normalised, a, b)
  {
    if Normalise(a) == Normalise(b) {
      var i := TrimIsInner(a);
      var j := TrimIsInner(b);
      NormalisedAlike(Trim(a), Trim(b));
    }
    if i: nat, j: nat, n: nat :| Inner(a, i, n) && Inner(b, j, n) && AlikeThroughout(a[i..i + n], b[j..j + n]) {
      TrimOfInner(a, i, n);
      TrimOfInner(b, j, n);
      NormalisedAlike(a[i..i + n], b[j..j + n]);
      TrimOfNormalised(a[i..i + n]);
      TrimOfNormalised(b[j..j + n]);
    }
  }

  /** Main: what is compared at each level is just that. */
  lemma LevelsMean(level: Level, a: string, b: string)
    ensures SameAt(level, a, b) <==> Agree(level, a, b)
  {
    match level
    case Exact =>
    case IgnoreTrailing => TrailingMeans(a, b);
    case IgnoreSurrounding => SurroundingMeans(a, b);
    case Normalised => NormalisedMeans(a, b);
  }

  /** The lines of `pattern` agree with those of `lines` from `i` on. */
  ghost predicate LiesAt(level: Level, lines: seq<string>, pattern: seq<string>, i: int) {
    && 0 <= i && i + |pattern| <= |lines|
    && forall p: nat | p < |pattern| :: Agree(level, lines[i + p], pattern[p])
  }

  ghost predicate LiesNowhere(level: Level, lines: seq<string>, pattern: seq<string>, from: nat, to: int) {
    forall j | from <= j < to :: !LiesAt(level, lines, pattern, j)
  }

  lemma OccurrencesLie(level: Level, lines: seq<string>, pattern: seq<string>, i: int)
    ensures OccursAt(level, lines, pattern, i) <==> LiesAt(level, lines, pattern, i)
  {
    if 0 <= i && i + |pattern| <= |lines| {
      forall p: nat | p < |pattern|
        ensures AgreesAt(level, lines, pattern, i, p) <==> Agree(level, lines[i + p], pattern[p])
      {
        LevelsMean(level, lines[i + p], pattern[p]);
      }
    }
  }

  lemma NoneLies(level: Level, lines: seq<string>, pattern: seq<string>, from: nat, to: int)
    ensures NoneBetween(level, lines, pattern, from, to) <==> LiesNowhere(level, lines, pattern, from, to)
  {
    forall j ensures OccursAt(level, lines, pattern, j) <==> LiesAt(level, lines, pattern, j) {
      OccurrencesLie(level, lines, pattern, j);
    }
  }

  /** `k` is the best place for `pattern` from `from` on: the first at its level, where no stricter
      level has any. */
  ghost predicate BestPlace(lines: seq<string>, pattern: seq<string>, from: nat, k: nat) {
    exists level :: BestPlaceAt(lines, pattern, from, level, k)
  }

  ghost predicate BestPlaceAt(lines: seq<string>, pattern: seq<string>, from: nat, level: Level, k: nat) {
    && from <= k && LiesAt(level, lines, pattern, k)
    && LiesNowhere(level, lines, pattern, from, k)
    && forall l: Level | l.Rank() < level.Rank() :: LiesNowhere(l, lines, pattern, from, |lines| + 1)
  }

  lemma BestIsBestPlace(lines: seq<string>, pattern: seq<string>, from: nat, level: Level, k: nat)
    ensures IsBest(lines, pattern, from, level, k) <==> BestPlaceAt(lines, pattern, from, level, k)
  {
    OccurrencesLie(level, lines, pattern, k);
    NoneLies(level, lines, pattern, from, k);
    var end := |lines| + 1;
    forall l: Level ensures NoneBetween(l, lines, pattern, from, end) <==> LiesNowhere(l, lines, pattern, from, end) {
      NoneLies(l, lines, pattern, from, end);
    }
  }

  lemma BestIsSomeBestPlace(lines: seq<string>, pattern: seq<string>, from: nat, k: nat)
    ensures (exists level :: IsBest(lines, pattern, from, level, k)) <==> BestPlace(lines, pattern, from, k)
  {
    forall level ensures IsBest(lines, pattern, from, level, k) <==> BestPlaceAt(lines, pattern, from, level, k) {
      BestIsBestPlace(lines, pattern, from, level, k);
    }
  }

  /** Main: a pattern is found exactly at its best place from the start on, or at the very end of
      the file when that is asked for; an empty pattern at the start, and one that is too long
      nowhere. */
  lemma SeekFindsTheBest(lines: seq<string>, pattern: seq<string>, start: nat, eof: bool, k: nat)
    ensures Seek(lines, pattern, start, eof) == Some(k) <==>
      if pattern == [] then k == start
      else |pattern| <= |lines| && BestPlace(lines, pattern, if eof then |lines| - |pattern| else start, k)
  {
    if pattern != [] && |pattern| <= |lines| {
      SeekFindsTheBestKey(lines, pattern, start, eof, k);
      BestIsSomeBestPlace(lines, pattern, if eof then |lines| - |pattern| else start, k);
    }
  }

  /** It finds nothing exactly when the pattern is too long or lies nowhere even leniently. */
  lemma SeekFindsNothing(lines: seq<string>, pattern: seq<string>, start: nat, eof: bool)
    requires pattern != []
    ensures Seek(lines, pattern, start, eof) == None <==>
      || |pattern| > |lines|
      || LiesNowhere(Normalised, lines, pattern, if eof then |lines| - |pattern| else start, |lines| + 1)
  {
    if |pattern| <= |lines| {
      SeekFindsNoKey(lines, pattern, start, eof);
      NoneLies(Normalised, lines, pattern, SearchStart(lines, pattern, start, eof), |lines| + 1);
    }
  }

  lemma {:induction false} EndOrNowhere(lines: seq<string>, pattern: seq<string>, start: nat)
    ensures
      || OccursAt(Normalised, lines, pattern, |lines| - |pattern|)
      || NoneBetween(Normalised, lines, pattern, start, |lines| + 1)
      <==>
      || LiesAt(Normalised, lines, pattern, |lines| - |pattern|)
      || LiesNowhere(Normalised, lines, pattern, start, |lines| + 1)
  {
    OccurrencesLie(Normalised, lines, pattern, |lines| - |pattern|);
    NoneLies(Normalised, lines, pattern, start, |lines| + 1);
  }

  /** The search the comment describes gives the same exactly when the end matches or nothing
      matches from `start` on. */
  lemma {:induction false} FallingBackMakesADifference(lines: seq<string>, pattern: seq<string>, start: nat)
    requires pattern != [] && |pattern| <= |lines|
    ensures SeekFallingBack(lines, pattern, start) == Seek(lines, pattern, start, true) <==>
      || LiesAt(Normalised, lines, pattern, |lines| - |pattern|)
      || LiesNowhere(Normalised, lines, pattern, start, |lines| + 1)
  {
    FallingBackByKeys(lines, pattern, start);
    EndOrNowhere(lines, pattern, start);
  }
}
