/** The command screen: a quote-aware splitter cuts a command line at the shell operators and
    every segment is checked against the allow and deny prefixes. */
module ExecPolicy {
  import opened Text

  // ---------------------------------------------------------------------------
  // The splitter
  // ---------------------------------------------------------------------------

  datatype Quote = Outside | Single | Double

  /** The quoting after reading `c`. */
  function After(q: Quote, c: char): Quote {
    match q
    case Single => if c == '\'' then Outside else Single
    case Double => if c == '"' then Outside else Double
    case Outside => if c == '\'' then Single else if c == '"' then Double else Outside
  }

  function QuoteAfter(q: Quote, s: string): Quote
    decreases |s|
  {
    if s == [] then q else QuoteAfter(After(q, s[0]), s[1..])
  }

  predicate Doubles(c: char) {
    c == '&' || c == '|'
  }

  /** Outside quotes these always cut. */
  predicate Cuts(c: char) {
    c == ';' || c == '\n' || Doubles(c) || c == '`' || c == '(' || c == ')'
  }

  /** `c` ends the current segment; `dollar` says that the segment so far ends in '$'. */
  predicate Separates(q: Quote, dollar: bool, c: char) {
    q == Outside && (Cuts(c) || (c == '{' && !dollar))
  }

  /** A doubled '&' or '|' is one operator. */
  function Width(s: string): (w: nat)
    requires s != []
    ensures 1 <= w <= |s|
  {
    if Doubles(s[0]) && |s| > 1 && s[1] == s[0] then 2 else 1
  }

  /** `text` put in front of the first segment. */
  function Glue(text: string, segments: seq<string>): seq<string>
    requires segments != []
  {
    [text + segments[0]] + segments[1..]
  }

  /** The segments of `s`, the first of which continues a segment already begun. */
  function Segments(s: string, q: Quote, dollar: bool): (r: seq<string>)
    ensures r != []
    decreases |s|
  {
    if s == [] then [[]]
    else if Separates(q, dollar, s[0]) then [[]] + Segments(s[Width(s)..], Outside, false)
    else Glue([s[0]], Segments(s[1..], After(q, s[0]), s[0] == '$'))
  }

  function SegmentsOf(s: string): seq<string> {
    Segments(s, Outside, false)
  }

  predicate EndsInDollar(s: string) {
    s != [] && s[|s| - 1] == '$'
  }

  lemma GlueNothing(segments: seq<string>)
    requires segments != []
    ensures Glue([], segments) == segments
  {
    assert [] + segments[0] == segments[0];
  }

  lemma GlueTwice(a: string, b: string, segments: seq<string>)
    requires segments != []
    ensures Glue(a, Glue(b, segments)) == Glue(a + b, segments)
  {
    assert a + (b + segments[0]) == (a + b) + segments[0];
  }

  /** With `segments` finished and `current` begun, reading on from `i` completes the split. */
  predicate OnTrack(s: string, i: nat, segments: seq<string>, current: string, q: Quote) {
    && i <= |s|
    && segments + Glue(current, Segments(s[i..], q, EndsInDollar(current))) == SegmentsOf(s)
  }

  lemma AtTheStart(s: string)
    ensures OnTrack(s, 0, [], "", Outside)
  {
    assert s[0..] == s;
    GlueNothing(SegmentsOf(s));
  }

  lemma PushChar(s: string, i: nat, segments: seq<string>, current: string, q: Quote)
    requires OnTrack(s, i, segments, current, q)
    requires i < |s| && !Separates(q, EndsInDollar(current), s[i])
    ensures OnTrack(s, i + 1, segments, current + [s[i]], After(q, s[i]))
  {
    assert s[i..][1..] == s[i + 1..];
    GlueTwice(current, [s[i]], Segments(s[i + 1..], After(q, s[i]), s[i] == '$'));
  }

  lemma CutSegment(s: string, i: nat, segments: seq<string>, current: string)
    requires OnTrack(s, i, segments, current, Outside)
    requires i < |s| && Separates(Outside, EndsInDollar(current), s[i])
    ensures OnTrack(s, i + Width(s[i..]), segments + [current], [], Outside)
  {
    var w := Width(s[i..]);
    assert s[i..][w..] == s[i + w..];
    var rest := Segments(s[i + w..], Outside, false);
    GlueNothing(rest);
    assert current + [] == current;
    assert segments + ([current] + rest) == (segments + [current]) + rest;
  }

  lemma AtTheEnd(s: string, segments: seq<string>, current: string, q: Quote)
    requires OnTrack(s, |s|, segments, current, q)
    ensures segments + [current] == SegmentsOf(s)
  {
    assert s[|s|..] == [];
    assert current + [] == current;
  }

  function QuoteOf(inSingle: bool, inDouble: bool): Quote {
    if inSingle then Single else if inDouble then Double else Outside
  }

  /** `split_segments`. */
  method SplitSegments(commandLine: string) returns (segments: seq<string>)
    ensures segments == SegmentsOf(commandLine)
  {
    segments := [];
    var current := "";
    var inSingle, inDouble := false, false;
    var i := 0;
    AtTheStart(commandLine);
    while i < |commandLine|
      invariant i <= |commandLine| && !(inSingle && inDouble)
      invariant OnTrack(commandLine, i, segments, current, QuoteOf(inSingle, inDouble))
      decreases |commandLine| - i
    {
      var c := commandLine[i];
      if !inSingle && !inDouble && (Cuts(c) || (c == '{' && !EndsInDollar(current))) {
        CutSegment(commandLine, i, segments, current);
        segments, current := segments + [current], "";
        i := i + if Doubles(c) && i + 1 < |commandLine| && commandLine[i + 1] == c then 2 else 1;
      } else {
        PushChar(commandLine, i, segments, current, QuoteOf(inSingle, inDouble));
        if inSingle {
          inSingle := c != '\'';
        } else if inDouble {
          inDouble := c != '"';
        } else {
          inSingle, inDouble := c == '\'', c == '"';
        }
        current := current + [c];
        i := i + 1;
      }
    }
    AtTheEnd(commandLine, segments, current, QuoteOf(inSingle, inDouble));
    segments := segments + [current];
  }

  // ---------------------------------------------------------------------------
  // Nothing is lost but the unquoted separators
  // ---------------------------------------------------------------------------

  function QuoteAt(s: string, i: nat): Quote
    requires i <= |s|
  {
    QuoteAfter(Outside, s[..i])
  }

  /** By position alone: an unquoted operator, or a '{' that no '$' precedes. */
  predicate Dropped(s: string, i: nat)
    requires i < |s|
  {
    QuoteAt(s, i) == Outside && (s[i] in ";\n&|`()" || (s[i] == '{' && !(i > 0 && s[i - 1] == '$')))
  }

  lemma DroppedSeparates(s: string, i: nat)
    requires i < |s|
    ensures Dropped(s, i) <==> Separates(QuoteAt(s, i), i > 0 && s[i - 1] == '$', s[i])
  {
  }

  function KeptFrom(s: string, i: nat): string
    requires i <= |s|
    decreases |s| - i
  {
    if i == |s| then [] else (if Dropped(s, i) then [] else [s[i]]) + KeptFrom(s, i + 1)
  }

  function Concat(segments: seq<string>): string {
    if segments == [] then [] else segments[0] + Concat(segments[1..])
  }

  lemma {:induction false} QuoteAfterAppend(q: Quote, a: string, b: string)
    ensures QuoteAfter(q, a + b) == QuoteAfter(QuoteAfter(q, a), b)
    decreases |a|
  {
    if a == [] {
      assert a + b == b;
    } else {
      assert (a + b)[1..] == a[1..] + b;
      QuoteAfterAppend(After(q, a[0]), a[1..], b);
    }
  }

  lemma QuoteAtNext(s: string, i: nat)
    requires i < |s|
    ensures QuoteAt(s, i + 1) == After(QuoteAt(s, i), s[i])
  {
    assert s[..i + 1] == s[..i] + [s[i]];
    QuoteAfterAppend(Outside, s[..i], [s[i]]);
    assert [s[i]][1..] == [];
  }

  lemma ConcatGlue(text: string, segments: seq<string>)
    requires segments != []
    ensures Concat(Glue(text, segments)) == text + Concat(segments)
  {
    assert text + (segments[0] + Concat(segments[1..])) == (text + segments[0]) + Concat(segments[1..]);
  }

  /** The second half of a doubled operator is dropped with the first. */
  lemma DoubledOperator(s: string, i: nat)
    requires i < |s| && Dropped(s, i) && Width(s[i..]) == 2
    ensures QuoteAt(s, i + 2) == Outside && KeptFrom(s, i) == KeptFrom(s, i + 2)
  {
    assert s[i..][1] == s[i + 1];
    QuoteAtNext(s, i);
    QuoteAtNext(s, i + 1);
  }

  /** The segments of what is left from position `i` on. */
  function SegmentsFrom(s: string, i: nat): seq<string>
    requires i <= |s|
  {
    Segments(s[i..], QuoteAt(s, i), i > 0 && s[i - 1] == '$')
  }

  lemma SegmentsFromCut(s: string, i: nat)
    requires i < |s| && Dropped(s, i)
    ensures var next := i + Width(s[i..]);
      next <= |s| && SegmentsFrom(s, i) == [[]] + SegmentsFrom(s, next) && KeptFrom(s, i) == KeptFrom(s, next)
  {
    var w := Width(s[i..]);
    var tail := s[i + w..];
    assert s[i..][0] == s[i] && s[i..][w..] == tail;
    CutLeavesOutside(s, i);
    assert SegmentsFrom(s, i + w) == Segments(tail, Outside, false);
  }

  lemma CutLeavesOutside(s: string, i: nat)
    requires i < |s| && Dropped(s, i)
    ensures var next := i + Width(s[i..]);
      next <= |s| && QuoteAt(s, next) == Outside && s[next - 1] != '$' && KeptFrom(s, i) == KeptFrom(s, next)
  {
    assert s[i..][0] == s[i];
    if Width(s[i..]) == 2 {
      assert s[i..][1] == s[i + 1];
      DoubledOperator(s, i);
    } else {
      QuoteAtNext(s, i);
    }
  }

  lemma SegmentsFromKept(s: string, i: nat)
    requires i < |s| && !Dropped(s, i)
    ensures SegmentsFrom(s, i) == Glue([s[i]], SegmentsFrom(s, i + 1))
  {
    assert s[i..][0] == s[i] && s[i..][1..] == s[i + 1..];
    QuoteAtNext(s, i);
  }

  lemma {:induction false} SegmentsKeepTheRest(s: string, i: nat)
    requires i <= |s|
    ensures Concat(SegmentsFrom(s, i)) == KeptFrom(s, i)
    decreases |s| - i
  {
    if i == |s| {
      assert SegmentsFrom(s, i) == [[]];
    } else if Dropped(s, i) {
      var next := i + Width(s[i..]);
      SegmentsFromCut(s, i);
      SegmentsKeepTheRest(s, next);
      assert ([[]] + SegmentsFrom(s, next))[1..] == SegmentsFrom(s, next);
    } else {
      SegmentsFromKept(s, i);
      SegmentsKeepTheRest(s, i + 1);
      ConcatGlue([s[i]], SegmentsFrom(s, i + 1));
    }
  }

  /** Main: put together, the segments are the command line without its unquoted separators. */
  lemma SegmentsDropOnlySeparators(s: string)
    ensures Concat(SegmentsOf(s)) == KeptFrom(s, 0)
  {
    SegmentsKeepTheRest(s, 0);
    assert s[0..] == s;
  }

  // ---------------------------------------------------------------------------
  // Compositionality
  // ---------------------------------------------------------------------------

  predicate IsCut(op: string) {
    || (|op| == 1 && (Cuts(op[0]) || op[0] == '{'))
    || (|op| == 2 && Doubles(op[0]) && op[1] == op[0])
  }

  /** Between `a` and `b`, `op` is read as it stands: no '&' or '|' of `a` or `b` makes it longer
      or shorter, and no '$' shields a '{'. */
  predicate StandsAlone(a: string, dollar: bool, op: string, b: string) {
    && IsCut(op)
    && (Doubles(op[0]) ==> (a != [] ==> a[|a| - 1] != op[0]))
    && (|op| == 1 && Doubles(op[0]) ==> (b != [] ==> b[0] != op[0]))
    && (op[0] == '{' ==> if a == [] then !dollar else a[|a| - 1] != '$')
  }

  /** Reading the first character of `a` is not disturbed by what follows `a`. */
  lemma FirstKept(a: string, dollar: bool, op: string, b: string)
    requires a != [] && StandsAlone(a, dollar, op, b)
    ensures (a + op + b)[0] == a[0] && (a + op + b)[1..] == a[1..] + op + b
    ensures StandsAlone(a[1..], a[0] == '$', op, b)
  {
  }

  lemma DropPrefix(a: string, op: string, b: string, w: nat)
    requires w <= |a|
    ensures (a + op + b)[w..] == a[w..] + op + b
  {
  }

  /** No quote opens inside an operator. */
  lemma QuoteAfterCut(a: string, dollar: bool)
    requires a != [] && Separates(Outside, dollar, a[0])
    ensures QuoteAfter(Outside, a) == QuoteAfter(Outside, a[Width(a)..])
  {
    if Width(a) == 2 { assert a[1..][1..] == a[2..]; }
  }

  lemma FirstCut(a: string, dollar: bool, op: string, b: string)
    requires a != [] && StandsAlone(a, dollar, op, b) && Separates(Outside, dollar, a[0])
    ensures (a + op + b)[0] == a[0] && Width(a + op + b) == Width(a)
    ensures StandsAlone(a[Width(a)..], false, op, b)
  {
    var s := a + op + b;
    assert s[0] == a[0] && s[1] == if |a| == 1 then op[0] else a[1];
    var rest := a[Width(a)..];
    assert rest != [] ==> rest[|rest| - 1] == a[|a| - 1];
  }

  lemma OperatorFirst(dollar: bool, op: string, b: string)
    requires StandsAlone([], dollar, op, b)
    ensures Segments(op + b, Outside, dollar) == [[]] + SegmentsOf(b)
  {
    var s := op + b;
    assert s[0] == op[0] && Separates(Outside, dollar, s[0]);
    assert Width(s) == |op|;
    assert s[|op|..] == b;
  }

  lemma SegmentsAfterCut(a: string, dollar: bool, op: string, b: string)
    requires a != [] && StandsAlone(a, dollar, op, b) && Separates(Outside, dollar, a[0])
    ensures Segments(a + op + b, Outside, dollar) == [[]] + Segments(a[Width(a)..] + op + b, Outside, false)
  {
    FirstCut(a, dollar, op, b);
    DropPrefix(a, op, b, Width(a));
  }

  lemma SegmentsAfterKept(a: string, dollar: bool, op: string, b: string, q: Quote)
    requires a != [] && StandsAlone(a, dollar, op, b) && !Separates(q, dollar, a[0])
    ensures Segments(a + op + b, q, dollar)
         == Glue([a[0]], Segments(a[1..] + op + b, After(q, a[0]), a[0] == '$'))
  {
    FirstKept(a, dollar, op, b);
  }

  lemma SplitBehindCut(a: string, op: string, b: string, dollar: bool)
    requires a != [] && StandsAlone(a, dollar, op, b) && Separates(Outside, dollar, a[0])
    requires var rest := a[Width(a)..];
      Segments(rest + op + b, Outside, false) == Segments(rest, Outside, false) + SegmentsOf(b)
    ensures Segments(a + op + b, Outside, dollar) == Segments(a, Outside, dollar) + SegmentsOf(b)
  {
    var rest := a[Width(a)..];
    SegmentsAfterCut(a, dollar, op, b);
    assert [[]] + (Segments(rest, Outside, false) + SegmentsOf(b))
        == ([[]] + Segments(rest, Outside, false)) + SegmentsOf(b);
  }

  lemma SplitBehindKept(a: string, op: string, b: string, q: Quote, dollar: bool)
    requires a != [] && StandsAlone(a, dollar, op, b) && !Separates(q, dollar, a[0])
    requires var rest, q', dollar' := a[1..], After(q, a[0]), a[0] == '$';
      Segments(rest + op + b, q', dollar') == Segments(rest, q', dollar') + SegmentsOf(b)
    ensures Segments(a + op + b, q, dollar) == Segments(a, q, dollar) + SegmentsOf(b)
  {
    SegmentsAfterKept(a, dollar, op, b, q);
    GlueAppend([a[0]], Segments(a[1..], After(q, a[0]), a[0] == '$'), SegmentsOf(b));
  }

  lemma {:induction false} SplitAtOperator(a: string, op: string, b: string, q: Quote, dollar: bool)
    requires StandsAlone(a, dollar, op, b) && QuoteAfter(q, a) == Outside
    ensures Segments(a + op + b, q, dollar) == Segments(a, q, dollar) + SegmentsOf(b)
    decreases |a|
  {
    if a == [] {
      assert a + op + b == op + b;
      OperatorFirst(dollar, op, b);
    } else if Separates(q, dollar, a[0]) {
      var rest := a[Width(a)..];
      assert StandsAlone(rest, false, op, b) by { FirstCut(a, dollar, op, b); }
      QuoteAfterCut(a, dollar);
      SplitAtOperator(rest, op, b, Outside, false);
      SplitBehindCut(a, op, b, dollar);
    } else {
      assert StandsAlone(a[1..], a[0] == '$', op, b);
      SplitAtOperator(a[1..], op, b, After(q, a[0]), a[0] == '$');
      SplitBehindKept(a, op, b, q, dollar);
    }
  }

  lemma GlueAppend(text: string, segments: seq<string>, more: seq<string>)
    requires segments != []
    ensures Glue(text, segments + more) == Glue(text, segments) + more
  {
    assert (segments + more)[1..] == segments[1..] + more;
  }

  /** `whole` runs on where `parts` ends. */
  predicate RunsOn(parts: seq<string>, whole: seq<string>) {
    0 < |parts| <= |whole| && |whole[|parts| - 1]| > |parts[|parts| - 1]|
  }

  lemma RunsOnGlue(text: string, parts: seq<string>, whole: seq<string>)
    requires RunsOn(parts, whole)
    ensures RunsOn(Glue(text, parts), Glue(text, whole))
  {
  }

  /** When `a` leaves a quote open, its last segment swallows at least the operator. */
  lemma {:induction false} OpenQuoteSwallows(a: string, op: string, b: string, q: Quote, dollar: bool)
    requires StandsAlone(a, dollar, op, b) && QuoteAfter(q, a) != Outside
    ensures RunsOn(Segments(a, q, dollar), Segments(a + op + b, q, dollar))
    decreases |a|
  {
    if a == [] {
      assert (a + op + b)[0] == op[0];
    } else {
      if Separates(q, dollar, a[0]) {
        FirstCut(a, dollar, op, b);
        DropPrefix(a, op, b, Width(a));
        QuoteAfterCut(a, dollar);
        OpenQuoteSwallows(a[Width(a)..], op, b, Outside, false);
      } else {
        FirstKept(a, dollar, op, b);
        var q', dollar' := After(q, a[0]), a[0] == '$';
        OpenQuoteSwallows(a[1..], op, b, q', dollar');
        RunsOnGlue([a[0]], Segments(a[1..], q', dollar'), Segments(a[1..] + op + b, q', dollar'));
      }
    }
  }

  predicate EndsOutsideQuotes(a: string) {
    QuoteAfter(Outside, a) == Outside
  }

  lemma SplitIsCompositional(a: string, op: string, b: string)
    requires StandsAlone(a, false, op, b)
    ensures SegmentsOf(a + op + b) == SegmentsOf(a) + SegmentsOf(b) <==> EndsOutsideQuotes(a)
  {
    if EndsOutsideQuotes(a) {
      SplitAtOperator(a, op, b, Outside, false);
    } else {
      OpenQuoteSwallows(a, op, b, Outside, false);
      var n := |SegmentsOf(a)|;
      assert (SegmentsOf(a) + SegmentsOf(b))[n - 1] == SegmentsOf(a)[n - 1];
    }
  }

  // ---------------------------------------------------------------------------
  // Tokens
  // ---------------------------------------------------------------------------

  predicate Word(w: string) {
    w != [] && forall i | 0 <= i < |w| :: !IsWhitespace(w[i])
  }

  /** The length of the run of characters other than white space that `s` starts with. */
  function InkRun(s: string): (n: nat)
    ensures n <= |s|
    ensures forall i | 0 <= i < n :: !IsWhitespace(s[i])
    ensures n < |s| ==> IsWhitespace(s[n])
  {
    if s == [] || IsWhitespace(s[0]) then 0 else 1 + InkRun(s[1..])
  }

  /** `tokenize`. */
  function Tokens(s: string): (tokens: seq<string>)
    ensures forall i | 0 <= i < |tokens| :: Word(tokens[i])
    ensures tokens == [] <==> Blank(s)
    decreases |s|
  {
    if s == [] then []
    else if IsWhitespace(s[0]) then
      assert Blank(s) <==> Blank(s[1..]) by {
        assert forall i | 1 <= i < |s| :: s[i] == s[1..][i - 1];
      }
      Tokens(s[1..])
    else [s[..InkRun(s)]] + Tokens(s[InkRun(s)..])
  }

  function Spaced(tokens: seq<string>): string {
    if |tokens| == 0 then "" else if |tokens| == 1 then tokens[0] else tokens[0] + " " + Spaced(tokens[1..])
  }

  lemma {:induction false} InkRunOfWord(w: string, rest: string)
    requires Word(w) && (rest != [] ==> IsWhitespace(rest[0]))
    ensures InkRun(w + rest) == |w|
    decreases |w|
  {
    assert (w + rest)[1..] == w[1..] + rest;
    if |w| > 1 {
      assert forall i | 0 <= i < |w[1..]| :: w[1..][i] == w[i + 1];
      InkRunOfWord(w[1..], rest);
    }
  }

  lemma WordFirst(w: string, rest: string)
    requires Word(w) && (rest != [] ==> IsWhitespace(rest[0]))
    ensures Tokens(w + rest) == [w] + Tokens(rest)
  {
    InkRunOfWord(w, rest);
    assert (w + rest)[..|w|] == w && (w + rest)[|w|..] == rest;
  }

  /** Words joined by single spaces are read back one by one. */
  lemma {:induction false} TokensOfSpaced(tokens: seq<string>)
    requires forall i | 0 <= i < |tokens| :: Word(tokens[i])
    ensures Tokens(Spaced(tokens)) == tokens
  {
    if |tokens| == 1 {
      WordFirst(tokens[0], "");
      assert tokens[0] + "" == tokens[0];
    } else if |tokens| > 1 {
      var rest := Spaced(tokens[1..]);
      TokensOfSpaced(tokens[1..]);
      WordFirst(tokens[0], " " + rest);
      assert tokens[0] + " " + rest == tokens[0] + (" " + rest);
      assert (" " + rest)[1..] == rest;
    }
  }

  // ---------------------------------------------------------------------------
  // Screening
  // ---------------------------------------------------------------------------

  datatype Policy = Policy(allow: seq<string>, deny: seq<string>)

  datatype Reason = DeniedPrefix(prefix: string) | NotListed

  datatype Decision = Allow | Deny(segment: string, reason: Reason)

  predicate Matches(prefix: string, tokens: seq<string>) {
    Tokens(prefix) != [] && Tokens(prefix) <= tokens
  }

  function MatchedPrefix(prefixes: seq<string>, tokens: seq<string>): Option<string> {
    if prefixes == [] then None
    else if Matches(prefixes[0], tokens) then Some(Spaced(Tokens(prefixes[0])))
    else MatchedPrefix(prefixes[1..], tokens)
  }

  function Screen(policy: Policy, segment: string): Decision {
    var tokens := Tokens(segment);
    if tokens == [] then Allow
    else
      match MatchedPrefix(policy.deny, tokens)
      case Some(prefix) => Deny(Trim(segment), DeniedPrefix(prefix))
      case None =>
        if policy.allow != [] && MatchedPrefix(policy.allow, tokens).None? then Deny(Trim(segment), NotListed)
        else Allow
  }

  /** The verdict on the first segment that is refused. */
  function ScreenAll(policy: Policy, segments: seq<string>): Decision {
    if segments == [] then Allow
    else
      var first := Screen(policy, segments[0]);
      if first.Deny? then first else ScreenAll(policy, segments[1..])
  }

  function Check(policy: Policy, commandLine: string): Decision {
    ScreenAll(policy, SegmentsOf(commandLine))
  }

  /** `check`. */
  method CheckCommandLine(policy: Policy, commandLine: string) returns (decision: Decision)
    ensures decision == Check(policy, commandLine)
  {
    var segments := SplitSegments(commandLine);
    assert segments[0..] == segments;
    for i := 0 to |segments|
      invariant ScreenAll(policy, segments[i..]) == Check(policy, commandLine)
    {
      assert segments[i..][1..] == segments[i + 1..];
      decision := Screen(policy, segments[i]);
      if decision.Deny? { return; }
    }
    decision := Allow;
  }

  predicate Listed(prefixes: seq<string>, segment: string) {
    exists i | 0 <= i < |prefixes| :: Matches(prefixes[i], Tokens(segment))
  }

  /** What the policy promises of one segment. */
  predicate Permitted(policy: Policy, segment: string) {
    Blank(segment)
    || (!Listed(policy.deny, segment) && (policy.allow == [] || Listed(policy.allow, segment)))
  }

  lemma {:induction false} MatchedPrefixFinds(prefixes: seq<string>, segment: string)
    ensures var r := MatchedPrefix(prefixes, Tokens(segment));
      (r.Some? <==> Listed(prefixes, segment))
      && (r.Some? ==> Matches(r.value, Tokens(segment)))
  {
    if prefixes != [] {
      if Matches(prefixes[0], Tokens(segment)) {
        TokensOfSpaced(Tokens(prefixes[0]));
      } else {
        MatchedPrefixFinds(prefixes[1..], segment);
        assert forall i | 1 <= i < |prefixes| :: prefixes[i] == prefixes[1..][i - 1];
      }
    }
  }

  lemma ScreenPermits(policy: Policy, segment: string)
    ensures Screen(policy, segment).Allow? <==> Permitted(policy, segment)
  {
    MatchedPrefixFinds(policy.deny, segment);
    MatchedPrefixFinds(policy.allow, segment);
  }

  lemma {:induction false} ScreenAllFindsTheFirst(policy: Policy, segments: seq<string>)
    ensures var d := ScreenAll(policy, segments);
      (d.Allow? <==> forall i | 0 <= i < |segments| :: Permitted(policy, segments[i]))
      && (d.Deny? ==> exists k | 0 <= k < |segments| ::
            !Permitted(policy, segments[k]) && d == Screen(policy, segments[k])
            && forall i | 0 <= i < k :: Permitted(policy, segments[i]))
  {
    if segments != [] {
      ScreenPermits(policy, segments[0]);
      if Permitted(policy, segments[0]) {
        ScreenAllFindsTheFirst(policy, segments[1..]);
        var d := ScreenAll(policy, segments[1..]);
        assert forall i | 1 <= i < |segments| :: segments[i] == segments[1..][i - 1];
        if d.Deny? {
          var k :| 0 <= k < |segments[1..]| && !Permitted(policy, segments[1..][k])
                   && d == Screen(policy, segments[1..][k])
                   && forall i | 0 <= i < k :: Permitted(policy, segments[1..][i]);
          assert segments[k + 1] == segments[1..][k];
          assert forall i | 0 <= i < k + 1 :: Permitted(policy, segments[i]);
        }
      }
    }
  }

  lemma FirstOffender(policy: Policy, commandLine: string)
    ensures var segments, d := SegmentsOf(commandLine), Check(policy, commandLine);
      (d.Allow? <==> forall i | 0 <= i < |segments| :: Permitted(policy, segments[i]))
      && (d.Deny? ==> exists k | 0 <= k < |segments| ::
            !Permitted(policy, segments[k]) && d == Screen(policy, segments[k])
            && forall i | 0 <= i < k :: Permitted(policy, segments[i]))
  {
    ScreenAllFindsTheFirst(policy, SegmentsOf(commandLine));
  }

  lemma {:induction false} ScreenAllAppend(policy: Policy, a: seq<string>, b: seq<string>)
    ensures ScreenAll(policy, a + b)
         == if ScreenAll(policy, a).Deny? then ScreenAll(policy, a) else ScreenAll(policy, b)
  {
    if a == [] {
      assert a + b == b;
    } else {
      assert (a + b)[1..] == a[1..] + b;
      ScreenAllAppend(policy, a[1..], b);
    }
  }

  lemma CheckIsCompositional(policy: Policy, a: string, op: string, b: string)
    requires StandsAlone(a, false, op, b) && EndsOutsideQuotes(a)
    ensures Check(policy, a + op + b)
         == if Check(policy, a).Deny? then Check(policy, a) else Check(policy, b)
    ensures Check(policy, a + op + b).Allow? <==> Check(policy, a).Allow? && Check(policy, b).Allow?
  {
    SplitIsCompositional(a, op, b);
    ScreenAllAppend(policy, SegmentsOf(a), SegmentsOf(b));
  }
}
