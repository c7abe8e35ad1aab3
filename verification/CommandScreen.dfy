/** What the command screen promises, in terms of the characters and words of a command line. */
module CommandScreen {
  import opened Text
  import opened ExecPolicy

  // ---------------------------------------------------------------------------
  // Quotes
  // ---------------------------------------------------------------------------

  predicate Unquoted(p: string) {
    '\'' !in p && '"' !in p
  }

  /** A quoted stretch, from one quote to the next of its kind. */
  predicate Quoted(p: string, quote: char) {
    |p| >= 2 && p[0] == quote && p[|p| - 1] == quote && quote !in p[1..|p| - 1]
  }

  predicate Piece(p: string) {
    Unquoted(p) || Quoted(p, '\'') || Quoted(p, '"')
  }

  /** Unquoted and quoted stretches one after the other. */
  ghost predicate Balanced(s: string) {
    exists pieces: seq<string> :: (forall p | p in pieces :: Piece(p)) && Concat(pieces) == s
  }

  lemma {:induction false} UnquotedStaysOutside(p: string)
    requires Unquoted(p)
    ensures QuoteAfter(Outside, p) == Outside
    decreases |p|
  {
    if p != "" { UnquotedStaysOutside(p[1..]); }
  }

  lemma {:induction false} QuoteStays(q: Quote, p: string)
    requires q != Outside && (if q == Single then '\'' else '"') !in p
    ensures QuoteAfter(q, p) == q
    decreases |p|
  {
    if p != "" { QuoteStays(q, p[1..]); }
  }

  lemma {:induction false} QuotedCloses(p: string, q: Quote)
    requires q != Outside && Quoted(p, if q == Single then '\'' else '"')
    ensures QuoteAfter(Outside, p) == Outside
  {
    var n := |p| - 1;
    var inner := p[1..n];
    assert p == [p[0]] + (inner + [p[n]]);
    QuoteAfterAppend(Outside, [p[0]], inner + [p[n]]);
    QuoteStays(q, inner);
    QuoteAfterAppend(q, inner, [p[n]]);
    assert [p[0]][1..] == [] && [p[n]][1..] == [];
  }

  lemma {:induction false} PiecesClose(pieces: seq<string>)
    requires forall p | p in pieces :: Piece(p)
    ensures QuoteAfter(Outside, Concat(pieces)) == Outside
  {
    if pieces != [] {
      var p := pieces[0];
      assert Piece(p);
      if Unquoted(p) {
        UnquotedStaysOutside(p);
      } else {
        QuotedCloses(p, if Quoted(p, '\'') then Single else Double);
      }
      PiecesClose(pieces[1..]);
      QuoteAfterAppend(Outside, p, Concat(pieces[1..]));
    }
  }

  function FirstOf(c: char, s: string): (n: nat)
    ensures n <= |s| && c !in s[..n] && (n < |s| ==> s[n] == c)
  {
    if s == "" || s[0] == c then 0
    else
      assert s == [s[0]] + s[1..];
      var n := FirstOf(c, s[1..]);
      assert s[..n + 1] == [s[0]] + s[1..][..n];
      n + 1
  }

  lemma {:induction false} PieceFirst(p: string, pieces: seq<string>)
    requires Piece(p) && forall x | x in pieces :: Piece(x)
    ensures forall x | x in [p] + pieces :: Piece(x)
    ensures Concat([p] + pieces) == p + Concat(pieces)
  {
    assert ([p] + pieces)[1..] == pieces;
  }

  /** The quote that `s` opens with is closed somewhere. */
  lemma {:induction false} OpenedIsClosed(s: string, quote: char) returns (k: nat)
    requires quote == '\'' || quote == '"'
    requires s != "" && s[0] == quote && QuoteAfter(Outside, s) == Outside
    ensures 1 <= k < |s| && Quoted(s[..k + 1], quote) && QuoteAfter(Outside, s[k + 1..]) == Outside
  {
    var q := if quote == '\'' then Single else Double;
    k := 1 + FirstOf(quote, s[1..]);
    assert [s[0]] + s[1..] == s && [s[0]][1..] == [];
    QuoteAfterAppend(Outside, [s[0]], s[1..]);
    if k == |s| {
      assert s[1..][..k - 1] == s[1..];
      QuoteStays(q, s[1..]);
    } else {
      assert s[..k + 1][1..k] == s[1..][..k - 1];
      QuotedCloses(s[..k + 1], q);
      assert s == s[..k + 1] + s[k + 1..];
      QuoteAfterAppend(Outside, s[..k + 1], s[k + 1..]);
    }
  }

  lemma {:induction false} OutsideIsBalanced(s: string) returns (pieces: seq<string>)
    requires QuoteAfter(Outside, s) == Outside
    ensures (forall p | p in pieces :: Piece(p)) && Concat(pieces) == s
    decreases |s|
  {
    if s == "" {
      pieces := [];
    } else {
      var n := 1;
      if s[0] == '\'' || s[0] == '"' {
        var k := OpenedIsClosed(s, s[0]);
        n := k + 1;
      }
      var rest := OutsideIsBalanced(s[n..]);
      PieceFirst(s[..n], rest);
      pieces := [s[..n]] + rest;
      assert s[..n] + s[n..] == s;
    }
  }

  /** Main: no quote is open behind a text exactly when it is made of unquoted stretches and of
      stretches from one quote to the next of its kind. */
  lemma {:induction false} OutsideExactlyWhenBalanced(s: string)
    ensures QuoteAfter(Outside, s) == Outside <==> Balanced(s)
  {
    if QuoteAfter(Outside, s) == Outside {
      var pieces := OutsideIsBalanced(s);
    } else if pieces: seq<string> :| (forall p | p in pieces :: Piece(p)) && Concat(pieces) == s {
      PiecesClose(pieces);
    }
  }

  // ---------------------------------------------------------------------------
  // Operators
  // ---------------------------------------------------------------------------

  const OPERATORS: set<string> := {";", "\n", "&", "&&", "|", "||", "`", "(", ")", "{"}

  /** Between `a` and `b`, `op` is read as it stands: no '&' or '|' of `a` or `b` makes it longer or
      shorter, and no '$' shields a '{'. */
  predicate StandsBetween(a: string, op: string, b: string) {
    && op in OPERATORS
    && (op[0] in "&|" && a != "" ==> a[|a| - 1] != op[0])
    && ((op == "&" || op == "|") && b != "" ==> b[0] != op[0])
    && (op == "{" && a != "" ==> a[|a| - 1] != '$')
  }

  lemma {:induction false} OperatorsCut(op: string)
    requires op in OPERATORS
    ensures op != "" && IsCut(op) && (Doubles(op[0]) <==> op[0] in "&|")
    ensures |op| == 1 && Doubles(op[0]) ==> op == "&" || op == "|"
    ensures op[0] == '{' ==> op == "{"
  {
  }

  lemma {:induction false} StandingBetweenIsAlone(a: string, op: string, b: string)
    requires StandsBetween(a, op, b)
    ensures StandsAlone(a, false, op, b)
  {
    OperatorsCut(op);
  }

  /** Main: at each of the operators, splitting is compositional exactly when the left part leaves no
      quote open. */
  lemma {:induction false} SplitsAtOperators(a: string, op: string, b: string)
    requires StandsBetween(a, op, b)
    ensures SegmentsOf(a + op + b) == SegmentsOf(a) + SegmentsOf(b) <==> Balanced(a)
  {
    StandingBetweenIsAlone(a, op, b);
    SplitIsCompositional(a, op, b);
    OutsideExactlyWhenBalanced(a);
  }

  /** Main: two command lines joined by an operator are screened one after the other, so the whole
      is allowed exactly when both are. */
  lemma {:induction false} ChecksAtOperators(policy: Policy, a: string, op: string, b: string)
    requires StandsBetween(a, op, b) && Balanced(a)
    ensures Check(policy, a + op + b) == if Check(policy, a).Deny? then Check(policy, a) else Check(policy, b)
    ensures Check(policy, a + op + b).Allow? <==> Check(policy, a).Allow? && Check(policy, b).Allow?
  {
    StandingBetweenIsAlone(a, op, b);
    OutsideExactlyWhenBalanced(a);
    CheckIsCompositional(policy, a, op, b);
  }

  // ---------------------------------------------------------------------------
  // Texts of one segment
  // ---------------------------------------------------------------------------

  lemma {:induction false} KeptIsNotLonger(s: string, i: nat)
    requires i <= |s|
    ensures |KeptFrom(s, i)| <= |s| - i
    ensures (exists k | i <= k < |s| :: Dropped(s, k)) ==> |KeptFrom(s, i)| < |s| - i
    ensures (forall k | i <= k < |s| :: !Dropped(s, k)) ==> SegmentsFrom(s, i) == [s[i..]]
    decreases |s| - i
  {
    if i < |s| {
      KeptIsNotLonger(s, i + 1);
      if !Dropped(s, i) {
        SegmentsFromKept(s, i);
        assert [s[i]] + s[i + 1..] == s[i..];
      }
    }
  }

  /** A command line is one segment exactly when nothing in it cuts. */
  lemma {:induction false} OneSegmentExactlyWhen(s: string)
    ensures SegmentsOf(s) == [s] <==> forall k | 0 <= k < |s| :: !Dropped(s, k)
  {
    KeptIsNotLonger(s, 0);
    SegmentsDropOnlySeparators(s);
    assert s[0..] == s && [s][1..] == [] && s + [] == s;
    assert SegmentsFrom(s, 0) == SegmentsOf(s);
    if SegmentsOf(s) == [s] { assert Concat([s]) == s; }
  }

  /** So a text without operators is one segment. */
  lemma {:induction false} PlainTextIsOneSegment(s: string)
    requires forall k | 0 <= k < |s| :: s[k] !in ";\n&|`(){"
    ensures SegmentsOf(s) == [s]
  {
    forall k | 0 <= k < |s| ensures !Dropped(s, k) { assert s[k] !in ";\n&|`()" && s[k] != '{'; }
    OneSegmentExactlyWhen(s);
  }

  // ---------------------------------------------------------------------------
  // Words
  // ---------------------------------------------------------------------------

  /** Words with white space around and between them. */
  function Laid(words: seq<string>, gaps: seq<string>): string
    requires |gaps| == |words| + 1
  {
    if words == [] then gaps[0] else gaps[0] + words[0] + Laid(words[1..], gaps[1..])
  }

  predicate Gaps(gaps: seq<string>) {
    && (forall i | 0 <= i < |gaps| :: Blank(gaps[i]))
    && (forall i | 0 < i < |gaps| - 1 :: gaps[i] != "")
  }

  predicate AllWords(words: seq<string>) {
    forall i | 0 <= i < |words| :: Word(words[i])
  }

  ghost predicate ConsistsOf(s: string, words: seq<string>) {
    AllWords(words) && exists gaps :: |gaps| == |words| + 1 && Gaps(gaps) && s == Laid(words, gaps)
  }

  lemma {:induction false} TokensBehindBlank(gap: string, s: string)
    requires Blank(gap)
    ensures Tokens(gap + s) == Tokens(s)
    decreases |gap|
  {
    if gap == "" {
      assert gap + s == s;
    } else {
      assert (gap + s)[1..] == gap[1..] + s;
      TokensBehindBlank(gap[1..], s);
    }
  }

  lemma {:induction false} TokensOfLaid(words: seq<string>, gaps: seq<string>)
    requires |gaps| == |words| + 1 && Gaps(gaps) && AllWords(words)
    ensures Tokens(Laid(words, gaps)) == words
    decreases |words|
  {
    assert Blank(gaps[0]);
    if words == [] {
      assert gaps[0] + "" == gaps[0];
      TokensBehindBlank(gaps[0], "");
    } else {
      var rest := Laid(words[1..], gaps[1..]);
      assert Gaps(gaps[1..]) by {
        assert forall i | 0 <= i < |gaps[1..]| :: gaps[1..][i] == gaps[i + 1];
      }
      assert Tokens(rest) == words[1..] by { TokensOfLaid(words[1..], gaps[1..]); }
      assert rest != [] ==> IsWhitespace(rest[0]) by { LaidStartsBlank(words[1..], gaps[1..], gaps[1]); }
      assert gaps[0] + words[0] + rest == gaps[0] + (words[0] + rest);
      assert Tokens(Laid(words, gaps)) == Tokens(words[0] + rest) by { TokensBehindBlank(gaps[0], words[0] + rest); }
      WordFirst(words[0], rest);
    }
  }

  lemma {:induction false} LaidStartsBlank(words: seq<string>, gaps: seq<string>, gap: string)
    requires |gaps| == |words| + 1 && gaps[0] == gap && Blank(gap) && (words != [] ==> gap != "")
    ensures var s := Laid(words, gaps); s != [] ==> IsWhitespace(s[0])
  {
  }

  lemma {:induction false} LaidBehindBlank(c: char, words: seq<string>, gaps: seq<string>)
    requires |gaps| == |words| + 1 && Gaps(gaps) && IsWhitespace(c)
    ensures Laid(words, gaps[0 := [c] + gaps[0]]) == [c] + Laid(words, gaps)
    ensures Gaps(gaps[0 := [c] + gaps[0]])
  {
    var more := gaps[0 := [c] + gaps[0]];
    assert Blank([c] + gaps[0]) by { assert Blank(gaps[0]); }
    assert more[1..] == gaps[1..];
    if words == [] {
      assert Laid(words, more) == [c] + gaps[0];
    } else {
      assert [c] + gaps[0] + words[0] + Laid(words[1..], gaps[1..])
          == [c] + (gaps[0] + words[0] + Laid(words[1..], gaps[1..]));
    }
  }

  lemma {:induction false} LaidBehindWord(w: string, words: seq<string>, gaps: seq<string>)
    requires |gaps| == |words| + 1 && Gaps(gaps) && (words != [] ==> gaps[0] != "")
    ensures Laid([w] + words, [""] + gaps) == w + Laid(words, gaps)
    ensures Gaps([""] + gaps)
  {
    var all := [""] + gaps;
    assert ([w] + words)[1..] == words && all[1..] == gaps;
    assert "" + w + Laid(words, gaps) == w + Laid(words, gaps);
    forall i | 0 <= i < |all| ensures Blank(all[i]) { if i > 0 { assert Blank(gaps[i - 1]); } }
    forall i | 0 < i < |all| - 1 ensures all[i] != "" { assert all[i] == gaps[i - 1]; }
  }

  lemma {:induction false} TextIsLaid(s: string) returns (gaps: seq<string>)
    ensures |gaps| == |Tokens(s)| + 1 && Gaps(gaps) && s == Laid(Tokens(s), gaps)
    ensures s != [] && IsWhitespace(s[0]) ==> gaps[0] != ""
    decreases |s|
  {
    if s == [] {
      gaps := [""];
    } else if IsWhitespace(s[0]) {
      var rest := TextIsLaid(s[1..]);
      gaps := rest[0 := [s[0]] + rest[0]];
      LaidBehindBlank(s[0], Tokens(s[1..]), rest);
      assert [s[0]] + s[1..] == s;
    } else {
      var n := InkRun(s);
      var rest := TextIsLaid(s[n..]);
      gaps := [""] + rest;
      LaidBehindWord(s[..n], Tokens(s[n..]), rest);
      assert s[..n] + s[n..] == s;
    }
  }

  /** Main: the tokens of a text are its words, whatever white space is around and between them. */
  lemma {:induction false} TokensAreTheWords(s: string, words: seq<string>)
    ensures Tokens(s) == words <==> ConsistsOf(s, words)
  {
    if Tokens(s) == words {
      var gaps := TextIsLaid(s);
    } else if ConsistsOf(s, words) {
      var gaps :| |gaps| == |words| + 1 && Gaps(gaps) && s == Laid(words, gaps);
      TokensOfLaid(words, gaps);
    }
  }

  // ---------------------------------------------------------------------------
  // The verdict
  // ---------------------------------------------------------------------------

  /** The segment begins with the words of the entry, and there are some. */
  ghost predicate BeginsWith(segment: string, entry: string) {
    exists words, more :: words != [] && ConsistsOf(entry, words) && ConsistsOf(segment, words + more)
  }

  ghost predicate SomeMatch(segment: string, entries: seq<string>) {
    exists i | 0 <= i < |entries| :: BeginsWith(segment, entries[i])
  }

  ghost predicate Allowed(policy: Policy, segment: string) {
    || Blank(segment)
    || (!SomeMatch(segment, policy.deny) && (policy.allow == [] || SomeMatch(segment, policy.allow)))
  }

  lemma {:induction false} MatchedBegins(segment: string, entry: string)
    requires Matches(entry, Tokens(segment))
    ensures BeginsWith(segment, entry)
  {
    var tokens, words := Tokens(segment), Tokens(entry);
    var more := tokens[|words|..];
    assert tokens == words + more;
    TokensAreTheWords(entry, words);
    TokensAreTheWords(segment, words + more);
  }

  lemma {:induction false} MatchingIsBeginning(segment: string, entry: string)
    ensures Matches(entry, Tokens(segment)) <==> BeginsWith(segment, entry)
  {
    if Matches(entry, Tokens(segment)) {
      MatchedBegins(segment, entry);
    } else if BeginsWith(segment, entry) {
      var ws, more :| ws != [] && ConsistsOf(entry, ws) && ConsistsOf(segment, ws + more);
      TokensAreTheWords(entry, ws);
      TokensAreTheWords(segment, ws + more);
    }
  }

  lemma {:induction false} ListedIsMatched(segment: string, entries: seq<string>)
    ensures Listed(entries, segment) <==> SomeMatch(segment, entries)
  {
    forall i | 0 <= i < |entries| ensures Matches(entries[i], Tokens(segment)) <==> BeginsWith(segment, entries[i]) {
      MatchingIsBeginning(segment, entries[i]);
    }
  }

  lemma {:induction false} PermittedIsAllowed(policy: Policy, segment: string)
    ensures Permitted(policy, segment) <==> Allowed(policy, segment)
  {
    ListedIsMatched(segment, policy.deny);
    ListedIsMatched(segment, policy.allow);
  }

  /** No gap around the words and single blanks between them. */
  function SingleBlanks(n: nat): (gaps: seq<string>)
    ensures |gaps| == n + 1
  {
    seq(n + 1, i => if i == 0 || i == n then "" else " ")
  }

  lemma {:induction false} SpacedIsLaid(words: seq<string>)
    ensures Spaced(words) == Laid(words, SingleBlanks(|words|))
    decreases |words|
  {
    if |words| == 1 {
      assert words[1..] == [] && SingleBlanks(1)[1..] == [""];
      assert "" + words[0] + "" == words[0];
    } else if |words| > 1 {
      var rest, gaps := words[1..], SingleBlanks(|words|)[1..];
      SpacedIsLaid(rest);
      assert gaps == SingleBlanks(|rest|)[0 := " "];
      LaidBehindGap(rest, SingleBlanks(|rest|), " ");
      assert "" + words[0] + (" " + Spaced(rest)) == words[0] + " " + Spaced(rest);
    }
  }

  lemma {:induction false} LaidBehindGap(words: seq<string>, gaps: seq<string>, gap: string)
    requires |gaps| == |words| + 1 && gaps[0] == ""
    ensures Laid(words, gaps[0 := gap]) == gap + Laid(words, gaps)
  {
    assert gaps[0 := gap][1..] == gaps[1..];
    if words == [] {
      assert gap + "" == gap;
    } else {
      assert gap + words[0] + Laid(words[1..], gaps[1..]) == gap + ("" + words[0] + Laid(words[1..], gaps[1..]));
    }
  }

  /** Entry `i` is the first the segment begins with, and `prefix` its words joined by blanks. */
  ghost predicate NamesFirst(prefix: string, entries: seq<string>, i: nat, segment: string) {
    && i < |entries| && BeginsWith(segment, entries[i])
    && (forall j | 0 <= j < i :: !BeginsWith(segment, entries[j]))
    && exists words :: ConsistsOf(entries[i], words) && prefix == Laid(words, SingleBlanks(|words|))
  }

  /** What is said about a refused segment: the trimmed segment, and the words of the first denied
      entry it begins with, or else that it is not listed. */
  ghost predicate SaysWhy(policy: Policy, segment: string, d: Decision) {
    && d.Deny? && d.segment == Trim(segment)
    && (if SomeMatch(segment, policy.deny) then
          d.reason.DeniedPrefix? && exists i :: NamesFirst(d.reason.prefix, policy.deny, i, segment)
        else d.reason == NotListed)
  }

  lemma {:induction false} FirstEntryIsNamed(entries: seq<string>, segment: string)
    requires entries != [] && Matches(entries[0], Tokens(segment))
    ensures NamesFirst(Spaced(Tokens(entries[0])), entries, 0, segment)
  {
    MatchingIsBeginning(segment, entries[0]);
    TokensAreTheWords(entries[0], Tokens(entries[0]));
    SpacedIsLaid(Tokens(entries[0]));
  }

  lemma {:induction false} LaterEntryIsNamed(prefix: string, entries: seq<string>, segment: string, k: nat)
    requires entries != [] && !Matches(entries[0], Tokens(segment)) && NamesFirst(prefix, entries[1..], k, segment)
    ensures NamesFirst(prefix, entries, k + 1, segment)
  {
    assert !BeginsWith(segment, entries[0]) by { MatchingIsBeginning(segment, entries[0]); }
    assert entries[k + 1] == entries[1..][k];
    forall j | 0 <= j < k + 1 ensures !BeginsWith(segment, entries[j]) {
      if j > 0 { assert entries[j] == entries[1..][j - 1]; }
    }
  }

  lemma {:induction false} MatchedPrefixNamesFirst(entries: seq<string>, segment: string) returns (i: nat)
    requires MatchedPrefix(entries, Tokens(segment)).Some?
    ensures NamesFirst(MatchedPrefix(entries, Tokens(segment)).value, entries, i, segment)
    decreases |entries|
  {
    if Matches(entries[0], Tokens(segment)) {
      i := 0;
      FirstEntryIsNamed(entries, segment);
    } else {
      var k := MatchedPrefixNamesFirst(entries[1..], segment);
      i := k + 1;
      LaterEntryIsNamed(MatchedPrefix(entries, Tokens(segment)).value, entries, segment, k);
    }
  }

  lemma {:induction false} ScreenSaysWhy(policy: Policy, segment: string)
    requires Screen(policy, segment).Deny?
    ensures SaysWhy(policy, segment, Screen(policy, segment))
  {
    MatchedPrefixFinds(policy.deny, segment);
    ListedIsMatched(segment, policy.deny);
    if MatchedPrefix(policy.deny, Tokens(segment)).Some? {
      var i := MatchedPrefixNamesFirst(policy.deny, segment);
    }
  }

  /** Main: a command line is allowed exactly when every segment is, and otherwise the verdict is
      about the first that is not and says why. */
  lemma {:induction false} CheckFindsTheFirstOffender(policy: Policy, commandLine: string)
    ensures var segments, d := SegmentsOf(commandLine), Check(policy, commandLine);
      (d.Allow? <==> forall i | 0 <= i < |segments| :: Allowed(policy, segments[i]))
      && (d.Deny? ==> exists k | 0 <= k < |segments| ::
            !Allowed(policy, segments[k]) && SaysWhy(policy, segments[k], d)
            && forall i | 0 <= i < k :: Allowed(policy, segments[i]))
  {
    var segments, d := SegmentsOf(commandLine), Check(policy, commandLine);
    FirstOffender(policy, commandLine);
    forall i | 0 <= i < |segments| ensures Permitted(policy, segments[i]) <==> Allowed(policy, segments[i]) {
      PermittedIsAllowed(policy, segments[i]);
    }
    if d.Deny? {
      var k :| 0 <= k < |segments| && !Permitted(policy, segments[k]) && d == Screen(policy, segments[k])
               && forall i | 0 <= i < k :: Permitted(policy, segments[i]);
      ScreenSaysWhy(policy, segments[k]);
    }
  }

  /** So a command line is refused if one of its segments begins with the words of a denied entry. */
  lemma {:induction false} DeniedWordsAreRefused(
    policy: Policy, commandLine: string, k: nat, i: nat, words: seq<string>, more: seq<string>)
    requires k < |SegmentsOf(commandLine)| && i < |policy.deny| && words != []
    requires ConsistsOf(policy.deny[i], words) && ConsistsOf(SegmentsOf(commandLine)[k], words + more)
    ensures Check(policy, commandLine).Deny?
  {
    var segment := SegmentsOf(commandLine)[k];
    CheckFindsTheFirstOffender(policy, commandLine);
    assert BeginsWith(segment, policy.deny[i]);
    TokensAreTheWords(segment, words + more);
    assert !Blank(segment);
  }
}
