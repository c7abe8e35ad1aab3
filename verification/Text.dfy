/** The string operations the patch engine is built from: Unicode white space, the
    three trims, splitting into lines and joining them again. */
module Text {

  datatype Option<+T> = None | Some(value: T)

  /** The Unicode White_Space property, which Rust's `char::is_whitespace` follows. */
  predicate IsWhitespace(c: char) {
    || '\t' <= c <= '\r'
    || c == ' '
    || c == '\U{85}' || c == '\U{A0}' || c == '\U{1680}'
    || '\U{2000}' <= c <= '\U{200A}'
    || c == '\U{2028}' || c == '\U{2029}' || c == '\U{202F}' || c == '\U{205F}' || c == '\U{3000}'
  }

  /** The twenty-five characters with that property. */
  const WHITE_SPACE :=
    "\t\n\U{0B}\U{0C}\r \U{85}\U{A0}\U{1680}\U{2000}\U{2001}\U{2002}\U{2003}\U{2004}\U{2005}\U{2006}"
    + "\U{2007}\U{2008}\U{2009}\U{200A}\U{2028}\U{2029}\U{202F}\U{205F}\U{3000}"

  lemma {:induction false} WhiteSpaceIsListed(c: char)
    ensures IsWhitespace(c) <==> c in WHITE_SPACE
    ensures |WHITE_SPACE| == 25
  {
  }

  predicate Blank(s: string) {
    forall i | 0 <= i < |s| :: IsWhitespace(s[i])
  }

  /** No white space at the end; the empty string qualifies. */
  predicate EndsInk(s: string) {
    s != "" ==> !IsWhitespace(s[|s| - 1])
  }

  predicate StartsInk(s: string) {
    s != "" ==> !IsWhitespace(s[0])
  }

  function TrimEnd(s: string): string {
    if s != "" && IsWhitespace(s[|s| - 1]) then TrimEnd(s[..|s| - 1]) else s
  }

  function TrimStart(s: string): string {
    if s != "" && IsWhitespace(s[0]) then TrimStart(s[1..]) else s
  }

  function Trim(s: string): string {
    TrimStart(TrimEnd(s))
  }

  /** `TrimEnd` keeps a prefix, drops only white space and leaves none at the end. */
  lemma {:induction false} TrimEndShape(s: string)
    ensures TrimEnd(s) <= s
    ensures EndsInk(TrimEnd(s))
    ensures Blank(s[|TrimEnd(s)|..])
  {
    if s != "" && IsWhitespace(s[|s| - 1]) {
      var t := s[..|s| - 1];
      TrimEndShape(t);
      assert s[|TrimEnd(s)|..] == t[|TrimEnd(s)|..] + [s[|s| - 1]];
    }
  }

  lemma {:induction false} TrimStartShape(s: string)
    ensures |TrimStart(s)| <= |s|
    ensures TrimStart(s) == s[|s| - |TrimStart(s)|..]
    ensures StartsInk(TrimStart(s))
    ensures Blank(s[..|s| - |TrimStart(s)|])
    ensures EndsInk(s) ==> EndsInk(TrimStart(s))
  {
    if s != "" && IsWhitespace(s[0]) {
      TrimStartShape(s[1..]);
      assert s[..|s| - |TrimStart(s)|] == [s[0]] + s[1..][..|s| - 1 - |TrimStart(s)|];
    }
  }

  lemma TrimShape(s: string)
    ensures StartsInk(Trim(s)) && EndsInk(Trim(s))
    ensures |Trim(s)| <= |s|
    ensures forall c | c in Trim(s) :: c in s
  {
    TrimEndShape(s);
    TrimStartShape(TrimEnd(s));
  }

  lemma TrimOfInk(s: string)
    requires StartsInk(s) && EndsInk(s)
    ensures Trim(s) == s && TrimEnd(s) == s
  {
  }

  /** Trimming the end stops at the first character if that is not white space. */
  lemma {:induction false} TrimEndKeepsHead(s: string)
    requires s != "" && !IsWhitespace(s[0])
    ensures TrimEnd(s) != "" && TrimEnd(s)[0] == s[0] && Trim(s) == TrimEnd(s)
  {
    if IsWhitespace(s[|s| - 1]) {
      TrimEndKeepsHead(s[..|s| - 1]);
    }
  }

  lemma {:induction false} TrimOfBlank(s: string)
    requires Blank(s)
    ensures TrimEnd(s) == "" && Trim(s) == ""
  {
    if s != "" {
      TrimOfBlank(s[..|s| - 1]);
    }
  }

  /** The order of the two one-sided trims does not matter. */
  lemma {:induction false} TrimsCommute(s: string)
    ensures TrimEnd(TrimStart(s)) == Trim(s)
    decreases |s|
  {
    TrimEndShape(s);
    if TrimEnd(s) == "" {
      assert s[|TrimEnd(s)|..] == s;
      TrimOfBlank(s);
      TrimStartShape(s);
      assert Blank(TrimStart(s));
      TrimOfBlank(TrimStart(s));
    } else if IsWhitespace(s[0]) {
      TrimEndOfCons(s);
      TrimsCommute(s[1..]);
    }
  }

  lemma {:induction false} TrimEndOfCons(s: string)
    requires TrimEnd(s) != ""
    ensures TrimEnd(s[1..]) == TrimEnd(s)[1..]
  {
    if IsWhitespace(s[|s| - 1]) {
      TrimEndOfCons(s[..|s| - 1]);
      assert s[1..][..|s| - 2] == s[..|s| - 1][1..];
    }
  }

  // ---------------------------------------------------------------------------
  // Lines
  // ---------------------------------------------------------------------------

  /** The pieces of `s` between newlines; never empty. */
  function Split(s: string): (r: seq<string>)
    ensures |r| >= 1
    ensures forall l | l in r :: '\n' !in l
  {
    if s == "" then [""]
    else
      var rest := Split(s[1..]);
      if s[0] == '\n' then [""] + rest else [[s[0]] + rest[0]] + rest[1..]
  }

  function Join(lines: seq<string>): string {
    if |lines| == 0 then ""
    else if |lines| == 1 then lines[0]
    else lines[0] + "\n" + Join(lines[1..])
  }

  predicate NewlineFree(lines: seq<string>) {
    forall l | l in lines :: '\n' !in l
  }

  lemma {:induction false} JoinOfSplit(s: string)
    ensures Join(Split(s)) == s
  {
    if s != "" {
      JoinOfSplit(s[1..]);
      var rest := Split(s[1..]);
      if s[0] == '\n' {
        assert ([""] + rest)[1..] == rest;
        assert Join(Split(s)) == "" + "\n" + Join(rest);
      } else if |rest| > 1 {
        assert Split(s)[1..] == rest[1..];
      }
    }
  }

  lemma {:induction false} SplitOfLine(l: string, s: string)
    requires '\n' !in l
    ensures Split(l + "\n" + s) == [l] + Split(s)
  {
    var t := l + "\n" + s;
    if l == "" {
      assert t[1..] == s;
    } else {
      assert t[1..] == l[1..] + "\n" + s && t[0] == l[0];
      SplitOfLine(l[1..], s);
      assert [l[0]] + l[1..] == l;
    }
  }

  lemma {:induction false} SplitOfWord(l: string)
    requires '\n' !in l
    ensures Split(l) == [l]
  {
    if l != "" {
      SplitOfWord(l[1..]);
      assert [l[0]] + l[1..] == l;
    }
  }

  lemma {:induction false} SplitOfJoin(lines: seq<string>)
    requires |lines| >= 1 && NewlineFree(lines)
    ensures Split(Join(lines)) == lines
  {
    if |lines| == 1 {
      SplitOfWord(lines[0]);
    } else {
      SplitOfJoin(lines[1..]);
      SplitOfLine(lines[0], Join(lines[1..]));
    }
  }

  lemma {:induction false} SplitAppend(a: string, b: string)
    ensures Split(a + "\n" + b) == Split(a) + Split(b)
  {
    var t := a + "\n" + b;
    if a == "" {
      assert t[1..] == b;
    } else {
      assert t[1..] == a[1..] + "\n" + b && t[0] == a[0];
      SplitAppend(a[1..], b);
    }
  }

  /** The last piece ends as the whole text does. */
  lemma {:induction false} LastPiece(s: string)
    requires s != "" && s[|s| - 1] != '\n'
    ensures var last := Split(s)[|Split(s)| - 1]; last != "" && last[|last| - 1] == s[|s| - 1]
  {
    if |s| > 1 {
      LastPiece(s[1..]);
    }
  }

  lemma {:induction false} JoinAppend(a: seq<string>, b: seq<string>)
    requires |a| >= 1 && |b| >= 1
    ensures Join(a + b) == Join(a) + "\n" + Join(b)
  {
    if |a| == 1 {
      assert (a + b)[1..] == b;
    } else {
      assert (a + b)[1..] == a[1..] + b;
      JoinAppend(a[1..], b);
    }
  }

  /** Drops one carriage return from the end. */
  function StripCr(l: string): string {
    if l != "" && l[|l| - 1] == '\r' then l[..|l| - 1] else l
  }

  function StripCrs(lines: seq<string>): (r: seq<string>)
    ensures |r| == |lines|
    ensures forall i | 0 <= i < |lines| :: r[i] == StripCr(lines[i])
  {
    seq(|lines|, i requires 0 <= i < |lines| => StripCr(lines[i]))
  }

  /** Rust's `str::lines`: a carriage return goes only together with the newline
      it precedes, and an empty unterminated last piece is no line. */
  function Lines(s: string): (r: seq<string>)
    ensures NewlineFree(r)
  {
    LinesOf(Split(s))
  }

  function LinesOf(pieces: seq<string>): (r: seq<string>)
    requires |pieces| >= 1
    ensures NewlineFree(pieces) ==> NewlineFree(r)
  {
    var last := pieces[|pieces| - 1];
    assert forall i | 0 <= i < |pieces| :: pieces[i] in pieces;
    StripCrs(pieces[..|pieces| - 1]) + if last == "" then [] else [last]
  }
}
