/** Text as the SIP and SDP parsers see it: one char per octet, with the few library functions they use. */
module Text {
  // ---- Cutting at a separator ----

  function IndexOf(s: string, c: char): (i: nat)
    ensures i <= |s| && c !in s[..i]
    ensures i < |s| ==> s[i] == c
    ensures i == |s| ==> c !in s
  {
    if s == "" || s[0] == c then 0
    else
      var i := 1 + IndexOf(s[1..], c);
      assert s[..i] == [s[0]] + s[1..][..i - 1];
      assert s == [s[0]] + s[1..];
      i
  }

  datatype Halves = Halves(before: string, after: string, found: bool)

  /** strings.Cut at a one-octet separator. */
  function Cut(s: string, c: char): (h: Halves)
    ensures c !in h.before
    ensures h.found ==> s == h.before + [c] + h.after
    ensures !h.found ==> s == h.before && h.after == ""
    ensures h.found <==> c in s
  {
    var i := IndexOf(s, c);
    if i < |s| then Halves(s[..i], s[i + 1..], true) else Halves(s, "", false)
  }

  lemma {:induction false} IndexOfAt(a: string, c: char, b: string)
    requires c !in a
    ensures IndexOf(a + [c] + b, c) == |a|
  {
    var s := a + [c] + b;
    if a == "" {
    } else {
      assert s[0] == a[0] && a[0] in a;
      assert s[1..] == a[1..] + [c] + b;
      IndexOfAt(a[1..], c, b);
    }
  }

  /** The first separator decides where Cut cuts. */
  lemma CutAt(a: string, c: char, b: string)
    requires c !in a
    ensures Cut(a + [c] + b, c) == Halves(a, b, true)
  {
    var s := a + [c] + b;
    IndexOfAt(a, c, b);
    assert s[..|a|] == a && s[|a| + 1..] == b;
  }

  lemma CutNone(a: string, c: char)
    requires c !in a
    ensures Cut(a, c) == Halves(a, "", false)
  {
  }

  // ---- Trimming ----

  function TrimLeft(s: string, cs: string): (r: string)
    ensures |r| <= |s|
    ensures r == "" || r[0] !in cs
  {
    if s != "" && s[0] in cs then TrimLeft(s[1..], cs) else s
  }

  function TrimRight(s: string, cs: string): (r: string)
    ensures |r| <= |s|
    ensures r == "" || r[|r| - 1] !in cs
  {
    if s != "" && s[|s| - 1] in cs then TrimRight(s[..|s| - 1], cs) else s
  }

  function Blanks(n: nat): (s: string)
    ensures |s| == n
  {
    seq(n, _ => ' ')
  }

  lemma {:induction false} BlanksDropped(n: nat, v: string)
    requires v == "" || v[0] != ' '
    ensures TrimLeft(Blanks(n) + v, " ") == v
  {
    if n == 0 {
      assert Blanks(0) + v == v;
    } else {
      assert (Blanks(n) + v)[1..] == Blanks(n - 1) + v;
      BlanksDropped(n - 1, v);
    }
  }

  const BLANKS := "\t\n\r \U{0B}\U{0C}"

  /** Second and third octets of a three-octet encoding of a space, by first octet. */
  predicate WideSpace(a: char, b: char, c: char) {
    || (a == '\U{E1}' && b == '\U{9A}' && c == '\U{80}')
    || (a == '\U{E2}' && b == '\U{80}' && ('\U{80}' <= c <= '\U{8A}' || c in "\U{A8}\U{A9}\U{AF}"))
    || (a == '\U{E2}' && b == '\U{81}' && c == '\U{9F}')
    || (a == '\U{E3}' && b == '\U{80}' && c == '\U{80}')
  }

  predicate NarrowSpace(a: char, b: char) {
    a == '\U{C2}' && b in "\U{85}\U{A0}"
  }

  /** Octets of the UTF-8 encoded space with which s begins, zero if none. */
  function LeadingSpace(s: string): (n: nat)
    ensures n <= |s|
  {
    if |s| >= 1 && s[0] in BLANKS then 1
    else if |s| >= 2 && NarrowSpace(s[0], s[1]) then 2
    else if |s| >= 3 && WideSpace(s[0], s[1], s[2]) then 3
    else 0
  }

  function TrailingSpace(s: string): (n: nat)
    ensures n <= |s|
  {
    var k := |s|;
    if k >= 1 && s[k - 1] in BLANKS then 1
    else if k >= 2 && NarrowSpace(s[k - 2], s[k - 1]) then 2
    else if k >= 3 && WideSpace(s[k - 3], s[k - 2], s[k - 1]) then 3
    else 0
  }

  function TrimSpaceLeft(s: string): (r: string)
    ensures LeadingSpace(r) == 0
    ensures LeadingSpace(s) == 0 ==> r == s
  {
    var n := LeadingSpace(s);
    if n == 0 then s else TrimSpaceLeft(s[n..])
  }

  function TrimSpaceRight(s: string): (r: string)
    ensures TrailingSpace(r) == 0 && r <= s
    ensures TrailingSpace(s) == 0 ==> r == s
  {
    var n := TrailingSpace(s);
    if n == 0 then s else TrimSpaceRight(s[..|s| - n])
  }

  predicate Trimmed(s: string) {
    LeadingSpace(s) == 0 && TrailingSpace(s) == 0
  }

  /** strings.TrimSpace. */
  function TrimSpace(s: string): (r: string)
    ensures Trimmed(s) ==> r == s
    ensures TrailingSpace(r) == 0
  {
    TrimSpaceRight(TrimSpaceLeft(s))
  }

  /** Printable ASCII at both ends is enough to survive trimming. */
  lemma PlainEndsTrimmed(s: string)
    requires s != "" ==> '!' <= s[0] <= '~' && '!' <= s[|s| - 1] <= '~'
    ensures Trimmed(s)
  {
  }

  /** The white space of ASCII. */
  predicate IsBlank(c: char) {
    c == ' ' || c == '\t' || c == '\n' || c == '\r' || c == '\U{0B}' || c == '\U{0C}'
  }

  lemma BlankInFront(c: char, s: string)
    requires IsBlank(c)
    ensures TrimSpace([c] + s) == TrimSpace(s)
  {
    hide TrimSpaceRight;
    assert ([c] + s)[1..] == s;
    assert LeadingSpace([c] + s) == 1;
  }

  lemma {:induction false} LeftKeepsEnd(s: string, c: char)
    requires IsBlank(c)
    ensures TrimSpaceLeft(s + [c]) == if TrimSpaceLeft(s) == "" then "" else TrimSpaceLeft(s) + [c]
    decreases |s|
  {
    var t := s + [c];
    if s == "" {
      assert t[1..] == "";
    } else {
      assert LeadingSpace(t) == LeadingSpace(s);
      var n := LeadingSpace(s);
      if n > 0 {
        assert t[n..] == s[n..] + [c];
        LeftKeepsEnd(s[n..], c);
      }
    }
  }

  lemma BlankAtEnd(s: string, c: char)
    requires IsBlank(c)
    ensures TrimSpace(s + [c]) == TrimSpace(s)
  {
    hide TrimSpaceLeft;
    LeftKeepsEnd(s, c);
    var l := TrimSpaceLeft(s);
    assert (l + [c])[..|l|] == l;
    assert TrailingSpace(l + [c]) == 1;
  }

  /** strings.TrimSpace drops any ASCII white space around a text that has none at its ends. */
  lemma {:induction false} TrimSpaceDrops(w: string, s: string, v: string)
    requires Trimmed(s) && (forall c :: c in w ==> IsBlank(c)) && (forall c :: c in v ==> IsBlank(c))
    ensures TrimSpace(w + s + v) == s
    decreases |w| + |v|
  {
    hide TrimSpace, Trimmed;
    if w != "" {
      assert w + s + v == [w[0]] + (w[1..] + s + v);
      assert w[0] in w && forall c :: c in w[1..] ==> c in w;
      BlankInFront(w[0], w[1..] + s + v);
      TrimSpaceDrops(w[1..], s, v);
    } else if v != "" {
      var n := |v| - 1;
      assert w + s + v == w + s + v[..n] + [v[n]];
      assert v[n] in v && forall c :: c in v[..n] ==> c in v;
      BlankAtEnd(w + s + v[..n], v[n]);
      TrimSpaceDrops(w, s, v[..n]);
    } else {
      assert w + s + v == s;
      TrimmedStays(s);
    }
  }

  /** The encoded spaces beyond ASCII: one or two octets that open them, and the last one. */
  predicate EncodedSpace(w: string) {
    || w == "\U{C2}\U{85}" || w == "\U{C2}\U{A0}" || w == "\U{E1}\U{9A}\U{80}"
    || (|w| == 3 && w[..2] == "\U{E2}\U{80}" && '\U{80}' <= w[2] <= '\U{8A}')
    || w == "\U{E2}\U{80}\U{A8}" || w == "\U{E2}\U{80}\U{A9}" || w == "\U{E2}\U{80}\U{AF}"
    || w == "\U{E2}\U{81}\U{9F}" || w == "\U{E3}\U{80}\U{80}"
  }

  lemma EncodedParts(w: string)
    requires EncodedSpace(w)
    ensures |w| == 2 ==> NarrowSpace(w[0], w[1])
    ensures |w| == 3 ==> WideSpace(w[0], w[1], w[2])
    ensures |w| == 2 || |w| == 3
  {
    if |w| == 3 { assert w[..2][0] == w[0] && w[..2][1] == w[1]; }
  }

  /** They are dropped as well. */
  lemma EncodedSpaceDrops(w: string, s: string)
    requires EncodedSpace(w) && Trimmed(s)
    ensures TrimSpace(w + s) == s && TrimSpace(s + w) == s
  {
    hide EncodedSpace;
    EncodedParts(w);
    var n := |w|;
    assert (w + s)[n..] == s && (s + w)[..|s|] == s;
    assert LeadingSpace(w + s) == n;
    TrimmedStays(s);
    if s == "" {
      assert s + w == w == w + s;
    } else {
      var k := |s + w|;
      assert (s + w)[k - 1] == w[n - 1] && (s + w)[k - 2] == w[n - 2] && (n == 3 ==> (s + w)[k - 3] == w[n - 3]);
      assert TrailingSpace(s + w) == n;
      assert LeadingSpace(s + w) == 0;
    }
  }

  lemma TrimmedStays(s: string)
    requires Trimmed(s)
    ensures TrimSpace(s) == s
  {
  }

  // ---- Lines ----

  /** bufio.Reader.ReadString('\n'): the octets up to and including the first line feed, or all of them. */
  function RawLine(s: string): (n: nat)
    ensures n <= |s| && (s != "" ==> n > 0)
  {
    var i := IndexOf(s, '\n');
    if i < |s| then i + 1 else i
  }

  function TrimCrLf(s: string): (r: string) {
    if |s| >= 2 && s[|s| - 2..] == "\r\n" then s[..|s| - 2] else s
  }

  /** What readLine returns on non-empty input, and what it leaves. */
  function Line(s: string): (r: (string, string))
    requires s != ""
    ensures |r.1| < |s|
  {
    var n := RawLine(s);
    (TrimCrLf(s[..n]), s[n..])
  }

  predicate Continues(s: string) {
    s != "" && (s[0] == ' ' || s[0] == '\t')
  }

  /** readContinuedLine after a first non-empty line: each folded line is appended to the trimmed rest. */
  function Folded(line: string, s: string): (r: (string, string))
    ensures |r.1| <= |s|
    decreases |s|
  {
    if !Continues(s) then (line, s)
    else
      var (cont, rest) := Line(s);
      Folded(TrimRight(line, " \t\r") + cont, rest)
  }

  function ContinuedLine(s: string): (r: (string, string))
    requires s != ""
    ensures |r.1| < |s|
  {
    var (line, rest) := Line(s);
    if line == "" then ("", rest) else Folded(line, rest)
  }

  const CRLF := "\r\n"

  /** A text without line feeds, followed by CRLF, is read back exactly. */
  lemma LineReadsBack(a: string, tail: string)
    requires '\n' !in a
    ensures Line(a + CRLF + tail) == (a, tail)
  {
    var s := a + CRLF + tail;
    var body := a + ['\r'];
    assert s == body + ['\n'] + tail;
    IndexOfAt(body, '\n', tail);
    var n := RawLine(s);
    assert s[..n] == a + CRLF;
    assert (a + CRLF)[|a|..] == "\r\n" && (a + CRLF)[..|a|] == a;
    assert s[n..] == tail;
  }

  // ---- Folded lines ----

  /** Each line feed ends the text or folds it: a blank follows, and no carriage return goes before. */
  predicate FeedsFold(s: string) {
    forall i :: 0 <= i < |s| && s[i] == '\n' ==>
      (i + 1 < |s| ==> Continues(s[i + 1..])) && (i > 0 ==> s[i - 1] != '\r')
  }

  predicate EndsInFeed(s: string) {
    s != "" && s[|s| - 1] == '\n'
  }

  /** Line feeds only fold the text, so that it is read as one line. */
  predicate Foldable(s: string) {
    FeedsFold(s) && !EndsInFeed(s)
  }

  lemma PlainFoldable(s: string)
    requires '\n' !in s
    ensures Foldable(s)
  {
  }

  /** How a line ends: with a line feed of its own, or with CRLF. */
  predicate Ended(a: string, end: string) {
    FeedsFold(a) && if EndsInFeed(a) then end == "" else end == CRLF
  }

  /** Up to its first line feed. */
  function FirstPiece(a: string): (n: nat)
    ensures n <= |a|
  {
    var i := IndexOf(a, '\n');
    if i < |a| then i + 1 else i
  }

  lemma PieceFolds(a: string, end: string)
    requires Ended(a, end) && FirstPiece(a) < |a|
    ensures var b := a[FirstPiece(a)..]; Ended(b, end) && Continues(b)
  {
    hide Continues;
    var n := FirstPiece(a);
    var b := a[n..];
    forall i | 0 <= i < |b| && b[i] == '\n'
      ensures (i + 1 < |b| ==> Continues(b[i + 1..])) && (i > 0 ==> b[i - 1] != '\r')
    {
      assert a[n + i] == '\n' && b[i + 1..] == a[n + i + 1..];
    }
    assert a[n - 1] == '\n';
  }

  /** A line that ends with a bare line feed keeps it. */
  lemma FeedLine(b: string, after: string)
    requires '\n' !in b && (b == "" || b[|b| - 1] != '\r')
    ensures Line(b + ['\n'] + after) == (b + ['\n'], after)
  {
    var s := b + ['\n'] + after;
    IndexOfAt(b, '\n', after);
    var raw := b + ['\n'];
    assert s[..|b| + 1] == raw && s[|b| + 1..] == after;
    assert |raw| >= 2 ==> raw[|raw| - 2..][0] == raw[|raw| - 2];
  }

  lemma PieceReads(a: string, end: string, tail: string)
    requires Ended(a, end)
    ensures var n := FirstPiece(a);
      Line(a + end + tail) == if n < |a| then (a[..n], a[n..] + end + tail) else (a, tail)
  {
    hide Continues, Line;
    var i := IndexOf(a, '\n');
    if i < |a| {
      var b, after := a[..i], a[i + 1..] + end + tail;
      FeedLine(b, after);
      assert a == b + ['\n'] + a[i + 1..];
      assert a + end + tail == b + ['\n'] + after && a[..i + 1] == b + ['\n'];
      assert i + 1 == |a| ==> end == "" && after == tail && a == b + ['\n'];
    } else {
      LineReadsBack(a, tail);
    }
  }

  /** Pieces that fold are put together again; a line feed at the end of a piece is not trimmed. */
  lemma {:induction false} FoldedReadsBack(line: string, a: string, end: string, tail: string)
    requires Ended(a, end) && Continues(a) && EndsInFeed(line)
    ensures Folded(line, a + end + tail) == Folded(line + a, tail)
    decreases |a|
  {
    hide Ended, Line, FirstPiece, Continues;
    var s := a + end + tail;
    assert Continues(s) by { StillContinues(a, end + tail); assert s == a + (end + tail); }
    PieceReads(a, end, tail);
    var n := FirstPiece(a);
    assert TrimRight(line, " \t\r") == line;
    if n == |a| {
      assert Folded(line, s) == Folded(line + a, tail);
    } else {
      PieceFolds(a, end);
      PieceEnds(a);
      FoldedReadsBack(line + a[..n], a[n..], end, tail);
      assert line + a[..n] + a[n..] == line + a;
    }
  }

  lemma StillContinues(a: string, b: string)
    requires Continues(a)
    ensures Continues(a + b)
  {
  }

  lemma PieceEnds(a: string)
    requires FirstPiece(a) < |a|
    ensures EndsInFeed(a[..FirstPiece(a)])
  {
  }

  /** A line through readContinuedLine: an empty one is never continued, whatever follows it. */
  lemma ContinuedLineEnds(a: string, end: string, tail: string)
    requires Ended(a, end)
    ensures ContinuedLine(a + end + tail) == if a == "" then ("", tail) else Folded(a, tail)
  {
    hide Ended, Line, FirstPiece, Continues, Folded;
    PieceReads(a, end, tail);
    var n := FirstPiece(a);
    assert a + end + tail != "" by { NotNothing(a, end); }
    if n < |a| {
      PieceFolds(a, end);
      PieceEnds(a);
      FoldedReadsBack(a[..n], a[n..], end, tail);
      assert a[..n] + a[n..] == a;
    }
  }

  lemma NotNothing(a: string, end: string)
    requires Ended(a, end)
    ensures a + end != ""
  {
  }

  lemma FoldedNot(line: string, s: string)
    requires !Continues(s)
    ensures Folded(line, s) == (line, s)
  {
  }

  lemma ContinuedLineReadsBack(a: string, tail: string)
    requires Foldable(a) && (a == "" || !Continues(tail))
    ensures ContinuedLine(a + CRLF + tail) == (a, tail)
  {
    hide FeedsFold, Continues, ContinuedLine, Folded;
    ContinuedLineEnds(a, CRLF, tail);
    if a != "" { FoldedNot(a, tail); }
  }
}
