/** SDP texts as others may write them, with their line ends and spacing; and the printed text, letter by letter. */
module SdpTexts {
  import opened Octets
  import opened Text
  import opened Decimal
  import opened Sequences
  import opened Sdp
  import opened SdpRoundTrip
  import opened SdpReparse

  // ---- Lines ----

  /** The lines of s without the white space around them; those that are blank are left out. */
  function Lines(s: string): (ls: seq<string>)
    decreases |s|
  {
    if s == "" then []
    else
      var c := Cut(s, '\n');
      var line := TrimSpace(c.before);
      (if line == "" then [] else [line]) + if c.found then Lines(c.after) else []
  }

  /** The lines applied one after the other, each of them a letter, an equals sign and a value. */
  function Applied(ls: seq<string>, p: Parse): (r: Outcome<Parse>)
    decreases |ls|
  {
    if ls == [] then Ok(p)
    else if |ls[0]| < 3 || ls[0][1] != '=' then Err(MalformedLine)
    else
      match Apply(p, ls[0][0], ls[0][2..])
      case Ok(q) => Applied(ls[1..], q)
      case Err(e) => Err(e)
      case Panic => Panic
  }

  lemma CarriageDropped(before: string)
    ensures |before| > 0 && before[|before| - 1] == '\r' ==> TrimSpace(before[..|before| - 1]) == TrimSpace(before)
    ensures TrimSpace(before + ['\n']) == TrimSpace(before)
  {
    hide TrimSpace;
    BlankAtEnd(before, '\n');
    if |before| > 0 && before[|before| - 1] == '\r' {
      var n := |before| - 1;
      assert before == before[..n] + ['\r'];
      BlankAtEnd(before[..n], '\r');
    }
  }

  /** A line as the reader returns it, and the same line cut at the line feed. */
  lemma FirstLine(s: string)
    requires s != ""
    ensures var c := Cut(s, '\n');
      TrimSpace(Line(s).0) == TrimSpace(c.before) && Line(s).1 == if c.found then c.after else ""
  {
    hide TrimSpace;
    var c := Cut(s, '\n');
    CarriageDropped(c.before);
    var i := IndexOf(s, '\n');
    var raw := s[..RawLine(s)];
    if i < |s| {
      assert raw == c.before + ['\n'];
      if |raw| >= 2 && raw[|raw| - 2..] == "\r\n" {
        assert raw[|raw| - 2..][0] == raw[|raw| - 2];
        assert c.before[|c.before| - 1] == '\r';
        assert raw[..|raw| - 2] == c.before[..|c.before| - 1];
      }
    } else {
      assert raw == s;
      NothingToCut(s);
    }
  }

  lemma NothingToCut(s: string)
    requires '\n' !in s
    ensures TrimCrLf(s) == s
  {
    assert |s| >= 2 ==> s[|s| - 2..][1] == s[|s| - 1] != '\n';
  }

  lemma LinesStep(before: string, after: string)
    requires '\n' !in before
    ensures Lines(before + ['\n'] + after)
         == (if TrimSpace(before) == "" then [] else [TrimSpace(before)]) + Lines(after)
  {
    hide TrimSpace, Cut;
    CutAt(before, '\n', after);
  }

  /** Only the lines matter: not how they end, nor the white space around them, nor blank lines between them. */
  lemma {:induction false} LinesDecide(s: string, p: Parse)
    ensures DecodedLines(s, p) == Applied(Lines(s), p)
    decreases |s|
  {
    hide Line, TrimSpace, Apply, Cut;
    if s == "" {
    } else {
      var (raw, rest) := Line(s);
      FirstLine(s);
      var line := TrimSpace(raw);
      var ls := Lines(s);
      assert rest == "" ==> Lines(rest) == [];
      if line == "" {
        assert ls == Lines(rest);
        LinesDecide(rest, p);
      } else {
        assert ls == [line] + Lines(rest);
        assert ls[1..] == Lines(rest);
        if |line| >= 3 && line[1] == '=' {
          var q := Apply(p, line[0], line[2..]);
          if q.Ok? { LinesDecide(rest, q.value); }
        }
      }
    }
  }

  lemma {:induction false} LinesAppend(a: string, b: string)
    requires a == "" || EndsInFeed(a)
    ensures Lines(a + b) == Lines(a) + Lines(b)
    decreases |a|
  {
    hide TrimSpace, Lines, Cut;
    if a == "" {
      assert a + b == b;
      assert Lines("") == [] by { NoLines(); }
    } else {
      var c := Cut(a, '\n');
      assert a[|a| - 1] in a;
      assert a + b == c.before + ['\n'] + (c.after + b);
      assert c.after != "" ==> c.after[|c.after| - 1] == a[|a| - 1];
      LinesStep(c.before, c.after + b);
      LinesStep(c.before, c.after);
      LinesAppend(c.after, b);
      var first := if TrimSpace(c.before) == "" then [] else [TrimSpace(c.before)];
      assert first + (Lines(c.after) + Lines(b)) == first + Lines(c.after) + Lines(b);
    }
  }

  lemma NoLines()
    ensures Lines("") == []
  {
  }

  lemma OneLine(line: string, end: string)
    requires '\n' !in line && (end == "\r\n" || end == "\n")
    ensures Lines(line + end) == if TrimSpace(line) == "" then [] else [TrimSpace(line)]
  {
    hide TrimSpace, Lines;
    NoLines();
    if end == "\n" {
      assert line + end == line + ['\n'] + "";
      LinesStep(line, "");
    } else {
      assert line + end == line + ['\r'] + ['\n'] + "";
      LinesStep(line + ['\r'], "");
      BlankAtEnd(line, '\r');
    }
  }

  /** A blank line, ended by CRLF or by a bare line feed, can stand between any two lines. */
  lemma BlankLineIgnored(a: string, blank: string, end: string, b: string, p: Parse)
    requires a == "" || EndsInFeed(a)
    requires '\n' !in blank && TrimSpace(blank) == "" && (end == "\r\n" || end == "\n")
    ensures DecodedLines(a + (blank + end) + b, p) == DecodedLines(a + b, p)
    ensures a + b != "" ==> Decoded(a + (blank + end) + b) == Decoded(a + b)
  {
    hide TrimSpace, DecodedLines, Lines;
    OneLine(blank, end);
    LinesAppend(a, blank + end);
    LinesAppend(a + (blank + end), b);
    LinesAppend(a, b);
    assert Lines(a) + [] == Lines(a);
    LinesDecide(a + (blank + end) + b, p);
    LinesDecide(a + b, p);
    LinesDecide(a + (blank + end) + b, Parse(EMPTY, false));
    LinesDecide(a + b, Parse(EMPTY, false));
  }

  /** Lines may end in CRLF or in a bare line feed, with any white space before it. */
  lemma LineEndIgnored(a: string, line: string, w: string, end: string, b: string, p: Parse)
    requires (a == "" || EndsInFeed(a)) && '\n' !in line && Trimmed(line) && line != ""
    requires (forall c :: c in w ==> IsBlank(c) && c != '\n') && (end == "\r\n" || end == "\n")
    ensures DecodedLines(a + (line + w + end) + b, p) == DecodedLines(a + (line + CRLF) + b, p)
    ensures Decoded(a + (line + w + end) + b) == Decoded(a + (line + CRLF) + b)
  {
    hide TrimSpace, DecodedLines, Lines, Trimmed;
    TrimSpaceDrops("", line, w);
    TrimSpaceDrops("", line, "");
    assert "" + line + w == line + w && "" + line + "" == line;
    OneLine(line + w, end);
    OneLine(line, CRLF);
    var s, t := a + (line + w + end) + b, a + (line + CRLF) + b;
    assert Lines(s) == Lines(t) by {
      LinesAppend(a, line + w + end);
      LinesAppend(a + (line + w + end), b);
      LinesAppend(a, line + CRLF);
      LinesAppend(a + (line + CRLF), b);
    }
    LinesDecide(s, p);
    LinesDecide(t, p);
    LinesDecide(s, Parse(EMPTY, false));
    LinesDecide(t, Parse(EMPTY, false));
  }

  // ---- What a line needs ----

  /** Lines that are known in front of the first media section, and in one. */
  lemma KnownLetters(p: Parse, typ: char, val: string)
    requires typ != 'm' && typ != 'v'
    ensures p.session.media == [] && typ !in "osiuepcbtrzka" ==> Apply(p, typ, val) == Err(UnknownField)
    ensures p.session.media != [] && typ !in "icbka" ==> Apply(p, typ, val) == Err(UnknownField)
    ensures p.session.media == [] && p.session.times == [] && typ == 'r' ==>
      Apply(p, typ, val) == Err(RepeatBeforeTime)
  {
    hide DecodedOrigin, DecodedConnection, DecodedBandwidth, DecodedTime, DecodedRepeat, DecodedEncryption,
      DecodedAttribute, WithRepeat;
    assert forall c :: c in "osiuepcbtrzka" <==>
      || c == 'o' || c == 's' || c == 'i' || c == 'u' || c == 'e' || c == 'p' || c == 'c' || c == 'b' || c == 't'
      || c == 'r' || c == 'z' || c == 'k' || c == 'a';
    assert forall c :: c in "icbka" <==> c == 'i' || c == 'c' || c == 'b' || c == 'k' || c == 'a';
  }

  /** How many lines start with a letter. */
  function Count(ls: seq<string>, typ: char): (n: nat) {
    if ls == [] then 0 else (if ls[0] != "" && ls[0][0] == typ then 1 else 0) + Count(ls[1..], typ)
  }

  lemma ApplyCounts(p: Parse, typ: char, val: string)
    requires Apply(p, typ, val).Ok?
    ensures var q := Apply(p, typ, val).value;
      && |q.session.media| == |p.session.media| + (if typ == 'm' then 1 else 0)
      && |q.session.times| == |p.session.times| + (if typ == 't' then 1 else 0)
      && (typ == 'v' ==> !p.seenVersion) && (q.seenVersion <==> p.seenVersion || typ == 'v')
  {
    hide DecodedOrigin, DecodedConnection, DecodedBandwidth, DecodedTime, DecodedRepeat, DecodedEncryption,
      DecodedAttribute, DecodedMedia, Atoi, TrimSpace;
  }

  lemma {:induction false} AppliedCounts(ls: seq<string>, p: Parse)
    requires Applied(ls, p).Ok?
    ensures var q := Applied(ls, p).value;
      && |q.session.media| == |p.session.media| + Count(ls, 'm')
      && |q.session.times| == |p.session.times| + Count(ls, 't')
      && Count(ls, 'v') == (if q.seenVersion then 1 else 0) - (if p.seenVersion then 1 else 0)
    decreases |ls|
  {
    hide Apply;
    if ls == [] {
    } else {
      ApplyCounts(p, ls[0][0], ls[0][2..]);
      AppliedCounts(ls[1..], Apply(p, ls[0][0], ls[0][2..]).value);
    }
  }

  /**
    * A text parses if and only if all its lines do and the description is complete: one version line, of version 0,
    * a time line, an origin with a user name and a session name.
    */
  lemma CompleteExactly(t: string)
    ensures var r := Applied(Lines(t), Parse(EMPTY, false));
      && (t == "" <==> Decoded(t) == Err(EmptyBody))
      && (t != "" && r.Err? ==> Decoded(t) == Err(r.error))
      && (t != "" && r.Ok? ==>
            var s := r.value.session;
            && Count(Lines(t), 'v') <= 1
            && Decoded(t) == if Count(Lines(t), 'v') == 0 then Err(MissingVersion)
                             else if s.version != 0 then Err(WrongVersion)
                             else if s.origin.username == "" then Err(MissingOrigin)
                             else if s.name == "" then Err(MissingName)
                             else if Count(Lines(t), 't') == 0 then Err(MissingTime)
                             else Ok(s))
  {
    hide Lines, Applied, DecodedLines;
    var p := Parse(EMPTY, false);
    LinesDecide(t, p);
    var r := Applied(Lines(t), p);
    assert r == Err(EmptyBody) ==> false by { NeverEmptyBody(Lines(t), p); }
    if r.Ok? { AppliedCounts(Lines(t), p); }
  }

  lemma {:induction false} NeverEmptyBody(ls: seq<string>, p: Parse)
    ensures Applied(ls, p) != Err(EmptyBody)
    decreases |ls|
  {
    hide Apply;
    if ls == [] || |ls[0]| < 3 || ls[0][1] != '=' {
    } else {
      var q := Apply(p, ls[0][0], ls[0][2..]);
      if q.Ok? { NeverEmptyBody(ls[1..], q.value); } else { ApplyErrors(p, ls[0][0], ls[0][2..]); }
    }
  }

  lemma ApplyErrors(p: Parse, typ: char, val: string)
    ensures Apply(p, typ, val) != Err(EmptyBody)
  {
    hide Cut, Atoi, TrimSpace, SkipBlanks, Split, DecodedRepeat;
    RepeatErrors(val);
  }

  lemma RepeatErrors(val: string)
    ensures DecodedRepeat(val).Err? ==> DecodedRepeat(val) == Err(BadRepeat)
  {
    hide Cut, Atoi, SkipBlanks, DecodedOffsets;
    var b := Cut(SkipBlanks(Cut(val, ' ').after), ' ');
    OffsetErrors(SkipBlanks(b.after));
  }

  lemma {:induction false} OffsetErrors(s: string)
    ensures DecodedOffsets(s).Err? ==> DecodedOffsets(s) == Err(BadRepeat)
    decreases |s|
  {
    hide Cut, Atoi;
    if s == "" {
    } else {
      OffsetErrors(SkipBlanks(Cut(s, ' ').after));
    }
  }

  // ---- Spacing inside a line ----

  lemma WordAfterBlanks(n: nat, w: string, rest: string)
    requires Word(w)
    ensures Cut(SkipBlanks(Blanks(n) + w + " " + rest), ' ') == Halves(w, rest, true)
  {
    hide Cut;
    assert w[0] in w;
    assert Blanks(n) + w + " " + rest == Blanks(n) + (w + " " + rest);
    BlanksDropped(n, w + " " + rest);
    assert w + " " + rest == w + [' '] + rest;
    CutAt(w, ' ', rest);
  }

  /** Fields of an origin may be set apart by any number of spaces. */
  lemma OriginSpaced(o: Origin, i: nat, j: nat, k: nat, l: nat)
    requires OriginOk(o)
    ensures DecodedOrigin(o.username + " " + (Blanks(i) + o.sessionId + " " + (Blanks(j) + o.sessionVersion + " "
      + (Blanks(k) + o.networkType + " " + (Blanks(l) + o.addressType + " " + o.address))))) == Ok(o)
  {
    hide Cut, SkipBlanks;
    var r4 := Blanks(l) + o.addressType + " " + o.address;
    var r3 := Blanks(k) + o.networkType + " " + r4;
    var r2 := Blanks(j) + o.sessionVersion + " " + r3;
    var r1 := Blanks(i) + o.sessionId + " " + r2;
    CutFirst(o.username, r1);
    WordAfterBlanks(i, o.sessionId, r2);
    WordAfterBlanks(j, o.sessionVersion, r3);
    WordAfterBlanks(k, o.networkType, r4);
    WordAfterBlanks(l, o.addressType, o.address);
  }

  lemma ConnectionSpaced(c: Connection, i: nat)
    requires ConnectionOk(c)
    ensures DecodedConnection(c.networkType + " " + (Blanks(i) + c.addressType + " " + c.address)) == Ok(c)
  {
    hide Cut, SkipBlanks;
    CutFirst(c.networkType, Blanks(i) + c.addressType + " " + c.address);
    WordAfterBlanks(i, c.addressType, c.address);
  }

  /** Type and value of a bandwidth may have white space around them. */
  lemma BandwidthSpaced(b: Bandwidth, u: string, v: string, w: string, x: string)
    requires ':' !in b.kind && Trimmed(b.kind)
    requires forall c :: c in u || c in v || c in w || c in x ==> IsBlank(c)
    ensures DecodedBandwidth(u + b.kind + v + ":" + (w + Dec(b.value) + x)) == Ok(b)
  {
    hide Cut, Atoi, TrimSpace, Dec, Trimmed;
    var before, after := u + b.kind + v, w + Dec(b.value) + x;
    assert forall c :: c in u ==> c != ':';
    assert forall c :: c in v ==> c != ':';
    assert before + ":" + after == before + [':'] + after;
    CutAt(before, ':', after);
    DecReadsBack(b.value);
    TrimSpaceDrops(u, b.kind, v);
    TrimSpaceDrops(w, Dec(b.value), x);
  }

  lemma TimeSpaced(start: int64, stop: int64, w: string, x: string)
    requires forall c :: c in w || c in x ==> IsBlank(c)
    ensures DecodedTime(Dec(start) + " " + (w + Dec(stop) + x)) == Ok(Time(start, stop, []))
  {
    hide Cut, Atoi, TrimSpace, Dec, Trimmed;
    DecWord(start);
    CutFirst(Dec(start), w + Dec(stop) + x);
    DecReadsBack(start);
    DecReadsBack(stop);
    TrimSpaceDrops(w, Dec(stop), x);
    DecWord(stop);
  }

  /** Offsets with any number of spaces before each of them. */
  function SpacedOffsets(os: seq<int64>, gaps: seq<nat>): (s: string)
    requires |gaps| == |os|
    decreases |os|
  {
    if os == [] then ""
    else Blanks(gaps[0]) + Dec(os[0]) + if |os| == 1 then "" else " " + SpacedOffsets(os[1..], gaps[1..])
  }

  lemma OffsetFirst(w: string, n: int64, rest: string)
    requires Word(w) && Atoi(w) == Some(n)
    ensures DecodedOffsets(w) == Ok([n])
    ensures DecodedOffsets(SkipBlanks(rest)).Ok? ==>
      DecodedOffsets(w + " " + rest) == Ok([n] + DecodedOffsets(SkipBlanks(rest)).value)
  {
    hide Cut, Atoi;
    CutNone(w, ' ');
    CutFirst(w, rest);
    assert SkipBlanks("") == "";
    assert [n] + [] == [n];
  }

  lemma {:induction false} OffsetsSpaced(os: seq<int64>, gaps: seq<nat>)
    requires |gaps| == |os|
    ensures DecodedOffsets(SkipBlanks(SpacedOffsets(os, gaps))) == Ok(os)
    decreases |os|
  {
    hide Atoi, Dec, SkipBlanks, DecodedOffsets;
    if os == [] {
      NoOffsets();
    } else {
      var d := Dec(os[0]);
      DecWord(os[0]);
      DecReadsBack(os[0]);
      assert d[0] in d;
      if |os| == 1 {
        assert SpacedOffsets(os, gaps) == Blanks(gaps[0]) + d;
        SkipsBlanks(gaps[0], d);
        OffsetFirst(d, os[0], "");
        assert os == [os[0]];
      } else {
        var rest := SpacedOffsets(os[1..], gaps[1..]);
        assert SpacedOffsets(os, gaps) == Blanks(gaps[0]) + (d + " " + rest);
        SkipsBlanks(gaps[0], d + " " + rest);
        OffsetsSpaced(os[1..], gaps[1..]);
        OffsetFirst(d, os[0], rest);
        assert os == [os[0]] + os[1..];
      }
    }
  }

  lemma NoOffsets()
    ensures DecodedOffsets(SkipBlanks("")) == Ok([])
  {
  }

  lemma RepeatSpaced(r: Repeat, i: nat, gaps: seq<nat>)
    requires |gaps| == |r.offsets|
    ensures DecodedRepeat(Dec(r.interval) + " " + (Blanks(i) + Dec(r.duration) + " " + SpacedOffsets(r.offsets, gaps)))
         == Ok(r)
  {
    hide Cut, Atoi, Dec, SkipBlanks, DecodedOffsets, SpacedOffsets;
    DecWord(r.interval);
    DecWord(r.duration);
    DecReadsBack(r.interval);
    DecReadsBack(r.duration);
    var rest := SpacedOffsets(r.offsets, gaps);
    CutFirst(Dec(r.interval), Blanks(i) + Dec(r.duration) + " " + rest);
    WordAfterBlanks(i, Dec(r.duration), rest);
    OffsetsSpaced(r.offsets, gaps);
  }

  lemma MediaSpaced(m: Media, i: nat, j: nat, k: nat)
    requires MediaLineOk(m)
    ensures DecodedMedia(m.kind + " " + (Blanks(i) + PortText(m) + " " + (Blanks(j) + m.proto + " "
      + (Blanks(k) + Join(m.formats))))) == Ok(Bare(m))
  {
    hide Cut, Atoi, Dec, SkipBlanks, PortText, Join, Split;
    PortReadsBack(m);
    var r3 := Blanks(k) + Join(m.formats);
    var r2 := Blanks(j) + m.proto + " " + r3;
    CutFirst(m.kind, Blanks(i) + PortText(m) + " " + r2);
    WordAfterBlanks(i, PortText(m), r2);
    WordAfterBlanks(j, m.proto, r3);
    JoinStarts(m.formats);
    BlanksDropped(k, Join(m.formats));
    JoinSplits(m.formats);
    assert SkipBlanks(r3) == Join(m.formats) by { SkipsBlanks(k, Join(m.formats)); }
  }

  lemma SkipsBlanks(n: nat, s: string)
    requires s == "" || s[0] != ' '
    ensures SkipBlanks(Blanks(n) + s) == s
  {
    BlanksDropped(n, s);
  }

  // ---- The printed text ----

  function Row(letter: string, val: string): (s: string) {
    letter + "=" + val + "\r\n"
  }

  function RowIfAny(letter: string, val: string): (s: string) {
    if val == "" then "" else Row(letter, val)
  }

  function Rows(letter: string, vals: seq<string>): (s: string) {
    if vals == [] then "" else Row(letter, vals[0]) + Rows(letter, vals[1..])
  }

  function ConnectionRow(c: Option<Connection>): (s: string) {
    if c.None? then "" else Row("c", c.value.networkType + " " + c.value.addressType + " " + c.value.address)
  }

  function BandwidthRows(bs: seq<Bandwidth>): (s: string) {
    if bs == [] then "" else Row("b", bs[0].kind + ":" + Dec(bs[0].value)) + BandwidthRows(bs[1..])
  }

  function Numbers(ns: seq<int64>): (s: string) {
    if ns == [] then "" else " " + Dec(ns[0]) + Numbers(ns[1..])
  }

  function RepeatRows(rs: seq<Repeat>): (s: string) {
    if rs == [] then ""
    else Row("r", Dec(rs[0].interval) + " " + Dec(rs[0].duration) + Numbers(rs[0].offsets)) + RepeatRows(rs[1..])
  }

  function TimeRows(ts: seq<Time>): (s: string) {
    if ts == [] then ""
    else Row("t", Dec(ts[0].start) + " " + Dec(ts[0].stop)) + RepeatRows(ts[0].repeats) + TimeRows(ts[1..])
  }

  function NameAndValue(name: string, value: string): (s: string) {
    if value == "" then name else name + ":" + value
  }

  function KeyRow(k: Option<EncryptionKey>): (s: string) {
    if k.None? then "" else Row("k", NameAndValue(k.value.scheme, k.value.key))
  }

  function AttributeRows(xs: seq<Attribute>): (s: string) {
    if xs == [] then "" else Row("a", NameAndValue(xs[0].key, xs[0].value)) + AttributeRows(xs[1..])
  }

  function MediaRow(m: Media): (s: string) {
    var ports := Dec(m.port) + if m.portCount > 1 then "/" + Dec(m.portCount) else "";
    Row("m", m.kind + " " + ports + " " + m.proto + " " + Join(m.formats))
  }

  function MediaRows(ms: seq<Media>): (s: string) {
    if ms == [] then ""
    else
      MediaRow(ms[0]) + RowIfAny("i", ms[0].title) + ConnectionRow(ms[0].connection) + BandwidthRows(ms[0].bandwidths)
      + KeyRow(ms[0].encryption) + AttributeRows(ms[0].attributes) + MediaRows(ms[1..])
  }

  lemma ItemRow(typ: char, s: string)
    ensures ItemsText([TextItem(typ, s)]) == Row([typ], s)
  {
    hide Val;
    ValOfText(typ, s);
    ConcatMapSingle(ItemText, TextItem(typ, s));
  }

  lemma PartsRow(i: Item)
    ensures ItemsText([i]) == Row([i.typ], Val(i))
  {
    hide Val;
    ConcatMapSingle(ItemText, i);
  }

  lemma TextAppend(xs: seq<Item>, ys: seq<Item>)
    ensures ItemsText(xs + ys) == ItemsText(xs) + ItemsText(ys)
  {
    ConcatMapAppend(ItemText, xs, ys);
  }

  lemma NothingPrinted()
    ensures ItemsText([]) == ""
  {
  }

  lemma OptionalRow(typ: char, s: string)
    ensures ItemsText(OptionalItem(typ, s)) == RowIfAny([typ], s)
  {
    hide ItemsText, Row;
    NothingPrinted();
    ItemRow(typ, s);
  }

  lemma {:induction false} EachRow(typ: char, ss: seq<string>)
    ensures ItemsText(EachItem(typ, ss)) == Rows([typ], ss)
    decreases |ss|
  {
    hide ItemsText, Row;
    if ss == [] {
      NothingPrinted();
    } else {
      TextAppend([TextItem(typ, ss[0])], EachItem(typ, ss[1..]));
      ItemRow(typ, ss[0]);
      EachRow(typ, ss[1..]);
    }
  }

  lemma ConnectionPrinted(c: Option<Connection>)
    ensures ItemsText(ConnectionItems(c)) == ConnectionRow(c)
  {
    hide ItemsText, Row;
    NothingPrinted();
    if c.Some? { ItemRow('c', ConnectionText(c.value)); }
  }

  lemma {:induction false} BandwidthsPrinted(bs: seq<Bandwidth>)
    ensures ItemsText(BandwidthItems(bs)) == BandwidthRows(bs)
    decreases |bs|
  {
    hide ItemsText, Row, ConcatMap, Dec;
    if bs == [] {
      NothingPrinted();
    } else {
      TextAppend([BandwidthItem(bs[0])], BandwidthItems(bs[1..]));
      PartsRow(BandwidthItem(bs[0]));
      ConcatMapTwo(PartText, Lit(bs[0].kind + ":"), Num(bs[0].value));
      BandwidthsPrinted(bs[1..]);
    }
  }

  lemma {:induction false} NumbersAre(ns: seq<int64>)
    ensures OffsetsText(ns) == Numbers(ns)
    decreases |ns|
  {
    hide Dec, OffsetsText;
    if ns == [] {
      OffsetsTextNone();
    } else {
      OffsetsTextStep(ns);
      NumbersAre(ns[1..]);
      assert " " + (Dec(ns[0]) + Numbers(ns[1..])) == " " + Dec(ns[0]) + Numbers(ns[1..]);
    }
  }

  lemma RepeatItemVal(r: Repeat)
    ensures Val(RepeatItem(r)) == Dec(r.interval) + " " + Dec(r.duration) + Numbers(r.offsets)
  {
    hide Dec, ConcatMap, OffsetsText;
    var head := [Num(r.interval), Lit(" "), Num(r.duration)];
    ConcatMapAppend(PartText, head, OffsetParts(r.offsets));
    ThreeParts(Num(r.interval), Lit(" "), Num(r.duration));
    OffsetsTextIs(r.offsets);
    NumbersAre(r.offsets);
  }

  lemma {:induction false} RepeatsPrinted(rs: seq<Repeat>)
    ensures ItemsText(RepeatItems(rs)) == RepeatRows(rs)
    decreases |rs|
  {
    hide ItemsText, Row, Val, Dec;
    if rs == [] {
      NothingPrinted();
    } else {
      TextAppend([RepeatItem(rs[0])], RepeatItems(rs[1..]));
      PartsRow(RepeatItem(rs[0]));
      RepeatItemVal(rs[0]);
      RepeatsPrinted(rs[1..]);
    }
  }

  lemma {:induction false} TimesPrinted(ts: seq<Time>)
    ensures ItemsText(TimeItems(ts)) == TimeRows(ts)
    decreases |ts|
  {
    hide ItemsText, Row, ConcatMap, Dec;
    if ts == [] {
      NothingPrinted();
    } else {
      var t := ts[0];
      TextAppend([TimeItem(t)] + RepeatItems(t.repeats), TimeItems(ts[1..]));
      TextAppend([TimeItem(t)], RepeatItems(t.repeats));
      PartsRow(TimeItem(t));
      ThreeParts(Num(t.start), Lit(" "), Num(t.stop));
      RepeatsPrinted(t.repeats);
      TimesPrinted(ts[1..]);
    }
  }

  lemma KeyPrinted(k: Option<EncryptionKey>)
    ensures ItemsText(EncryptionItems(k)) == KeyRow(k)
  {
    hide ItemsText, Row;
    NothingPrinted();
    if k.Some? { ItemRow('k', Tagged(k.value.scheme, k.value.key)); }
  }

  lemma {:induction false} AttributesPrinted(xs: seq<Attribute>)
    ensures ItemsText(AttributeItems(xs)) == AttributeRows(xs)
    decreases |xs|
  {
    hide ItemsText, Row;
    if xs == [] {
      NothingPrinted();
    } else {
      TextAppend([TextItem('a', Tagged(xs[0].key, xs[0].value))], AttributeItems(xs[1..]));
      ItemRow('a', Tagged(xs[0].key, xs[0].value));
      AttributesPrinted(xs[1..]);
    }
  }

  lemma MediaItemPrinted(m: Media)
    ensures ItemsText([MediaItem(m)]) == MediaRow(m)
  {
    hide ItemsText, Val, Dec, Join;
    PartsRow(MediaItem(m));
    MediaVal(m);
    var ports := PortText(m);
    assert m.kind + " " + (ports + " " + (m.proto + " " + Join(m.formats)))
        == m.kind + " " + ports + " " + m.proto + " " + Join(m.formats);
  }

  lemma {:induction false} MediaPrinted(ms: seq<Media>)
    ensures ItemsText(MediaItems(ms)) == MediaRows(ms)
    decreases |ms|
  {
    hide ItemsText, MediaItem, MediaRow, ConnectionItems, ConnectionRow, BandwidthItems, BandwidthRows, EncryptionItems,
      KeyRow, AttributeItems, AttributeRows, OptionalItem, RowIfAny;
    if ms == [] {
      NothingPrinted();
    } else {
      var m := ms[0];
      var i, c, b := OptionalItem('i', m.title), ConnectionItems(m.connection), BandwidthItems(m.bandwidths);
      var k, a := EncryptionItems(m.encryption), AttributeItems(m.attributes);
      TextAppend(MediaLines(m), MediaItems(ms[1..]));
      TextAppend([MediaItem(m)], i + (c + (b + (k + a))));
      TextAppend(i, c + (b + (k + a)));
      TextAppend(c, b + (k + a));
      TextAppend(b, k + a);
      TextAppend(k, a);
      MediaItemPrinted(m);
      OptionalRow('i', m.title);
      ConnectionPrinted(m.connection);
      BandwidthsPrinted(m.bandwidths);
      KeyPrinted(m.encryption);
      AttributesPrinted(m.attributes);
      MediaPrinted(ms[1..]);
      Seven(ItemsText([MediaItem(m)]), ItemsText(i), ItemsText(c), ItemsText(b), ItemsText(k), ItemsText(a),
            ItemsText(MediaItems(ms[1..])));
    }
  }

  lemma Seven(a: string, b: string, c: string, d: string, e: string, f: string, g: string)
    ensures a + (b + (c + (d + (e + f)))) + g == a + b + c + d + e + f + g
  {
    assert d + (e + f) == d + e + f;
    assert c + (d + e + f) == c + d + e + f;
    assert b + (c + d + e + f) == b + c + d + e + f;
    assert a + (b + c + d + e + f) == a + b + c + d + e + f;
  }

  function EarlyText(s: Session): (t: string) {
    Row("v", Dec(s.version))
    + Row("o", s.origin.username + " " + s.origin.sessionId + " " + s.origin.sessionVersion + " " + s.origin.networkType
               + " " + s.origin.addressType + " " + s.origin.address)
    + Row("s", s.name) + RowIfAny("i", s.info) + RowIfAny("u", s.uri) + Rows("e", s.emails) + Rows("p", s.phones)
  }

  function LaterText(s: Session): (t: string) {
    ConnectionRow(s.connection) + BandwidthRows(s.bandwidths) + TimeRows(s.times) + RowIfAny("z", s.timeZone)
    + KeyRow(s.encryption) + AttributeRows(s.attributes) + MediaRows(s.media)
  }

  lemma HeadPrinted(s: Session)
    ensures ItemsText(HeadItems(s)) == Row("v", Dec(s.version)) + Row("o", OriginText(s.origin)) + Row("s", s.name)
  {
    hide ItemsText, Row, Dec, OriginText, ConcatMap;
    var v, o, n := Item('v', [Num(s.version)]), TextItem('o', OriginText(s.origin)), TextItem('s', s.name);
    assert HeadItems(s) == [v] + [o] + [n];
    TextAppend([v] + [o], [n]);
    TextAppend([v], [o]);
    PartsRow(v);
    ConcatMapSingle(PartText, Num(s.version));
    ItemRow('o', OriginText(s.origin));
    ItemRow('s', s.name);
  }

  lemma LaterPrinted(s: Session)
    ensures ItemsText(LaterItems(s)) == LaterText(s)
  {
    hide ItemsText, ConnectionItems, ConnectionRow, BandwidthItems, BandwidthRows, TimeItems, TimeRows, OptionalItem,
      RowIfAny, EncryptionItems, KeyRow, AttributeItems, AttributeRows, MediaItems, MediaRows;
    var c, b, t := ConnectionItems(s.connection), BandwidthItems(s.bandwidths), TimeItems(s.times);
    var z, k, a, m :=
      OptionalItem('z', s.timeZone), EncryptionItems(s.encryption), AttributeItems(s.attributes), MediaItems(s.media);
    TextAppend(c, b + (t + (z + (k + (a + m)))));
    TextAppend(b, t + (z + (k + (a + m))));
    TextAppend(t, z + (k + (a + m)));
    TextAppend(z, k + (a + m));
    TextAppend(k, a + m);
    TextAppend(a, m);
    ConnectionPrinted(s.connection);
    BandwidthsPrinted(s.bandwidths);
    TimesPrinted(s.times);
    OptionalRow('z', s.timeZone);
    KeyPrinted(s.encryption);
    AttributesPrinted(s.attributes);
    MediaPrinted(s.media);
    Nested(ItemsText(c), ItemsText(b), ItemsText(t), ItemsText(z), ItemsText(k), ItemsText(a), ItemsText(m));
  }

  lemma Nested(a: string, b: string, c: string, d: string, e: string, f: string, g: string)
    ensures a + (b + (c + (d + (e + (f + g))))) == a + b + c + d + e + f + g
  {
    assert e + (f + g) == e + f + g;
    assert d + (e + f + g) == d + e + f + g;
    assert c + (d + e + f + g) == c + d + e + f + g;
    assert b + (c + d + e + f + g) == b + c + d + e + f + g;
    assert a + (b + c + d + e + f + g) == a + b + c + d + e + f + g;
  }

  /** Every description prints these lines, with these letters and in this order. */
  lemma PrintsExactly(s: Session)
    ensures Encoded(s) == EarlyText(s) + LaterText(s)
  {
    hide ItemsText, HeadItems, OptionalItem, RowIfAny, EachItem, Rows, LaterItems, LaterText, Row, Dec;
    LaterItemsAre(s);
    var i, u := OptionalItem('i', s.info), OptionalItem('u', s.uri);
    var e, p := EachItem('e', s.emails), EachItem('p', s.phones);
    var l := LaterItems(s);
    TextAppend(HeadItems(s), i + (u + (e + (p + l))));
    TextAppend(i, u + (e + (p + l)));
    TextAppend(u, e + (p + l));
    TextAppend(e, p + l);
    TextAppend(p, l);
    HeadPrinted(s);
    OptionalRow('i', s.info);
    OptionalRow('u', s.uri);
    EachRow('e', s.emails);
    EachRow('p', s.phones);
    LaterPrinted(s);
    Regrouped(ItemsText(HeadItems(s)), ItemsText(i), ItemsText(u), ItemsText(e), ItemsText(p), ItemsText(l));
    assert OriginText(s.origin) == s.origin.username + " " + s.origin.sessionId + " " + s.origin.sessionVersion + " "
      + s.origin.networkType + " " + s.origin.addressType + " " + s.origin.address;
  }

  lemma Regrouped(h: string, i: string, u: string, e: string, p: string, l: string)
    ensures h + (i + (u + (e + (p + l)))) == h + i + u + e + p + l
  {
    assert e + (p + l) == e + p + l;
    assert u + (e + p + l) == u + e + p + l;
    assert i + (u + e + p + l) == i + u + e + p + l;
    assert h + (i + u + e + p + l) == h + i + u + e + p + l;
  }
}
