/** Every text that parses as a session description: what was parsed prints to a text that parses to the same. */
module SdpReparse {
  import opened Octets
  import opened Text
  import opened Decimal
  import opened Sequences
  import opened Sdp
  import opened SdpRoundTrip

  // ---- Texts a parsed line can hold ----

  /** Not empty, no line feed, no white space at the end. */
  predicate Clean(s: string) {
    s != "" && '\n' !in s && TrailingSpace(s) == 0
  }

  /** An ASCII separator cannot be part of a longer encoded space. */
  lemma TrailingAfter(a: string, c: char, b: string)
    requires c < '\U{80}' && b != ""
    ensures TrailingSpace(a + [c] + b) == TrailingSpace(b)
  {
    var s := a + [c] + b;
    var k, n := |s|, |b|;
    assert s[k - 1] == b[n - 1];
    assert n >= 2 ==> s[k - 2] == b[n - 2];
    assert n == 1 ==> s[k - 2] == c;
    assert n >= 3 ==> s[k - 3] == b[n - 3];
    assert n == 2 ==> s[k - 3] == c;
  }

  lemma CleanJoin(a: string, c: char, b: string)
    requires c < '\U{80}' && c != '\n' && '\n' !in a && Clean(b)
    ensures Clean(a + [c] + b)
  {
    TrailingAfter(a, c, b);
  }

  /** What follows a separator in a clean text is clean, unless it is empty; after a blank it is never empty. */
  lemma CleanAfter(a: string, c: char, b: string)
    requires c < '\U{80}' && Clean(a + [c] + b)
    ensures '\n' !in a && (b != "" ==> Clean(b)) && (c == ' ' ==> b != "")
  {
    var s := a + [c] + b;
    if b == "" {
      assert s[|s| - 1] == c;
    } else {
      TrailingAfter(a, c, b);
    }
    assert forall x :: x in b ==> x in s;
    assert forall x :: x in a ==> x in s;
  }

  lemma {:induction false} CleanSkip(s: string)
    requires Clean(s)
    ensures Clean(SkipBlanks(s))
  {
    if s[0] == ' ' {
      assert s == "" + [' '] + s[1..];
      CleanAfter("", ' ', s[1..]);
      CleanSkip(s[1..]);
    }
  }

  /** One field cut off a clean text at a blank. */
  lemma CleanCut(s: string)
    requires Clean(s) && Cut(s, ' ').found
    ensures '\n' !in Cut(s, ' ').before && Clean(Cut(s, ' ').after)
  {
    var h := Cut(s, ' ');
    CleanAfter(h.before, ' ', h.after);
  }

  lemma WordCut(s: string)
    requires Clean(s) && Cut(SkipBlanks(s), ' ').found
    ensures var h := Cut(SkipBlanks(s), ' '); Word(h.before) && '\n' !in h.before && Clean(h.after)
  {
    CleanSkip(s);
    var t := SkipBlanks(s);
    CleanCut(t);
    var h := Cut(t, ' ');
    SkipStops(s);
    assert t == h.before + [' '] + h.after;
  }

  lemma DecClean(n: int)
    ensures Clean(Dec(n))
  {
    var d := Dec(n);
    assert forall i :: 0 <= i < |d| ==> IsDigit(d[i]) || d[i] == '-';
    PlainEndsTrimmed(d);
  }

  // ---- Single lines ----

  predicate OriginParsed(o: Origin) {
    OriginOk(o) && Clean(OriginText(o))
  }

  lemma OriginOfClean(val: string)
    requires Clean(val) && DecodedOrigin(val).Ok?
    ensures OriginParsed(DecodedOrigin(val).value)
  {
    hide Clean, Cut, SkipBlanks, Word;
    var a := Cut(val, ' ');
    CleanCut(val);
    WordCut(a.after);
    var b := Cut(SkipBlanks(a.after), ' ');
    WordCut(b.after);
    var c := Cut(SkipBlanks(b.after), ' ');
    WordCut(c.after);
    var d := Cut(SkipBlanks(c.after), ' ');
    WordCut(d.after);
    var e := Cut(SkipBlanks(d.after), ' ');
    var o := DecodedOrigin(val).value;
    CleanJoin(e.before, ' ', e.after);
    CleanJoin(d.before, ' ', e.before + [' '] + e.after);
    CleanJoin(c.before, ' ', d.before + [' '] + (e.before + [' '] + e.after));
    CleanJoin(b.before, ' ', c.before + [' '] + (d.before + [' '] + (e.before + [' '] + e.after)));
    CleanJoin(a.before, ' ', b.before + [' '] + (c.before + [' '] + (d.before + [' '] + (e.before + [' '] + e.after))));
    assert OriginText(o)
        == a.before + [' '] + (b.before + [' '] + (c.before + [' ']
          + (d.before + [' '] + (e.before + [' '] + e.after))));
  }

  predicate ConnectionParsed(c: Connection) {
    ConnectionOk(c) && Clean(ConnectionText(c))
  }

  lemma ConnectionOfClean(val: string)
    requires Clean(val) && DecodedConnection(val).Ok?
    ensures ConnectionParsed(DecodedConnection(val).value)
  {
    hide Clean, Cut, SkipBlanks, Word;
    var a := Cut(val, ' ');
    CleanCut(val);
    WordCut(a.after);
    var b := Cut(SkipBlanks(a.after), ' ');
    CleanJoin(b.before, ' ', b.after);
    CleanJoin(a.before, ' ', b.before + [' '] + b.after);
    assert ConnectionText(DecodedConnection(val).value) == a.before + [' '] + (b.before + [' '] + b.after);
  }

  lemma {:induction false} TrimLeftParts(s: string)
    ensures forall x :: x in TrimSpaceLeft(s) ==> x in s
  {
    var n := LeadingSpace(s);
    if n == 0 {
    } else {
      TrimLeftParts(s[n..]);
    }
  }

  lemma LeadingOfPrefix(p: string, s: string)
    requires p <= s && LeadingSpace(s) == 0
    ensures LeadingSpace(p) == 0
  {
    assert forall i :: 0 <= i < |p| ==> p[i] == s[i];
  }

  /** Trimming leaves nothing to trim. */
  lemma TrimSpaceTrims(s: string)
    ensures Trimmed(TrimSpace(s)) && forall x :: x in TrimSpace(s) ==> x in s
  {
    hide LeadingSpace, TrailingSpace;
    var l := TrimSpaceLeft(s);
    TrimLeftParts(s);
    var r := TrimSpaceRight(l);
    LeadingOfPrefix(r, l);
    assert forall x :: x in r ==> x in l;
  }

  predicate BandwidthParsed(b: Bandwidth) {
    BandwidthOk(b) && '\n' !in b.kind
  }

  lemma BandwidthOfClean(val: string)
    requires Clean(val) && DecodedBandwidth(val).Ok?
    ensures BandwidthParsed(DecodedBandwidth(val).value)
  {
    hide Trimmed, TrimSpace, Atoi;
    var a := Cut(val, ':');
    CleanAfter(a.before, ':', a.after);
    TrimSpaceTrims(a.before);
  }

  lemma OffsetsNotEmpty(s: string)
    requires s != "" && DecodedOffsets(s).Ok?
    ensures DecodedOffsets(s).value != []
  {
  }

  lemma RepeatOfClean(val: string)
    requires Clean(val) && DecodedRepeat(val).Ok?
    ensures DecodedRepeat(val).value.offsets != []
  {
    hide Cut, SkipBlanks, Atoi, DecodedOffsets, Word;
    var a := Cut(val, ' ');
    CleanCut(val);
    WordCut(a.after);
    var b := Cut(SkipBlanks(a.after), ' ');
    CleanSkip(b.after);
    OffsetsNotEmpty(SkipBlanks(b.after));
  }

  /** A name and its value as an a= or k= line gives them. */
  predicate TagParsed(key: string, value: string) {
    ':' !in key && '\n' !in key && (value != "" ==> Clean(value))
  }

  lemma TagOfClean(val: string)
    requires Clean(val)
    ensures TagParsed(Cut(val, ':').before, Cut(val, ':').after)
  {
    var a := Cut(val, ':');
    if a.found { CleanAfter(a.before, ':', a.after); }
  }

  /** Such a pair survives printing unless its value is empty and its name is not clean. */
  predicate TagPrintable(key: string, value: string) {
    value != "" || Clean(key)
  }

  lemma TagClean(key: string, value: string)
    requires TagParsed(key, value) && TagPrintable(key, value)
    ensures Clean(Tagged(key, value))
  {
    if value != "" {
      CleanJoin(key, ':', value);
      assert Tagged(key, value) == key + [':'] + value;
    }
  }

  lemma {:induction false} SplitJoins(s: string)
    ensures Join(Split(s)) == s && forall f :: f in Split(s) ==> ' ' !in f
    decreases |s|
  {
    hide Cut;
    var a := Cut(s, ' ');
    if a.found {
      SplitJoins(a.after);
      assert Split(s)[1..] == Split(a.after);
      assert a.before + [' '] + a.after == a.before + " " + a.after;
    }
  }

  /** An m= line as parsed: everything the round trip needs except that the port count is at least one. */
  predicate MediaLineParsed(m: Media) {
    ' ' !in m.kind && '\n' !in m.kind && Word(m.proto) && '\n' !in m.proto && FormatsOk(m.formats)
      && Clean(Join(m.formats))
  }

  lemma MediaOfClean(val: string)
    requires Clean(val) && DecodedMedia(val).Ok?
    ensures MediaLineParsed(DecodedMedia(val).value) && DecodedMedia(val).value == Bare(DecodedMedia(val).value)
  {
    hide Cut, SkipBlanks, Atoi, Word, Split, Join;
    var a := Cut(val, ' ');
    CleanCut(val);
    WordCut(a.after);
    var b := Cut(SkipBlanks(a.after), ' ');
    WordCut(b.after);
    var c := Cut(SkipBlanks(b.after), ' ');
    CleanSkip(c.after);
    var rest := SkipBlanks(c.after);
    assert rest[0] != ' ' by { SkipStops(c.after); }
    SplitJoins(rest);
    FirstFormat(rest);
  }

  lemma SkipStops(s: string)
    ensures SkipBlanks(s) == "" || SkipBlanks(s)[0] != ' '
  {
  }

  lemma FirstFormat(s: string)
    requires s != "" && s[0] != ' '
    ensures Split(s)[0] != ""
  {
    var a := Cut(s, ' ');
    assert a.found ==> s == a.before + [' '] + a.after;
  }

  // ---- Sessions as they are built up ----

  predicate OptClean(s: string) {
    s == "" || Clean(s)
  }

  predicate MediaParsed(m: Media) {
    && MediaLineParsed(m) && OptClean(m.title)
    && (m.connection.Some? ==> ConnectionParsed(m.connection.value))
    && (forall b :: b in m.bandwidths ==> BandwidthParsed(b))
    && (m.encryption.Some? ==> TagParsed(m.encryption.value.scheme, m.encryption.value.key))
    && (forall a :: a in m.attributes ==> TagParsed(a.key, a.value))
  }

  predicate SessionParsed(s: Session) {
    && (s.origin == EMPTY.origin || OriginParsed(s.origin))
    && OptClean(s.name) && OptClean(s.info) && OptClean(s.uri) && OptClean(s.timeZone)
    && (forall e :: e in s.emails ==> Clean(e)) && (forall p :: p in s.phones ==> Clean(p))
    && (s.connection.Some? ==> ConnectionParsed(s.connection.value))
    && (forall b :: b in s.bandwidths ==> BandwidthParsed(b))
    && (forall t :: t in s.times ==> TimeOk(t))
    && (s.encryption.Some? ==> TagParsed(s.encryption.value.scheme, s.encryption.value.key))
    && (forall a :: a in s.attributes ==> TagParsed(a.key, a.value))
    && (forall m :: m in s.media ==> MediaParsed(m))
  }

  lemma TextLineKeeps(s: Session, typ: char, val: string)
    requires SessionParsed(s) && Clean(val) && SessionLine(s, typ, val).Ok?
      && (typ == 's' || typ == 'i' || typ == 'u' || typ == 'z')
    ensures SessionParsed(SessionLine(s, typ, val).value)
  {
    hide Clean, OriginParsed, ConnectionParsed, BandwidthParsed, TagParsed, MediaParsed, TimeOk, OptClean,
      DecodedOrigin, DecodedConnection, DecodedBandwidth, DecodedTime, DecodedRepeat, DecodedEncryption,
      DecodedAttribute;
    assert OptClean(val) by { CleanIsOpt(val); }
  }

  lemma CleanIsOpt(s: string)
    requires Clean(s)
    ensures OptClean(s)
  {
  }

  lemma ContactLineKeeps(s: Session, typ: char, val: string)
    requires SessionParsed(s) && Clean(val) && SessionLine(s, typ, val).Ok? && (typ == 'e' || typ == 'p')
    ensures SessionParsed(SessionLine(s, typ, val).value)
  {
    hide Clean, OriginParsed, ConnectionParsed, BandwidthParsed, TagParsed, MediaParsed, TimeOk, OptClean,
      DecodedOrigin, DecodedConnection, DecodedBandwidth, DecodedTime, DecodedRepeat, DecodedEncryption,
      DecodedAttribute;
  }

  lemma RecordLineKeeps(s: Session, typ: char, val: string)
    requires SessionParsed(s) && Clean(val) && SessionLine(s, typ, val).Ok?
      && (typ == 'o' || typ == 'c' || typ == 'b' || typ == 'k' || typ == 'a')
    ensures SessionParsed(SessionLine(s, typ, val).value)
  {
    hide Clean, OriginParsed, ConnectionParsed, BandwidthParsed, TagParsed, MediaParsed, TimeOk, OptClean,
      DecodedOrigin, DecodedConnection, DecodedBandwidth, DecodedTime, DecodedRepeat, Cut;
    match typ
    case 'o' => OriginOfClean(val);
    case 'c' => ConnectionOfClean(val);
    case 'b' => BandwidthOfClean(val);
    case _ => TagOfClean(val);
  }

  lemma TimeLineKeeps(s: Session, typ: char, val: string)
    requires SessionParsed(s) && Clean(val) && SessionLine(s, typ, val).Ok? && (typ == 't' || typ == 'r')
    ensures SessionParsed(SessionLine(s, typ, val).value)
  {
    hide Clean, OriginParsed, ConnectionParsed, BandwidthParsed, TagParsed, MediaParsed, OptClean,
      DecodedTime, DecodedRepeat;
    if typ == 't' {
      NoRepeatsYet(val);
    } else {
      RepeatOfClean(val);
      RepeatKeeps(s.times, DecodedRepeat(val).value);
    }
  }

  lemma SessionLineKeeps(s: Session, typ: char, val: string)
    requires SessionParsed(s) && Clean(val) && SessionLine(s, typ, val).Ok?
    ensures SessionParsed(SessionLine(s, typ, val).value)
  {
    hide SessionParsed, Clean;
    if typ == 's' || typ == 'i' || typ == 'u' || typ == 'z' { TextLineKeeps(s, typ, val); }
    else if typ == 'e' || typ == 'p' { ContactLineKeeps(s, typ, val); }
    else if typ == 'o' || typ == 'c' || typ == 'b' || typ == 'k' || typ == 'a' { RecordLineKeeps(s, typ, val); }
    else { TimeLineKeeps(s, typ, val); }
  }

  lemma NoRepeatsYet(val: string)
    requires DecodedTime(val).Ok?
    ensures DecodedTime(val).value.repeats == []
  {
  }

  lemma RepeatKeeps(ts: seq<Time>, r: Repeat)
    requires ts != [] && r.offsets != [] && forall t :: t in ts ==> TimeOk(t)
    ensures forall t :: t in WithRepeat(ts, r) ==> TimeOk(t)
  {
    var last := ts[|ts| - 1];
    assert TimeOk(last);
    forall t | t in WithRepeat(ts, r) ensures TimeOk(t) {
      if t !in ts { assert t == last.(repeats := last.repeats + [r]); }
    }
  }

  lemma MediaLineKeeps(m: Media, typ: char, val: string)
    requires MediaParsed(m) && Clean(val) && MediaLine(m, typ, val).Ok?
    ensures MediaParsed(MediaLine(m, typ, val).value)
  {
    hide Clean, ConnectionParsed, BandwidthParsed, TagParsed, DecodedConnection, DecodedBandwidth, Cut, Word,
      FormatsOk, Join;
    match typ
    case 'c' => ConnectionOfClean(val);
    case 'b' => BandwidthOfClean(val);
    case 'k' => TagOfClean(val);
    case 'a' => TagOfClean(val);
    case _ =>
  }

  lemma MediaReplaced(s: Session, m: Media)
    requires SessionParsed(s) && s.media != [] && MediaParsed(m)
    ensures SessionParsed(s.(media := s.media[|s.media| - 1 := m]))
  {
    hide Clean, OriginParsed, ConnectionParsed, BandwidthParsed, TagParsed, MediaParsed, TimeOk;
    var ms := s.media[|s.media| - 1 := m];
    forall x | x in ms ensures MediaParsed(x) {
      if x !in s.media { assert x == m; }
    }
  }

  lemma ApplyKeeps(p: Parse, typ: char, val: string)
    requires SessionParsed(p.session) && Clean(val) && Apply(p, typ, val).Ok?
    ensures SessionParsed(Apply(p, typ, val).value.session)
  {
    hide Clean, OriginParsed, ConnectionParsed, BandwidthParsed, TagParsed, MediaParsed, TimeOk, SessionLine, MediaLine,
      DecodedMedia, Atoi, TrimSpace;
    var s := p.session;
    if typ == 'm' {
      MediaOfClean(val);
      assert MediaParsed(DecodedMedia(val).value) by { BareParsed(DecodedMedia(val).value); }
    } else if typ == 'v' {
    } else if s.media != [] {
      var last := s.media[|s.media| - 1];
      assert last in s.media;
      MediaLineKeeps(last, typ, val);
      MediaReplaced(s, MediaLine(last, typ, val).value);
    } else {
      SessionLineKeeps(s, typ, val);
    }
  }

  lemma BareParsed(m: Media)
    requires MediaLineParsed(m) && m == Bare(m)
    ensures MediaParsed(m)
  {
  }

  /** The text of a line handed to the line parsers. */
  lemma LineClean(s: string)
    requires s != "" && |TrimSpace(Line(s).0)| >= 3 && TrimSpace(Line(s).0)[1] == '='
    ensures Clean(TrimSpace(Line(s).0)[2..])
  {
    hide TrailingSpace, TrimSpaceLeft, TrimSpaceRight;
    var line := TrimSpace(Line(s).0);
    TrimmedLineHasNoFeed(s);
    assert TrailingSpace(line) == 0;
    assert line == [line[0]] + [line[1]] + line[2..];
    TrailingAfter([line[0]], line[1], line[2..]);
    assert forall x :: x in line[2..] ==> x in line;
  }

  lemma TrimmedLineHasNoFeed(s: string)
    requires s != ""
    ensures '\n' !in TrimSpace(Line(s).0)
  {
    hide TrimSpaceLeft, TrimSpaceRight, LeadingSpace;
    var n := RawLine(s);
    var raw := s[..n];
    assert '\n' !in s[..IndexOf(s, '\n')];
    var line := Line(s).0;
    assert forall i :: 0 <= i < |line| - 1 ==> line[i] == s[i];
    assert forall i :: 0 <= i < |line| - 1 ==> line[i] in s[..IndexOf(s, '\n')];
    var l := TrimSpaceLeft(line);
    LeftIsSuffix(line);
    var t := TrimSpaceRight(l);
    assert t == "" || t[|t| - 1] != '\n' by { assert TrailingSpace(t) == 0; }
    forall i | 0 <= i < |t| ensures t[i] != '\n' {
      assert t[i] == l[i] == line[|line| - |l| + i];
    }
  }

  lemma {:induction false} LeftIsSuffix(s: string)
    ensures |TrimSpaceLeft(s)| <= |s| && s[|s| - |TrimSpaceLeft(s)|..] == TrimSpaceLeft(s)
  {
    var n := LeadingSpace(s);
    if n == 0 {
    } else {
      LeftIsSuffix(s[n..]);
    }
  }

  lemma {:induction false} LinesKeep(s: string, p: Parse)
    requires SessionParsed(p.session) && DecodedLines(s, p).Ok?
    ensures SessionParsed(DecodedLines(s, p).value.session)
    decreases |s|
  {
    hide SessionParsed, Apply, Line, TrimSpace;
    if s == "" {
    } else {
      var (raw, rest) := Line(s);
      var line := TrimSpace(raw);
      if line == "" {
        LinesKeep(rest, p);
      } else {
        LineClean(s);
        ApplyKeeps(p, line[0], line[2..]);
        LinesKeep(rest, Apply(p, line[0], line[2..]).value);
      }
    }
  }

  /** What a successful parse yields. */
  predicate Parsed(s: Session) {
    && SessionParsed(s) && s.version == 0 && OriginParsed(s.origin)
    && s.origin.username != "" && s.name != "" && s.times != []
  }

  lemma ParsedIs(t: string)
    requires Decoded(t).Ok?
    ensures Parsed(Decoded(t).value)
  {
    hide SessionParsed, OriginParsed, DecodedLines;
    assert SessionParsed(EMPTY) by { EmptyParsed(); }
    LinesKeep(t, Parse(EMPTY, false));
    OriginSet(Decoded(t).value);
  }

  lemma EmptyParsed()
    ensures SessionParsed(EMPTY)
  {
  }

  lemma OriginSet(s: Session)
    requires SessionParsed(s) && s.origin.username != ""
    ensures OriginParsed(s.origin)
  {
  }

  // ---- Printing it again ----

  predicate TagsPrintable(xs: seq<Attribute>, k: Option<EncryptionKey>) {
    && (forall a :: a in xs ==> TagPrintable(a.key, a.value))
    && (k.Some? ==> TagPrintable(k.value.scheme, k.value.key))
  }

  predicate AllTagsPrintable(s: Session) {
    TagsPrintable(s.attributes, s.encryption) && forall m :: m in s.media ==> TagsPrintable(m.attributes, m.encryption)
  }

  /** A port count below one is not printed, and reads as one. */
  function NormalMedia(m: Media): (r: Media) {
    if m.portCount >= 1 then m else m.(portCount := 1)
  }

  function NormalMedias(ms: seq<Media>): (r: seq<Media>)
    ensures |r| == |ms|
  {
    seq(|ms|, i requires 0 <= i < |ms| => NormalMedia(ms[i]))
  }

  function Normal(s: Session): (r: Session) {
    s.(media := NormalMedias(s.media))
  }

  lemma {:induction false} SamePrint(ms: seq<Media>)
    ensures MediaItems(NormalMedias(ms)) == MediaItems(ms)
    decreases |ms|
  {
    hide OptionalItem, ConnectionItems, BandwidthItems, EncryptionItems, AttributeItems;
    if ms == [] {
    } else {
      assert NormalMedias(ms)[1..] == NormalMedias(ms[1..]);
      SamePrint(ms[1..]);
    }
  }

  lemma NormalSamePrint(s: Session)
    ensures Items(Normal(s)) == Items(s)
  {
    hide MediaItems, OptionalItem, EachItem, ConnectionItems, BandwidthItems, TimeItems, EncryptionItems,
      AttributeItems;
    SamePrint(s.media);
  }

  lemma TextItemOk(typ: char, s: string)
    requires 'a' <= typ <= 'z' && Clean(s)
    ensures ItemOk(TextItem(typ, s))
  {
    hide TrailingSpace, Val;
    ValOfText(typ, s);
    TrailingAfter([typ], '=', s);
    assert LineText(TextItem(typ, s)) == [typ] + ['='] + s;
  }

  lemma {:induction false} EachOk(typ: char, ss: seq<string>, i: Item)
    requires 'a' <= typ <= 'z' && (forall s :: s in ss ==> Clean(s)) && i in EachItem(typ, ss)
    ensures ItemOk(i)
  {
    hide Clean, ItemOk;
    if i == TextItem(typ, ss[0]) { TextItemOk(typ, ss[0]); } else { EachOk(typ, ss[1..], i); }
  }

  /** A line that ends in a number. */
  lemma NumberEndOk(typ: char, front: string, n: int, i: Item)
    requires 'a' <= typ <= 'z' && '\n' !in front && i.typ == typ && Val(i) == front + Dec(n)
    ensures ItemOk(i)
  {
    hide Dec, Val;
    DecClean(n);
    DecEnd(front, n);
    assert LineText(i) == [typ] + ['='] + Val(i);
    TrailingAfter([typ], '=', Val(i));
  }

  lemma DecEnd(front: string, n: int)
    ensures TrailingSpace(front + Dec(n)) == 0
  {
    var d := Dec(n);
    assert (front + d)[|front + d| - 1] == d[|d| - 1];
    assert forall i :: 0 <= i < |d| ==> IsDigit(d[i]) || d[i] == '-';
  }

  lemma BandwidthItemOk(b: Bandwidth)
    requires BandwidthParsed(b)
    ensures ItemOk(BandwidthItem(b))
  {
    hide Dec, ItemOk, ConcatMap;
    ConcatMapTwo(PartText, Lit(b.kind + ":"), Num(b.value));
    NumberEndOk('b', b.kind + ":", b.value, BandwidthItem(b));
  }

  lemma {:induction false} BandwidthItemsOk(bs: seq<Bandwidth>, i: Item)
    requires (forall b :: b in bs ==> BandwidthParsed(b)) && i in BandwidthItems(bs)
    ensures ItemOk(i)
  {
    hide BandwidthParsed, ItemOk;
    if i == BandwidthItem(bs[0]) { BandwidthItemOk(bs[0]); } else { BandwidthItemsOk(bs[1..], i); }
  }

  lemma TimeItemOk(t: Time)
    ensures ItemOk(TimeItem(t))
  {
    hide Dec, ItemOk, ConcatMap;
    ThreeParts(Num(t.start), Lit(" "), Num(t.stop));
    DecClean(t.start);
    NumberEndOk('t', Dec(t.start) + " ", t.stop, TimeItem(t));
  }

  /** The offsets of a repeat line up to the last number. */
  function OffsetsFront(os: seq<int64>): (s: string)
    requires os != []
  {
    if |os| == 1 then " " else " " + Dec(os[0]) + OffsetsFront(os[1..])
  }

  lemma {:induction false} OffsetsEnd(os: seq<int64>)
    requires os != []
    ensures '\n' !in OffsetsFront(os) && OffsetsText(os) == OffsetsFront(os) + Dec(os[|os| - 1])
    decreases |os|
  {
    hide Dec, OffsetsText;
    OffsetsTextStep(os);
    DecClean(os[0]);
    if |os| == 1 {
      assert os[1..] == [];
      OffsetsTextNone();
      assert Dec(os[0]) + "" == Dec(os[0]);
    } else {
      OffsetsEnd(os[1..]);
      assert os[1..][|os[1..]| - 1] == os[|os| - 1];
      Reassociate(" ", Dec(os[0]), OffsetsFront(os[1..]), Dec(os[|os| - 1]));
    }
  }

  lemma Reassociate(a: string, b: string, c: string, d: string)
    ensures a + (b + (c + d)) == a + b + c + d
    ensures '\n' !in a && '\n' !in b && '\n' !in c ==> '\n' !in a + b + c
  {
  }

  lemma RepeatItemOk(r: Repeat)
    requires r.offsets != []
    ensures ItemOk(RepeatItem(r))
  {
    hide Dec, ItemOk, OffsetsText, ConcatMap;
    RepeatVal(r);
    OffsetsTextStep(r.offsets);
    OffsetsEnd(r.offsets);
    var last := r.offsets[|r.offsets| - 1];
    var front := OffsetsFront(r.offsets);
    DecClean(r.interval);
    DecClean(r.duration);
    var whole := Dec(r.interval) + " " + Dec(r.duration) + front;
    assert Val(RepeatItem(r)) == Dec(r.interval) + " " + Dec(r.duration) + OffsetsText(r.offsets);
    assert Val(RepeatItem(r)) == whole + Dec(last);
    NumberEndOk('r', whole, last, RepeatItem(r));
  }

  lemma {:induction false} RepeatItemsOk(rs: seq<Repeat>, i: Item)
    requires (forall r :: r in rs ==> r.offsets != []) && i in RepeatItems(rs)
    ensures ItemOk(i)
  {
    hide ItemOk, RepeatItem;
    if i == RepeatItem(rs[0]) { RepeatItemOk(rs[0]); } else { RepeatItemsOk(rs[1..], i); }
  }

  lemma {:induction false} TimeItemsOk(ts: seq<Time>, i: Item)
    requires (forall t :: t in ts ==> TimeOk(t)) && i in TimeItems(ts)
    ensures ItemOk(i)
  {
    hide ItemOk, TimeItem, RepeatItems;
    if i == TimeItem(ts[0]) {
      TimeItemOk(ts[0]);
    } else if i in RepeatItems(ts[0].repeats) {
      assert TimeOk(ts[0]);
      RepeatItemsOk(ts[0].repeats, i);
    } else {
      TimeItemsOk(ts[1..], i);
    }
  }

  /** A line that is read as one line, and if it is an a= or k= line, as one with a printable name. */
  predicate ReadsPrintable(i: Item) {
    && 'a' <= i.typ <= 'z' && '\n' !in LineText(i)
    && (i.typ == 'a' || i.typ == 'k' ==>
          var v := TrimSpace(LineText(i));
          |v| >= 3 ==> var c := Cut(v[2..], ':'); TagPrintable(c.before, c.after))
  }

  /** Readable in that sense, and where names are printable, readable as it is. */
  predicate ItemFine(i: Item, printable: bool) {
    ReadsPrintable(i) && (printable ==> ItemOk(i))
  }

  lemma OkIsFine(i: Item, printable: bool)
    requires ItemOk(i) && i.typ != 'a' && i.typ != 'k'
    ensures ItemFine(i, printable)
  {
    hide Val, TrailingSpace, TrimSpace;
  }

  lemma TagReadsPrintable(typ: char, key: string, value: string)
    requires (typ == 'a' || typ == 'k') && TagParsed(key, value)
    ensures ReadsPrintable(TextItem(typ, Tagged(key, value)))
  {
    hide Cut, TrailingSpace, TrimSpaceRight, TrimSpaceLeft, Val;
    var text := Tagged(key, value);
    var i := TextItem(typ, text);
    ValOfText(typ, text);
    var line := LineText(i);
    assert line == [typ] + ['='] + text;
    assert LeadingSpace(line) == 0;
    var v := TrimSpace(line);
    assert v == TrimSpaceRight(line) && v <= line && TrailingSpace(v) == 0;
    if |v| >= 3 {
      var w := v[2..];
      assert v == [typ] + ['='] + w;
      TrailingAfter([typ], '=', w);
      if value != "" {
        TagClean(key, value);
        TrailingAfter([typ], '=', text);
        assert v == line && w == text;
        TaggedReadsBack(key, value);
      } else {
        assert w <= text;
        assert forall x :: x in w ==> x in key;
        CutNone(w, ':');
      }
    }
    assert '\n' !in line;
  }

  lemma TagItemFine(typ: char, key: string, value: string, printable: bool)
    requires (typ == 'a' || typ == 'k') && TagParsed(key, value) && (printable ==> TagPrintable(key, value))
    ensures ItemFine(TextItem(typ, Tagged(key, value)), printable)
  {
    hide ItemOk, ReadsPrintable, Clean;
    TagReadsPrintable(typ, key, value);
    if printable {
      TagClean(key, value);
      TextItemOk(typ, Tagged(key, value));
    }
  }

  lemma {:induction false} AttributeItemsOk(xs: seq<Attribute>, i: Item, printable: bool)
    requires forall a :: a in xs ==> TagParsed(a.key, a.value) && (printable ==> TagPrintable(a.key, a.value))
    requires i in AttributeItems(xs)
    ensures ItemFine(i, printable)
  {
    hide ItemFine, TagParsed, TagPrintable, Tagged;
    if i == TextItem('a', Tagged(xs[0].key, xs[0].value)) {
      TagItemFine('a', xs[0].key, xs[0].value, printable);
    } else {
      AttributeItemsOk(xs[1..], i, printable);
    }
  }

  lemma EncryptionItemsOk(k: Option<EncryptionKey>, i: Item, printable: bool)
    requires k.Some? ==>
      TagParsed(k.value.scheme, k.value.key) && (printable ==> TagPrintable(k.value.scheme, k.value.key))
    requires i in EncryptionItems(k)
    ensures ItemFine(i, printable)
  {
    hide ItemFine, TagParsed, TagPrintable, Tagged;
    TagItemFine('k', k.value.scheme, k.value.key, printable);
  }

  lemma ConnectionItemsOk(c: Option<Connection>, i: Item)
    requires (c.Some? ==> ConnectionParsed(c.value)) && i in ConnectionItems(c)
    ensures ItemOk(i)
  {
    hide ItemOk, Clean;
    TextItemOk('c', ConnectionText(c.value));
  }

  lemma MediaItemOk(m: Media)
    requires MediaLineParsed(m)
    ensures ItemOk(MediaItem(m))
  {
    hide Dec, Val, PortText, Join, MediaItem, TrailingSpace, Word, FormatsOk;
    MediaVal(m);
    PortNoFeed(m);
    var fs := Join(m.formats);
    CleanJoin(m.proto, ' ', fs);
    CleanJoin(PortText(m), ' ', m.proto + [' '] + fs);
    CleanJoin(m.kind, ' ', PortText(m) + [' '] + (m.proto + [' '] + fs));
    assert Val(MediaItem(m)) == m.kind + [' '] + (PortText(m) + [' '] + (m.proto + [' '] + fs));
    assert MediaItem(m).typ == 'm' by { MediaItemTyp(m); }
    TrailingAfter(['m'], '=', Val(MediaItem(m)));
    assert LineText(MediaItem(m)) == ['m'] + ['='] + Val(MediaItem(m));
  }

  lemma PortNoFeed(m: Media)
    ensures '\n' !in PortText(m)
  {
    hide Dec;
    DecClean(m.port);
    DecClean(m.portCount);
  }

  lemma MediaLinesOk(m: Media, i: Item, printable: bool)
    requires MediaParsed(m) && (printable ==> TagsPrintable(m.attributes, m.encryption)) && i in MediaLines(m)
    ensures ItemFine(i, printable)
  {
    hide ItemFine, ItemOk, Clean, ConnectionParsed, BandwidthParsed, TagParsed, TagPrintable, MediaLineParsed,
      MediaItem, ConnectionItems, BandwidthItems, EncryptionItems, AttributeItems;
    if i in EncryptionItems(m.encryption) {
      EncryptionItemsOk(m.encryption, i, printable);
    } else if i in AttributeItems(m.attributes) {
      AttributeItemsOk(m.attributes, i, printable);
    } else {
      PlainMediaLinesOk(m, i);
      OkIsFine(i, printable);
    }
  }

  lemma PlainMediaLinesOk(m: Media, i: Item)
    requires MediaParsed(m) && i in MediaLines(m)
    requires i !in EncryptionItems(m.encryption) && i !in AttributeItems(m.attributes)
    ensures ItemOk(i) && i.typ != 'a' && i.typ != 'k'
  {
    hide ItemOk, Clean, ConnectionParsed, BandwidthParsed, TagParsed, MediaLineParsed,
      MediaItem, BandwidthItems, EncryptionItems, AttributeItems;
    if i == MediaItem(m) { MediaItemOk(m); MediaItemTyp(m); }
    else if i in OptionalItem('i', m.title) { TextItemOk('i', m.title); }
    else if i in ConnectionItems(m.connection) { ConnectionItemsOk(m.connection, i); }
    else { BandwidthItemsOk(m.bandwidths, i); BandwidthItemsTyp(m.bandwidths, i); }
  }

  lemma {:induction false} BandwidthItemsTyp(bs: seq<Bandwidth>, i: Item)
    requires i in BandwidthItems(bs)
    ensures i.typ == 'b'
  {
    if i != BandwidthItem(bs[0]) { BandwidthItemsTyp(bs[1..], i); }
  }

  lemma {:induction false} MediaItemsOk(ms: seq<Media>, i: Item, printable: bool)
    requires forall m :: m in ms ==> MediaParsed(m) && (printable ==> TagsPrintable(m.attributes, m.encryption))
    requires i in MediaItems(ms)
    ensures ItemFine(i, printable)
  {
    hide ItemFine, MediaParsed, TagsPrintable, MediaLines;
    if i in MediaLines(ms[0]) { MediaLinesOk(ms[0], i, printable); } else { MediaItemsOk(ms[1..], i, printable); }
  }

  lemma HeadItemsOk(s: Session, i: Item)
    requires Clean(OriginText(s.origin)) && Clean(s.name) && i in HeadItems(s)
    ensures ItemOk(i)
  {
    hide ItemOk, Clean, OriginText, Dec, ConcatMap;
    var v := Item('v', [Num(s.version)]);
    if i == v {
      ConcatMapSingle(PartText, Num(s.version));
      assert "" + Dec(s.version) == Dec(s.version);
      NumberEndOk('v', "", s.version, v);
    } else if i == TextItem('o', OriginText(s.origin)) {
      TextItemOk('o', OriginText(s.origin));
    } else {
      TextItemOk('s', s.name);
    }
  }

  lemma {:induction false} TimeItemsTyp(ts: seq<Time>, i: Item)
    requires i in TimeItems(ts)
    ensures i.typ == 't' || i.typ == 'r'
  {
    if i in RepeatItems(ts[0].repeats) { RepeatItemsTyp(ts[0].repeats, i); }
    else if i != TimeItem(ts[0]) { TimeItemsTyp(ts[1..], i); }
  }

  lemma {:induction false} RepeatItemsTyp(rs: seq<Repeat>, i: Item)
    requires i in RepeatItems(rs)
    ensures i.typ == 'r'
  {
    if i != RepeatItem(rs[0]) { RepeatItemsTyp(rs[1..], i); }
  }

  lemma {:induction false} EachTyp(typ: char, ss: seq<string>, i: Item)
    requires i in EachItem(typ, ss)
    ensures i.typ == typ
  {
    if i != TextItem(typ, ss[0]) { EachTyp(typ, ss[1..], i); }
  }

  lemma PlainLaterOk(s: Session, i: Item)
    requires Parsed(s)
    requires || i in ConnectionItems(s.connection) || i in BandwidthItems(s.bandwidths) || i in TimeItems(s.times)
             || i in OptionalItem('z', s.timeZone)
    ensures ItemOk(i) && i.typ != 'a' && i.typ != 'k'
  {
    hide ItemOk, Clean, OriginParsed, ConnectionParsed, BandwidthParsed, TagParsed, MediaParsed, TimeOk,
      BandwidthItems, TimeItems;
    if i in ConnectionItems(s.connection) { ConnectionItemsOk(s.connection, i); }
    else if i in BandwidthItems(s.bandwidths) { BandwidthItemsOk(s.bandwidths, i); BandwidthItemsTyp(s.bandwidths, i); }
    else if i in TimeItems(s.times) { TimeItemsOk(s.times, i); TimeItemsTyp(s.times, i); }
    else { TextItemOk('z', s.timeZone); }
  }

  lemma LaterItemsOk(s: Session, i: Item, printable: bool)
    requires Parsed(s) && (printable ==> AllTagsPrintable(s)) && i in LaterItems(s)
    ensures ItemFine(i, printable)
  {
    hide ItemFine, ItemOk, Clean, OriginParsed, ConnectionParsed, BandwidthParsed, TagParsed, TagPrintable,
      MediaParsed, TimeOk, ConnectionItems, BandwidthItems, TimeItems, EncryptionItems, AttributeItems, MediaItems,
      OptionalItem;
    if i in EncryptionItems(s.encryption) { EncryptionItemsOk(s.encryption, i, printable); }
    else if i in AttributeItems(s.attributes) { AttributeItemsOk(s.attributes, i, printable); }
    else if i in MediaItems(s.media) { MediaItemsOk(s.media, i, printable); }
    else {
      PlainLaterOk(s, i);
      OkIsFine(i, printable);
    }
  }

  lemma PlainEarlyOk(s: Session, i: Item)
    requires Parsed(s)
    requires || i in HeadItems(s) || i in OptionalItem('i', s.info) || i in OptionalItem('u', s.uri)
             || i in EachItem('e', s.emails) || i in EachItem('p', s.phones)
    ensures ItemOk(i) && i.typ != 'a' && i.typ != 'k'
  {
    hide ItemOk, Clean, ConnectionParsed, BandwidthParsed, TagParsed, MediaParsed, TimeOk, EachItem, OriginText,
      OriginOk;
    if i in HeadItems(s) { HeadItemsOk(s, i); }
    else if i in OptionalItem('i', s.info) { TextItemOk('i', s.info); }
    else if i in OptionalItem('u', s.uri) { TextItemOk('u', s.uri); }
    else if i in EachItem('e', s.emails) { EachOk('e', s.emails, i); EachTyp('e', s.emails, i); }
    else { EachOk('p', s.phones, i); EachTyp('p', s.phones, i); }
  }

  lemma ItemsOk(s: Session, i: Item, printable: bool)
    requires Parsed(s) && (printable ==> AllTagsPrintable(s)) && i in Items(s)
    ensures ItemFine(i, printable)
  {
    hide ItemFine, ItemOk, Parsed, AllTagsPrintable, HeadItems, OptionalItem, EachItem, LaterItems;
    LaterItemsAre(s);
    if i in LaterItems(s) {
      LaterItemsOk(s, i, printable);
    } else {
      PlainEarlyOk(s, i);
      OkIsFine(i, printable);
    }
  }

  lemma NormalMediaOk(m: Media)
    requires MediaParsed(m)
    ensures MediaOk(NormalMedia(m))
  {
    hide Clean, Word, FormatsOk, Join, ConnectionText;
  }

  lemma NormalFieldsOk(s: Session)
    requires Parsed(s)
    ensures FieldsOk(Normal(s))
  {
    hide Clean, TimeOk, MediaParsed, MediaOk, OriginText, ConnectionText, OriginOk, ConnectionOk, BandwidthOk;
    forall m | m in Normal(s).media ensures MediaOk(m) {
      var k :| 0 <= k < |s.media| && Normal(s).media[k] == m;
      assert s.media[k] in s.media;
      NormalMediaOk(s.media[k]);
    }
  }

  lemma NormalWellFormed(s: Session)
    requires Parsed(s) && AllTagsPrintable(s)
    ensures WellFormed(Normal(s))
  {
    hide Parsed, AllTagsPrintable, ItemOk, FieldsOk, Items;
    NormalFieldsOk(s);
    NormalSamePrint(s);
    forall i | i in Items(Normal(s)) ensures ItemOk(i) {
      ItemsOk(s, i, true);
    }
  }

  predicate PortCountsPrintable(s: Session) {
    forall m :: m in s.media ==> m.portCount >= 1
  }

  lemma NormalFixed(s: Session)
    ensures Normal(s) == s <==> PortCountsPrintable(s)
  {
    if PortCountsPrintable(s) {
      assert NormalMedias(s.media) == s.media;
    } else {
      var m :| m in s.media && m.portCount < 1;
      var k :| 0 <= k < |s.media| && s.media[k] == m;
      assert NormalMedias(s.media)[k].portCount == 1;
    }
  }

  // ---- Reading a printed description ----

  lemma ApplyKeepsPrintable(p: Parse, typ: char, val: string)
    requires AllTagsPrintable(p.session) && Apply(p, typ, val).Ok?
    requires typ == 'a' || typ == 'k' ==> var c := Cut(val, ':'); TagPrintable(c.before, c.after)
    ensures AllTagsPrintable(Apply(p, typ, val).value.session)
  {
    hide TagPrintable, Cut, DecodedOrigin, DecodedConnection, DecodedBandwidth, DecodedTime, DecodedRepeat, Atoi,
      TrimSpace;
    var s := p.session;
    var r := Apply(p, typ, val).value.session;
    if typ == 'm' {
      assert DecodedMedia(val).Ok? && DecodedMedia(val).value.attributes == []
        && DecodedMedia(val).value.encryption == None
        by { NoTagsYet(val); }
    } else if typ != 'v' && s.media != [] {
      var last := |s.media| - 1;
      assert s.media[last] in s.media;
      MediaLinePrintable(s.media[last], typ, val);
      forall m | m in r.media ensures TagsPrintable(m.attributes, m.encryption) {
        if m !in s.media { assert m == MediaLine(s.media[last], typ, val).value; }
      }
    }
  }

  lemma NoTagsYet(val: string)
    requires DecodedMedia(val).Ok?
    ensures DecodedMedia(val).value.attributes == [] && DecodedMedia(val).value.encryption == None
  {
    hide Cut, Atoi, SkipBlanks, Split;
  }

  lemma MediaLinePrintable(m: Media, typ: char, val: string)
    requires TagsPrintable(m.attributes, m.encryption) && MediaLine(m, typ, val).Ok?
    requires typ == 'a' || typ == 'k' ==> var c := Cut(val, ':'); TagPrintable(c.before, c.after)
    ensures var n := MediaLine(m, typ, val).value; TagsPrintable(n.attributes, n.encryption)
  {
    hide TagPrintable, Cut, DecodedConnection, DecodedBandwidth;
  }

  lemma FirstOfTrimmed(i: Item)
    requires 'a' <= i.typ <= 'z' && TrimSpace(LineText(i)) != ""
    ensures TrimSpace(LineText(i))[0] == i.typ
  {
    hide TrimSpaceRight, Val;
    assert LeadingSpace(LineText(i)) == 0;
  }

  /** Lines that read as printable leave only printable names behind. */
  lemma {:induction false} ReadKeepsPrintable(items: seq<Item>, p: Parse)
    requires (forall i :: i in items ==> ReadsPrintable(i)) && AllTagsPrintable(p.session)
    requires DecodedLines(ItemsText(items), p).Ok?
    ensures AllTagsPrintable(DecodedLines(ItemsText(items), p).value.session)
    decreases |items|
  {
    hide AllTagsPrintable, Apply, Line, TrimSpace, LineText, TagPrintable, Cut;
    if items == [] {
    } else {
      var i := items[0];
      assert ReadsPrintable(i);
      var rest := ItemsText(items[1..]);
      assert ItemsText(items) == LineText(i) + CRLF + rest;
      LineReadsBack(LineText(i), rest);
      var line := TrimSpace(LineText(i));
      if line == "" {
        ReadKeepsPrintable(items[1..], p);
      } else {
        FirstOfTrimmed(i);
        ApplyKeepsPrintable(p, line[0], line[2..]);
        ReadKeepsPrintable(items[1..], Apply(p, line[0], line[2..]).value);
      }
    }
  }

  /** A description that reads back has printable names. */
  lemma ReadsBackPrintable(s: Session)
    requires Decoded(Encoded(s)) == Ok(s)
    ensures Parsed(s) && AllTagsPrintable(s)
  {
    hide Parsed, AllTagsPrintable, ReadsPrintable, Items, DecodedLines;
    ParsedIs(Encoded(s));
    forall i | i in Items(s) ensures ReadsPrintable(i) {
      ItemsOk(s, i, false);
    }
    assert AllTagsPrintable(EMPTY) by { EmptyPrintable(); }
    ReadKeepsPrintable(Items(s), Parse(EMPTY, false));
  }

  lemma EmptyPrintable()
    ensures AllTagsPrintable(EMPTY)
  {
  }

  lemma PrintedReadsAsNormal(s: Session)
    requires Parsed(s) && AllTagsPrintable(s)
    ensures Decoded(Encoded(s)) == Ok(Normal(s))
  {
    hide Decoded, Parsed, AllTagsPrintable, WellFormed, Items, Normal;
    NormalWellFormed(s);
    NormalSamePrint(s);
    RoundTrip(Normal(s));
  }

  /** The round trip, exactly: a description reads back from its printed text if and only if it is well-formed. */
  lemma RoundTripExactly(s: Session)
    ensures Decoded(Encoded(s)) == Ok(s) <==> WellFormed(s)
  {
    hide Decoded, Encoded, Parsed, AllTagsPrintable, WellFormed, Normal;
    if WellFormed(s) {
      RoundTrip(s);
    }
    if Decoded(Encoded(s)) == Ok(s) {
      ReadsBackPrintable(s);
      PrintedReadsAsNormal(s);
      NormalWellFormed(s);
    }
  }

  /**
    * Whatever text a description was parsed from, printing and parsing it again gives the same description if and only
    * if no empty-valued attribute or key has an unprintable name and every port count is at least one.
    */
  lemma ParsePrintParse(t: string)
    requires Decoded(t).Ok?
    ensures var s := Decoded(t).value;
      Decoded(Encoded(s)) == Ok(s) <==> AllTagsPrintable(s) && PortCountsPrintable(s)
  {
    hide Decoded, Parsed, AllTagsPrintable, Normal, PortCountsPrintable;
    var s := Decoded(t).value;
    ParsedIs(t);
    NormalFixed(s);
    if AllTagsPrintable(s) { PrintedReadsAsNormal(s); }
    if Decoded(Encoded(s)) == Ok(s) { ReadsBackPrintable(s); }
  }

  // ---- Descriptions that do not read back ----

  /** A well-formed description with one more line after it. */
  lemma OneMoreLine(s: Session, i: Item, q: Session)
    requires WellFormed(s) && ItemOk(i) && Apply(Parse(s, true), i.typ, Val(i)) == Ok(Parse(q, true))
    requires q.version == 0 && q.origin == s.origin && q.name == s.name && q.times == s.times
    ensures Decoded(Encoded(s) + ItemText(i)) == Ok(q)
  {
    hide Apply, Val, Items, Run, ItemOk, DecodedLines, OriginOk, ConnectionOk, BandwidthOk, TimeOk, KeyedOk, MediaOk,
      ItemText, ConcatMap;
    EarlyRun(s);
    LaterRun(s);
    RunThen(Parse(EMPTY, false), Items(s), Parse(s, true), [i]);
    assert [i] + [] == [i];
    RunOne(Parse(s, true), i, Parse(q, true), []);
    RunNone(Parse(q, true));
    ConcatMapAppend(ItemText, Items(s), [i]);
    ConcatMapSingle(ItemText, i);
    LinesReadBack(Items(s) + [i], Parse(EMPTY, false));
    assert Encoded(s) != "" by { NotEmpty(s); }
  }

  /** An attribute line without name and value parses, to a description whose printed text does not. */
  lemma EmptyTagWitness(s: Session)
    requires WellFormed(s) && s.media == []
    ensures var q := s.(attributes := s.attributes + [Attribute("", "")]);
      Decoded(Encoded(s) + "a=:" + CRLF) == Ok(q) && Decoded(Encoded(q)) != Ok(q)
  {
    hide Decoded, Encoded, WellFormed, Val, Cut;
    var i := TextItem('a', ":");
    var q := s.(attributes := s.attributes + [Attribute("", "")]);
    ValOfText('a', ":");
    assert DecodedAttribute(":") == Attribute("", "") by {
      CutAt("", ':', "");
      assert "" + [':'] + "" == ":";
    }
    assert ItemOk(i) by { assert Clean(":"); TextItemOk('a', ":"); }
    assert s.version == 0 && !AllTagsPrintable(q) by { LastTag(s, q); }
    OneMoreLine(s, i, q);
    assert Encoded(s) + ItemText(i) == Encoded(s) + "a=:" + CRLF;
    ParsePrintParse(Encoded(s) + "a=:" + CRLF);
  }

  lemma LastTag(s: Session, q: Session)
    requires WellFormed(s) && q.attributes == s.attributes + [Attribute("", "")]
    ensures s.version == 0 && !AllTagsPrintable(q)
  {
    hide Items, OriginOk, ConnectionOk, BandwidthOk, TimeOk, KeyedOk, MediaOk, ItemOk;
    assert Attribute("", "") in q.attributes && !TagPrintable("", "");
  }

  function Unusual(c: int64): (m: Media) {
    Media("audio", 9, c, "RTP/AVP", ["0"], "", None, [], None, [])
  }

  lemma UnusualReads(c: int64)
    ensures DecodedMedia("audio 9/" + Dec(c) + " RTP/AVP 0") == Ok(Unusual(c))
  {
    hide Cut, Atoi, Dec, SkipBlanks, Split;
    var port := "9/" + Dec(c);
    DecWord(c);
    assert Word(port) && Word("RTP/AVP") && Word("0");
    assert "audio 9/" + Dec(c) + " RTP/AVP 0" == "audio" + " " + (port + " " + ("RTP/AVP" + " " + "0"));
    CutFirst("audio", port + " " + ("RTP/AVP" + " " + "0"));
    CutWord(port, "RTP/AVP" + " " + "0");
    CutWord("RTP/AVP", "0");
    SkipNothing("0");
    assert Split("0") == ["0"] by { JoinSplits(["0"]); }
    assert port == "9" + ['/'] + Dec(c);
    CutAt("9", '/', Dec(c));
    DecReadsBack(c);
    assert Dec(9) == "9" by { Nine(); }
    DecReadsBack(9);
  }

  lemma Nine()
    ensures Dec(9) == "9"
  {
  }

  lemma UnusualLineOk(c: int64)
    ensures Clean("audio 9/" + Dec(c) + " RTP/AVP 0")
  {
    hide Dec;
    DecWord(c);
    DecClean(c);
    var v := "audio 9/" + Dec(c) + " RTP/AVP 0";
    assert v[|v| - 1] == '0' && v[|v| - 2] == ' ';
  }

  /** So does a media line whose port count is below one, which is not printed. */
  lemma PortCountWitness(s: Session, c: int64)
    requires WellFormed(s) && c < 1
    ensures var q := s.(media := s.media + [Unusual(c)]);
      Decoded(Encoded(s) + "m=audio 9/" + Dec(c) + " RTP/AVP 0" + CRLF) == Ok(q) && Decoded(Encoded(q)) != Ok(q)
  {
    hide Decoded, Encoded, WellFormed, Val, DecodedMedia, Dec, AllTagsPrintable;
    var v := "audio 9/" + Dec(c) + " RTP/AVP 0";
    var i := TextItem('m', v);
    var q := s.(media := s.media + [Unusual(c)]);
    ValOfText('m', v);
    UnusualReads(c);
    assert ItemOk(i) by { UnusualLineOk(c); TextItemOk('m', v); }
    assert s.version == 0 by { VersionZero(s); }
    OneMoreLine(s, i, q);
    var text := Encoded(s) + "m=audio 9/" + Dec(c) + " RTP/AVP 0" + CRLF;
    assert Encoded(s) + ItemText(i) == text;
    assert Unusual(c) in q.media && !PortCountsPrintable(q);
    ParsePrintParse(text);
  }

  lemma VersionZero(s: Session)
    requires WellFormed(s)
    ensures s.version == 0
  {
    hide Items, ItemOk, OriginOk, ConnectionOk, BandwidthOk, TimeOk, KeyedOk, MediaOk;
  }

  /** The smallest description that fits the grammar, to which both lines can be added. */
  const MINIMAL: Session := EMPTY.(origin := Origin("-", "0", "0", "IN", "IP4", "h"), name := "-",
    times := [Time(0, 0, [])])

  lemma MinimalItems()
    ensures Items(MINIMAL) == [Item('v', [Num(0)]), TextItem('o', "- 0 0 IN IP4 h"), TextItem('s', "-"),
                               TimeItem(Time(0, 0, []))]
  {
    assert OriginText(MINIMAL.origin) == "- 0 0 IN IP4 h";
    assert MINIMAL.times[1..] == [];
  }

  lemma MinimalFields()
    ensures FieldsOk(MINIMAL)
  {
    assert OriginOk(MINIMAL.origin);
    assert TimeOk(MINIMAL.times[0]);
  }

  lemma NumbersOk()
    ensures ItemOk(Item('v', [Num(0)])) && ItemOk(TimeItem(Time(0, 0, [])))
  {
    hide ConcatMap;
    var v, t := Item('v', [Num(0)]), TimeItem(Time(0, 0, []));
    assert Val(v) == "0" by { ConcatMapSingle(PartText, Num(0)); }
    assert Val(t) == "0 0" by { ThreeParts(Num(0), Lit(" "), Num(0)); }
    assert LineText(v) == "v=0" && LineText(t) == "t=0 0";
    PlainEndsTrimmed("v=0");
    PlainEndsTrimmed("t=0 0");
  }

  lemma MinimalWellFormed()
    ensures WellFormed(MINIMAL) && MINIMAL.media == []
  {
    hide ItemOk, Items, FieldsOk, TextItem, Clean;
    MinimalItems();
    MinimalFields();
    NumbersOk();
    assert Clean("- 0 0 IN IP4 h") && Clean("-") by { MinimalTexts(); }
    TextItemOk('o', "- 0 0 IN IP4 h");
    TextItemOk('s', "-");
  }

  lemma MinimalTexts()
    ensures Clean("- 0 0 IN IP4 h") && Clean("-")
  {
  }
}
