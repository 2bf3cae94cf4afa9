/** Parsing a printed session description gives it back; the announced size is the printed one. */
module SdpRoundTrip {
  import opened Octets
  import opened Text
  import opened Decimal
  import opened Sequences
  import opened Sdp

  // ---- Values of single lines ----

  lemma ValOfText(typ: char, s: string)
    ensures Val(TextItem(typ, s)) == s
  {
    ConcatMapSingle(PartText, Lit(s));
  }

  lemma ConcatMapSingle<T, U>(f: T -> seq<U>, x: T)
    ensures ConcatMap(f, [x]) == f(x)
  {
    assert [x][1..] == [];
    assert ConcatMap(f, [x]) == f(x) + [];
  }

  lemma SkipNothing(s: string)
    requires s == "" || s[0] != ' '
    ensures SkipBlanks(s) == s
  {
  }

  /** A word and a blank in front of anything are cut off together. */
  lemma CutWord(w: string, rest: string)
    requires w != "" && ' ' !in w
    ensures Cut(SkipBlanks(w + " " + rest), ' ') == Halves(w, rest, true)
  {
    hide Cut;
    assert w + " " + rest == w + [' '] + rest;
    assert (w + " " + rest)[0] == w[0] && w[0] in w;
    SkipNothing(w + " " + rest);
    CutAt(w, ' ', rest);
  }

  lemma CutFirst(w: string, rest: string)
    requires ' ' !in w
    ensures Cut(w + " " + rest, ' ') == Halves(w, rest, true)
  {
    hide Cut;
    assert w + " " + rest == w + [' '] + rest;
    CutAt(w, ' ', rest);
  }

  predicate Word(s: string) {
    s != "" && ' ' !in s
  }

  predicate OriginOk(o: Origin) {
    && ' ' !in o.username
    && Word(o.sessionId) && Word(o.sessionVersion) && Word(o.networkType) && Word(o.addressType)
  }

  lemma OriginReadsBack(o: Origin)
    requires OriginOk(o)
    ensures DecodedOrigin(OriginText(o)) == Ok(o)
  {
    hide Cut, SkipBlanks;
    var e := o.addressType + " " + o.address;
    var d := o.networkType + " " + e;
    var c := o.sessionVersion + " " + d;
    var b := o.sessionId + " " + c;
    assert OriginText(o) == o.username + " " + b;
    CutFirst(o.username, b);
    CutWord(o.sessionId, c);
    CutWord(o.sessionVersion, d);
    CutWord(o.networkType, e);
    CutWord(o.addressType, o.address);
  }

  predicate ConnectionOk(c: Connection) {
    ' ' !in c.networkType && Word(c.addressType)
  }

  lemma ConnectionReadsBack(c: Connection)
    requires ConnectionOk(c)
    ensures DecodedConnection(ConnectionText(c)) == Ok(c)
  {
    hide Cut, SkipBlanks;
    assert ConnectionText(c) == c.networkType + " " + (c.addressType + " " + c.address);
    CutFirst(c.networkType, c.addressType + " " + c.address);
    CutWord(c.addressType, c.address);
  }

  predicate BandwidthOk(b: Bandwidth) {
    ':' !in b.kind && Trimmed(b.kind)
  }

  lemma BandwidthReadsBack(b: Bandwidth)
    requires BandwidthOk(b)
    ensures DecodedBandwidth(Val(BandwidthItem(b))) == Ok(b)
  {
    hide Cut, Atoi, TrimSpace, Dec, ConcatMap;
    ConcatMapTwo(PartText, Lit(b.kind + ":"), Num(b.value));
    assert Val(BandwidthItem(b)) == b.kind + [':'] + Dec(b.value);
    CutAt(b.kind, ':', Dec(b.value));
    DecReadsBack(b.value);
  }

  lemma DecWord(n: int)
    ensures Word(Dec(n)) && '/' !in Dec(n)
  {
    var d := Dec(n);
    assert forall i :: 0 <= i < |d| ==> IsDigit(d[i]) || d[i] == '-';
  }

  lemma ThreeParts(a: Part, b: Part, c: Part)
    ensures ConcatMap(PartText, [a, b, c]) == PartText(a) + PartText(b) + PartText(c)
  {
    assert [a, b, c] == [a, b] + [c];
    ConcatMapAppend(PartText, [a, b], [c]);
    ConcatMapTwo(PartText, a, b);
    ConcatMapSingle(PartText, c);
  }

  lemma TimeReadsBack(t: Time)
    ensures DecodedTime(Val(TimeItem(t))) == Ok(Time(t.start, t.stop, []))
  {
    hide Cut, Atoi, TrimSpace, Dec, ConcatMap;
    ThreeParts(Num(t.start), Lit(" "), Num(t.stop));
    assert Val(TimeItem(t)) == Dec(t.start) + " " + Dec(t.stop);
    DecWord(t.start);
    CutFirst(Dec(t.start), Dec(t.stop));
    DecReadsBack(t.start);
    DecReadsBack(t.stop);
  }

  function OffsetsText(os: seq<int64>): (s: string) {
    ConcatMap(PartText, OffsetParts(os))
  }

  lemma OffsetsTextStep(os: seq<int64>)
    requires os != []
    ensures OffsetsText(os) == " " + (Dec(os[0]) + OffsetsText(os[1..]))
  {
    hide Dec;
    ConcatMapAppend(PartText, [Lit(" "), Num(os[0])], OffsetParts(os[1..]));
    ConcatMapTwo(PartText, Lit(" "), Num(os[0]));
  }

  lemma OffsetsStep(w: string, n: int64, rest: string)
    requires Word(w) && Atoi(w) == Some(n)
    ensures DecodedOffsets(w) == Ok([n])
    ensures DecodedOffsets(rest).Ok? && SkipBlanks(rest) == rest ==>
      DecodedOffsets(w + " " + rest) == Ok([n] + DecodedOffsets(rest).value)
  {
    hide Cut, Atoi;
    CutNone(w, ' ');
    CutFirst(w, rest);
    assert SkipBlanks("") == "";
    assert [n] + [] == [n];
  }

  lemma {:induction false} OffsetsReadBack(os: seq<int64>)
    requires os != []
    ensures DecodedOffsets(Dec(os[0]) + OffsetsText(os[1..])) == Ok(os)
    decreases |os|
  {
    hide Dec, Atoi, DecodedOffsets, SkipBlanks, OffsetsText;
    DecWord(os[0]);
    DecReadsBack(os[0]);
    if |os| == 1 {
      assert os == [os[0]] && os[1..] == [];
      assert OffsetsText([]) == "" by { OffsetsTextNone(); }
      assert Dec(os[0]) + "" == Dec(os[0]);
      OffsetsStep(Dec(os[0]), os[0], "");
    } else {
      var rest := Dec(os[1]) + OffsetsText(os[1..][1..]);
      OffsetsTextStep(os[1..]);
      OffsetsReadBack(os[1..]);
      assert Dec(os[0]) + (" " + rest) == Dec(os[0]) + " " + rest;
      assert SkipBlanks(rest) == rest by { DecWord(os[1]); assert rest[0] == Dec(os[1])[0]; SkipNothing(rest); }
      OffsetsStep(Dec(os[0]), os[0], rest);
      assert [os[0]] + os[1..] == os;
    }
  }

  lemma OffsetsTextNone()
    ensures OffsetsText([]) == ""
  {
  }

  lemma RepeatVal(r: Repeat)
    requires r.offsets != []
    ensures Val(RepeatItem(r))
         == Dec(r.interval) + " " + (Dec(r.duration) + " " + (Dec(r.offsets[0]) + OffsetsText(r.offsets[1..])))
  {
    hide Dec, ConcatMap, OffsetsText;
    var head := [Num(r.interval), Lit(" "), Num(r.duration)];
    ConcatMapAppend(PartText, head, OffsetParts(r.offsets));
    ThreeParts(Num(r.interval), Lit(" "), Num(r.duration));
    OffsetsTextStep(r.offsets);
    assert OffsetsText(r.offsets) == ConcatMap(PartText, OffsetParts(r.offsets)) by { OffsetsTextIs(r.offsets); }
  }

  lemma OffsetsTextIs(os: seq<int64>)
    ensures OffsetsText(os) == ConcatMap(PartText, OffsetParts(os))
  {
  }

  lemma RepeatReadsBack(r: Repeat)
    requires r.offsets != []
    ensures DecodedRepeat(Val(RepeatItem(r))) == Ok(r)
  {
    hide Cut, Atoi, Dec, DecodedOffsets, SkipBlanks, OffsetsText, Val;
    RepeatVal(r);
    var tail := Dec(r.offsets[0]) + OffsetsText(r.offsets[1..]);
    DecWord(r.interval);
    DecWord(r.duration);
    DecWord(r.offsets[0]);
    CutFirst(Dec(r.interval), Dec(r.duration) + " " + tail);
    CutWord(Dec(r.duration), tail);
    DecReadsBack(r.interval);
    DecReadsBack(r.duration);
    assert tail[0] == Dec(r.offsets[0])[0];
    SkipNothing(tail);
    OffsetsReadBack(r.offsets);
  }

  lemma TaggedReadsBack(key: string, value: string)
    requires ':' !in key
    ensures Cut(Tagged(key, value), ':').before == key && Cut(Tagged(key, value), ':').after == value
  {
    hide Cut;
    if value == "" {
      CutNone(key, ':');
    } else {
      assert Tagged(key, value) == key + [':'] + value;
      CutAt(key, ':', value);
    }
  }

  lemma {:induction false} JoinSplits(ss: seq<string>)
    requires ss != [] && forall s :: s in ss ==> ' ' !in s
    ensures Split(Join(ss)) == ss
    decreases |ss|
  {
    hide Cut;
    assert ss[0] in ss;
    if |ss| == 1 {
      CutNone(ss[0], ' ');
      assert ss == [ss[0]];
    } else {
      CutFirst(ss[0], Join(ss[1..]));
      JoinSplits(ss[1..]);
      assert ss == [ss[0]] + ss[1..];
    }
  }

  predicate FormatsOk(fs: seq<string>) {
    fs != [] && fs[0] != "" && forall f :: f in fs ==> ' ' !in f
  }

  function PortText(m: Media): (s: string) {
    Dec(m.port) + if m.portCount > 1 then "/" + Dec(m.portCount) else ""
  }

  lemma MediaVal(m: Media)
    ensures Val(MediaItem(m)) == m.kind + " " + (PortText(m) + " " + (m.proto + " " + Join(m.formats)))
  {
    hide Dec, ConcatMap, Join;
    var a, b := [Lit(m.kind + " "), Num(m.port)], if m.portCount > 1 then [Lit("/"), Num(m.portCount)] else [];
    var last := Lit(" " + m.proto + " " + Join(m.formats));
    ConcatMapAppend(PartText, a + b, [last]);
    ConcatMapAppend(PartText, a, b);
    ConcatMapTwo(PartText, Lit(m.kind + " "), Num(m.port));
    ConcatMapSingle(PartText, last);
    ConcatMapTwo(PartText, Lit("/"), Num(m.portCount));
    assert ConcatMap(PartText, []) == "" by { NoParts(); }
  }

  lemma NoParts()
    ensures ConcatMap(PartText, []) == ""
  {
  }

  lemma PortReadsBack(m: Media)
    requires m.portCount >= 1
    ensures Word(PortText(m))
    ensures var p := Cut(PortText(m), '/');
      Atoi(p.before) == Some(m.port) && (if p.found then Atoi(p.after) else Some(1)) == Some(m.portCount)
  {
    hide Cut, Atoi, Dec;
    DecWord(m.port);
    DecWord(m.portCount);
    DecReadsBack(m.port);
    DecReadsBack(m.portCount);
    if m.portCount > 1 {
      assert PortText(m) == Dec(m.port) + ['/'] + Dec(m.portCount);
      CutAt(Dec(m.port), '/', Dec(m.portCount));
    } else {
      assert PortText(m) == Dec(m.port);
      CutNone(Dec(m.port), '/');
    }
  }

  predicate MediaLineOk(m: Media) {
    ' ' !in m.kind && m.portCount >= 1 && Word(m.proto) && FormatsOk(m.formats)
  }

  /** What the m= line alone carries. */
  function Bare(m: Media): (b: Media) {
    Media(m.kind, m.port, m.portCount, m.proto, m.formats, "", None, [], None, [])
  }

  lemma MediaReadsBack(m: Media)
    requires MediaLineOk(m)
    ensures DecodedMedia(Val(MediaItem(m))) == Ok(Bare(m))
  {
    hide Cut, Atoi, Dec, SkipBlanks, Val, PortText, Join, Split;
    MediaVal(m);
    PortReadsBack(m);
    var fs := Join(m.formats);
    CutFirst(m.kind, PortText(m) + " " + (m.proto + " " + fs));
    CutWord(PortText(m), m.proto + " " + fs);
    CutWord(m.proto, fs);
    JoinStarts(m.formats);
    SkipNothing(fs);
    JoinSplits(m.formats);
  }

  lemma JoinStarts(fs: seq<string>)
    requires FormatsOk(fs)
    ensures Join(fs) != "" && Join(fs)[0] != ' '
  {
    assert fs[0] in fs && fs[0][0] in fs[0];
  }

  // ---- Runs of lines ----

  function Run(p: Parse, items: seq<Item>): (r: Outcome<Parse>)
    decreases |items|
  {
    if items == [] then Ok(p)
    else
      match Apply(p, items[0].typ, Val(items[0]))
      case Ok(q) => Run(q, items[1..])
      case Err(e) => Err(e)
      case Panic => Panic
  }

  lemma RunOne(p: Parse, i: Item, q: Parse, rest: seq<Item>)
    requires Apply(p, i.typ, Val(i)) == Ok(q)
    ensures Run(p, [i] + rest) == Run(q, rest)
  {
    hide Apply, Val;
    assert ([i] + rest)[0] == i && ([i] + rest)[1..] == rest;
  }

  lemma {:induction false} RunThen(p: Parse, xs: seq<Item>, q: Parse, ys: seq<Item>)
    requires Run(p, xs) == Ok(q)
    ensures Run(p, xs + ys) == Run(q, ys)
    decreases |xs|
  {
    hide Apply, Val;
    if xs == [] {
      assert xs + ys == ys;
    } else {
      assert (xs + ys)[1..] == xs[1..] + ys;
      RunThen(Apply(p, xs[0].typ, Val(xs[0])).value, xs[1..], q, ys);
    }
  }

  /** A line that survives reading: not empty, no line feed inside, no white space at its end. */
  predicate ItemOk(i: Item) {
    'a' <= i.typ <= 'z' && Val(i) != "" && '\n' !in Val(i) && TrailingSpace(LineText(i)) == 0
  }

  lemma LineStep(s: string, raw: string, rest: string, p: Parse)
    requires s != "" && Line(s) == (raw, rest)
    requires TrimSpace(raw) == raw && |raw| >= 3 && raw[1] == '='
    ensures Apply(p, raw[0], raw[2..]).Ok? ==>
      DecodedLines(s, p) == DecodedLines(rest, Apply(p, raw[0], raw[2..]).value)
    ensures Apply(p, raw[0], raw[2..]).Err? ==> DecodedLines(s, p) == Err(Apply(p, raw[0], raw[2..]).error)
  {
    hide Apply, Line, TrimSpace;
  }

  lemma LineTrimmed(i: Item)
    requires ItemOk(i)
    ensures TrimSpace(LineText(i)) == LineText(i) && '\n' !in LineText(i)
    ensures |LineText(i)| >= 3 && LineText(i)[0] == i.typ && LineText(i)[1] == '=' && LineText(i)[2..] == Val(i)
  {
    hide Val, TrimSpace;
    assert LeadingSpace(LineText(i)) == 0;
  }

  /** Reading the printed lines is running them one by one. */
  lemma {:induction false} LinesReadBack(items: seq<Item>, p: Parse)
    requires forall i :: i in items ==> ItemOk(i)
    ensures DecodedLines(ItemsText(items), p) == Run(p, items)
    decreases |items|
  {
    hide Apply, Line, TrimSpace, ItemOk, LineText, Val;
    if items == [] {
    } else {
      var i := items[0];
      var rest := ItemsText(items[1..]);
      assert ItemsText(items) == LineText(i) + CRLF + rest;
      LineTrimmed(i);
      LineReadsBack(LineText(i), rest);
      LineStep(ItemsText(items), LineText(i), rest, p);
      match Apply(p, i.typ, Val(i)) {
        case Ok(q) => LinesReadBack(items[1..], q);
        case Err(e) =>
      }
    }
  }

  // ---- Session-level lines ----

  predicate InSession(p: Parse) {
    p.session.media == []
  }

  function With(p: Parse, s: Session): (q: Parse) {
    p.(session := s)
  }

  lemma ApplyText(p: Parse, typ: char, val: string)
    requires InSession(p) && typ != 'm' && typ != 'v'
    ensures var t := SessionLine(p.session, typ, val);
      Apply(p, typ, val) == if t.Err? then Err(t.error) else Ok(With(p, t.value))
  {
    hide SessionLine;
  }

  lemma OptionalRun(p: Parse, typ: char, s: string)
    requires InSession(p) && typ in "iuz"
    requires typ == 'i' ==> p.session.info == ""
    requires typ == 'u' ==> p.session.uri == ""
    requires typ == 'z' ==> p.session.timeZone == ""
    ensures Run(p, OptionalItem(typ, s)) ==
      Ok(With(p, if typ == 'i' then p.session.(info := s) else if typ == 'u' then p.session.(uri := s)
                 else p.session.(timeZone := s)))
  {
    hide Apply, Val;
    if s != "" {
      ValOfText(typ, s);
      ApplyText(p, typ, s);
      var q := Apply(p, typ, s).value;
      assert [TextItem(typ, s)] + [] == [TextItem(typ, s)];
      RunOne(p, TextItem(typ, s), q, []);
    }
  }

  lemma {:induction false} EmailsRun(p: Parse, xs: seq<string>)
    requires InSession(p)
    ensures Run(p, EachItem('e', xs)) == Ok(With(p, p.session.(emails := p.session.emails + xs)))
    decreases |xs|
  {
    hide Apply, Val, Run;
    if xs == [] {
      RunNone(p);
      assert p.session.emails + xs == p.session.emails;
    } else {
      ValOfText('e', xs[0]);
      ApplyText(p, 'e', xs[0]);
      var q := With(p, p.session.(emails := p.session.emails + [xs[0]]));
      RunOne(p, TextItem('e', xs[0]), q, EachItem('e', xs[1..]));
      EmailsRun(q, xs[1..]);
      assert p.session.emails + [xs[0]] + xs[1..] == p.session.emails + xs;
    }
  }

  lemma {:induction false} PhonesRun(p: Parse, xs: seq<string>)
    requires InSession(p)
    ensures Run(p, EachItem('p', xs)) == Ok(With(p, p.session.(phones := p.session.phones + xs)))
    decreases |xs|
  {
    hide Apply, Val, Run;
    if xs == [] {
      RunNone(p);
      assert p.session.phones + xs == p.session.phones;
    } else {
      ValOfText('p', xs[0]);
      ApplyText(p, 'p', xs[0]);
      var q := With(p, p.session.(phones := p.session.phones + [xs[0]]));
      RunOne(p, TextItem('p', xs[0]), q, EachItem('p', xs[1..]));
      PhonesRun(q, xs[1..]);
      assert p.session.phones + [xs[0]] + xs[1..] == p.session.phones + xs;
    }
  }

  lemma RunNone(p: Parse)
    ensures Run(p, []) == Ok(p)
  {
  }

  lemma ConnectionRun(p: Parse, c: Option<Connection>)
    requires InSession(p) && p.session.connection == None && (c.Some? ==> ConnectionOk(c.value))
    ensures Run(p, ConnectionItems(c)) == Ok(With(p, p.session.(connection := c)))
  {
    hide Apply, Val, Run, DecodedConnection, ConnectionText, ConnectionOk;
    RunNone(p);
    if c.Some? {
      var i := TextItem('c', ConnectionText(c.value));
      ValOfText('c', ConnectionText(c.value));
      ApplyText(p, 'c', Val(i));
      ConnectionReadsBack(c.value);
      var q := With(p, p.session.(connection := c));
      RunNone(q);
      assert [i] + [] == [i];
      RunOne(p, i, q, []);
    }
  }

  lemma {:induction false} BandwidthsRun(p: Parse, bs: seq<Bandwidth>)
    requires InSession(p) && forall b :: b in bs ==> BandwidthOk(b)
    ensures Run(p, BandwidthItems(bs)) == Ok(With(p, p.session.(bandwidths := p.session.bandwidths + bs)))
    decreases |bs|
  {
    hide Apply, Val, Run, DecodedBandwidth, BandwidthOk;
    if bs == [] {
      RunNone(p);
      assert p.session.bandwidths + bs == p.session.bandwidths;
    } else {
      BandwidthReadsBack(bs[0]);
      ApplyText(p, 'b', Val(BandwidthItem(bs[0])));
      var q := With(p, p.session.(bandwidths := p.session.bandwidths + [bs[0]]));
      RunOne(p, BandwidthItem(bs[0]), q, BandwidthItems(bs[1..]));
      BandwidthsRun(q, bs[1..]);
      assert p.session.bandwidths + [bs[0]] + bs[1..] == p.session.bandwidths + bs;
    }
  }

  /** The repeats of a time line all land under it. */
  lemma {:induction false} RepeatsRun(p: Parse, done: seq<Time>, t: Time, rs: seq<Repeat>)
    requires InSession(p) && p.session.times == done + [t]
    requires forall r :: r in rs ==> r.offsets != []
    ensures Run(p, RepeatItems(rs)) == Ok(With(p, p.session.(times := done + [t.(repeats := t.repeats + rs)])))
    decreases |rs|
  {
    hide Apply, Val, Run, DecodedRepeat;
    if rs == [] {
      RunNone(p);
      assert t.repeats + rs == t.repeats;
    } else {
      RepeatReadsBack(rs[0]);
      ApplyText(p, 'r', Val(RepeatItem(rs[0])));
      var u := t.(repeats := t.repeats + [rs[0]]);
      assert WithRepeat(p.session.times, rs[0]) == done + [u];
      var q := With(p, p.session.(times := done + [u]));
      RunOne(p, RepeatItem(rs[0]), q, RepeatItems(rs[1..]));
      RepeatsRun(q, done, u, rs[1..]);
      assert t.repeats + [rs[0]] + rs[1..] == t.repeats + rs;
    }
  }

  predicate TimeOk(t: Time) {
    forall r :: r in t.repeats ==> r.offsets != []
  }

  lemma {:induction false} TimesRun(p: Parse, ts: seq<Time>)
    requires InSession(p) && forall t :: t in ts ==> TimeOk(t)
    ensures Run(p, TimeItems(ts)) == Ok(With(p, p.session.(times := p.session.times + ts)))
    decreases |ts|
  {
    hide Apply, Val, Run, DecodedTime, RepeatItems;
    var had := p.session.times;
    if ts == [] {
      RunNone(p);
      assert had + ts == had;
    } else {
      var t := ts[0];
      assert TimeOk(t);
      TimeReadsBack(t);
      ApplyText(p, 't', Val(TimeItem(t)));
      var bare := Time(t.start, t.stop, []);
      var q := With(p, p.session.(times := had + [bare]));
      var rest := TimeItems(ts[1..]);
      assert TimeItems(ts) == [TimeItem(t)] + (RepeatItems(t.repeats) + rest);
      RunOne(p, TimeItem(t), q, RepeatItems(t.repeats) + rest);
      RepeatsRun(q, had, bare, t.repeats);
      assert [] + t.repeats == t.repeats;
      var q2 := With(p, p.session.(times := had + [t]));
      RunThen(q, RepeatItems(t.repeats), q2, rest);
      TimesRun(q2, ts[1..]);
      assert had + [t] + ts[1..] == had + ts;
    }
  }

  predicate KeyedOk(key: string) {
    ':' !in key
  }

  lemma EncryptionRun(p: Parse, k: Option<EncryptionKey>)
    requires InSession(p) && p.session.encryption == None && (k.Some? ==> KeyedOk(k.value.scheme))
    ensures Run(p, EncryptionItems(k)) == Ok(With(p, p.session.(encryption := k)))
  {
    hide Apply, Val, Run, Cut, Tagged;
    RunNone(p);
    if k.Some? {
      var s := Tagged(k.value.scheme, k.value.key);
      ValOfText('k', s);
      ApplyText(p, 'k', s);
      TaggedReadsBack(k.value.scheme, k.value.key);
      var q := With(p, p.session.(encryption := k));
      RunNone(q);
      assert [TextItem('k', s)] + [] == [TextItem('k', s)];
      RunOne(p, TextItem('k', s), q, []);
    }
  }

  lemma {:induction false} AttributesRun(p: Parse, xs: seq<Attribute>)
    requires InSession(p) && forall a :: a in xs ==> KeyedOk(a.key)
    ensures Run(p, AttributeItems(xs)) == Ok(With(p, p.session.(attributes := p.session.attributes + xs)))
    decreases |xs|
  {
    hide Apply, Val, Run, Cut, Tagged;
    if xs == [] {
      RunNone(p);
      assert p.session.attributes + xs == p.session.attributes;
    } else {
      var s := Tagged(xs[0].key, xs[0].value);
      ValOfText('a', s);
      ApplyText(p, 'a', s);
      TaggedReadsBack(xs[0].key, xs[0].value);
      var q := With(p, p.session.(attributes := p.session.attributes + [xs[0]]));
      RunOne(p, TextItem('a', s), q, AttributeItems(xs[1..]));
      AttributesRun(q, xs[1..]);
      assert p.session.attributes + [xs[0]] + xs[1..] == p.session.attributes + xs;
    }
  }

  // ---- Media-level lines ----

  /** p with media section m open at its end. */
  function Open(p: Parse, done: seq<Media>, m: Media): (q: Parse) {
    With(p, p.session.(media := done + [m]))
  }

  lemma ApplyMedia(p: Parse, done: seq<Media>, m: Media, typ: char, val: string)
    requires typ != 'm' && typ != 'v'
    ensures var t := MediaLine(m, typ, val);
      Apply(Open(p, done, m), typ, val) == if t.Err? then Err(t.error) else Ok(Open(p, done, t.value))
  {
    hide MediaLine;
    var t := MediaLine(m, typ, val);
    assert t.Ok? ==> (done + [m])[|done| := t.value] == done + [t.value];
  }

  lemma TitleRun(p: Parse, done: seq<Media>, m: Media, s: string)
    requires m.title == ""
    ensures Run(Open(p, done, m), OptionalItem('i', s)) == Ok(Open(p, done, m.(title := s)))
  {
    hide Apply, Val, Run, Open;
    RunNone(Open(p, done, m));
    if s != "" {
      ValOfText('i', s);
      ApplyMedia(p, done, m, 'i', s);
      var q := Open(p, done, m.(title := s));
      RunNone(q);
      assert [TextItem('i', s)] + [] == [TextItem('i', s)];
      RunOne(Open(p, done, m), TextItem('i', s), q, []);
    }
  }

  lemma MediaConnectionRun(p: Parse, done: seq<Media>, m: Media, c: Option<Connection>)
    requires m.connection == None && (c.Some? ==> ConnectionOk(c.value))
    ensures Run(Open(p, done, m), ConnectionItems(c)) == Ok(Open(p, done, m.(connection := c)))
  {
    hide Apply, Val, Run, Open, DecodedConnection, ConnectionText, ConnectionOk;
    RunNone(Open(p, done, m));
    if c.Some? {
      var i := TextItem('c', ConnectionText(c.value));
      ValOfText('c', ConnectionText(c.value));
      ApplyMedia(p, done, m, 'c', Val(i));
      ConnectionReadsBack(c.value);
      var q := Open(p, done, m.(connection := c));
      RunNone(q);
      assert [i] + [] == [i];
      RunOne(Open(p, done, m), i, q, []);
    }
  }

  lemma {:induction false} MediaBandwidthsRun(p: Parse, done: seq<Media>, m: Media, bs: seq<Bandwidth>)
    requires forall b :: b in bs ==> BandwidthOk(b)
    ensures Run(Open(p, done, m), BandwidthItems(bs)) == Ok(Open(p, done, m.(bandwidths := m.bandwidths + bs)))
    decreases |bs|
  {
    hide Apply, Val, Run, Open, DecodedBandwidth, BandwidthOk;
    if bs == [] {
      RunNone(Open(p, done, m));
      assert m.bandwidths + bs == m.bandwidths;
    } else {
      BandwidthReadsBack(bs[0]);
      ApplyMedia(p, done, m, 'b', Val(BandwidthItem(bs[0])));
      var n := m.(bandwidths := m.bandwidths + [bs[0]]);
      RunOne(Open(p, done, m), BandwidthItem(bs[0]), Open(p, done, n), BandwidthItems(bs[1..]));
      MediaBandwidthsRun(p, done, n, bs[1..]);
      assert m.bandwidths + [bs[0]] + bs[1..] == m.bandwidths + bs;
    }
  }

  lemma MediaEncryptionRun(p: Parse, done: seq<Media>, m: Media, k: Option<EncryptionKey>)
    requires m.encryption == None && (k.Some? ==> KeyedOk(k.value.scheme))
    ensures Run(Open(p, done, m), EncryptionItems(k)) == Ok(Open(p, done, m.(encryption := k)))
  {
    hide Apply, Val, Run, Open, Cut, Tagged;
    RunNone(Open(p, done, m));
    if k.Some? {
      var s := Tagged(k.value.scheme, k.value.key);
      ValOfText('k', s);
      ApplyMedia(p, done, m, 'k', s);
      TaggedReadsBack(k.value.scheme, k.value.key);
      var q := Open(p, done, m.(encryption := k));
      RunNone(q);
      assert [TextItem('k', s)] + [] == [TextItem('k', s)];
      RunOne(Open(p, done, m), TextItem('k', s), q, []);
    }
  }

  lemma {:induction false} MediaAttributesRun(p: Parse, done: seq<Media>, m: Media, xs: seq<Attribute>)
    requires forall a :: a in xs ==> KeyedOk(a.key)
    ensures Run(Open(p, done, m), AttributeItems(xs)) == Ok(Open(p, done, m.(attributes := m.attributes + xs)))
    decreases |xs|
  {
    hide Apply, Val, Run, Open, Cut, Tagged;
    if xs == [] {
      RunNone(Open(p, done, m));
      assert m.attributes + xs == m.attributes;
    } else {
      var s := Tagged(xs[0].key, xs[0].value);
      ValOfText('a', s);
      ApplyMedia(p, done, m, 'a', s);
      TaggedReadsBack(xs[0].key, xs[0].value);
      var n := m.(attributes := m.attributes + [xs[0]]);
      RunOne(Open(p, done, m), TextItem('a', s), Open(p, done, n), AttributeItems(xs[1..]));
      MediaAttributesRun(p, done, n, xs[1..]);
      assert m.attributes + [xs[0]] + xs[1..] == m.attributes + xs;
    }
  }

  predicate MediaOk(m: Media) {
    && MediaLineOk(m)
    && (m.connection.Some? ==> ConnectionOk(m.connection.value))
    && (forall b :: b in m.bandwidths ==> BandwidthOk(b))
    && (m.encryption.Some? ==> KeyedOk(m.encryption.value.scheme))
    && (forall a :: a in m.attributes ==> KeyedOk(a.key))
  }

  lemma ApplyMediaLine(p: Parse, m: Media)
    requires MediaLineOk(m)
    ensures Apply(p, 'm', Val(MediaItem(m))) == Ok(Open(p, p.session.media, Bare(m)))
  {
    hide DecodedMedia, Val;
    MediaReadsBack(m);
  }

  /** Every media-level line lands in its own section. */
  lemma MediaLinesRun(p: Parse, m: Media)
    requires MediaOk(m)
    ensures Run(p, MediaLines(m)) == Ok(Open(p, p.session.media, m))
  {
    hide Apply, Val, Run, Open, MediaLineOk, ConnectionOk, BandwidthOk, MediaItem,
      OptionalItem, ConnectionItems, BandwidthItems, EncryptionItems, AttributeItems;
    var done := p.session.media;
    var m0 := Bare(m);
    var m1 := m0.(title := m.title);
    var m2 := m1.(connection := m.connection);
    var m3 := m2.(bandwidths := m.bandwidths);
    var m4 := m3.(encryption := m.encryption);
    var i5 := AttributeItems(m.attributes);
    var i4 := EncryptionItems(m.encryption) + i5;
    var i3 := BandwidthItems(m.bandwidths) + i4;
    var i2 := ConnectionItems(m.connection) + i3;
    var i1 := OptionalItem('i', m.title) + i2;
    ApplyMediaLine(p, m);
    assert MediaItem(m).typ == 'm' by { MediaItemTyp(m); }
    RunOne(p, MediaItem(m), Open(p, done, m0), i1);
    TitleRun(p, done, m0, m.title);
    RunThen(Open(p, done, m0), OptionalItem('i', m.title), Open(p, done, m1), i2);
    MediaConnectionRun(p, done, m1, m.connection);
    RunThen(Open(p, done, m1), ConnectionItems(m.connection), Open(p, done, m2), i3);
    MediaBandwidthsRun(p, done, m2, m.bandwidths);
    assert [] + m.bandwidths == m.bandwidths && [] + m.attributes == m.attributes;
    RunThen(Open(p, done, m2), BandwidthItems(m.bandwidths), Open(p, done, m3), i4);
    MediaEncryptionRun(p, done, m3, m.encryption);
    RunThen(Open(p, done, m3), EncryptionItems(m.encryption), Open(p, done, m4), i5);
    MediaAttributesRun(p, done, m4, m.attributes);
  }

  lemma MediaItemTyp(m: Media)
    ensures MediaItem(m).typ == 'm'
  {
  }

  lemma {:induction false} MediaRun(p: Parse, ms: seq<Media>)
    requires forall m :: m in ms ==> MediaOk(m)
    ensures Run(p, MediaItems(ms)) == Ok(With(p, p.session.(media := p.session.media + ms)))
    decreases |ms|
  {
    hide Apply, Val, Run, MediaOk, MediaLines;
    var done := p.session.media;
    if ms == [] {
      RunNone(p);
      assert done + ms == done;
    } else {
      MediaLinesRun(p, ms[0]);
      var q := Open(p, done, ms[0]);
      RunThen(p, MediaLines(ms[0]), q, MediaItems(ms[1..]));
      MediaRun(q, ms[1..]);
      assert done + [ms[0]] + ms[1..] == done + ms;
    }
  }

  // ---- Whole descriptions ----

  predicate FieldsOk(s: Session) {
    && s.version == 0 && OriginOk(s.origin) && s.origin.username != "" && s.name != "" && s.times != []
    && (s.connection.Some? ==> ConnectionOk(s.connection.value))
    && (forall b :: b in s.bandwidths ==> BandwidthOk(b))
    && (forall t :: t in s.times ==> TimeOk(t))
    && (s.encryption.Some? ==> KeyedOk(s.encryption.value.scheme))
    && (forall a :: a in s.attributes ==> KeyedOk(a.key))
    && (forall m :: m in s.media ==> MediaOk(m))
  }

  /** A description that fits the grammar: its fields are delimited, and its lines survive reading. */
  ghost predicate WellFormed(s: Session) {
    FieldsOk(s) && forall i :: i in Items(s) ==> ItemOk(i)
  }

  lemma ApplyVersion(p: Parse, n: int64)
    requires !p.seenVersion
    ensures Apply(p, 'v', Val(Item('v', [Num(n)]))) == Ok(Parse(p.session.(version := n), true))
  {
    hide Atoi, TrimSpace, Dec, ConcatMap;
    ConcatMapSingle(PartText, Num(n));
    DecReadsBack(n);
  }

  lemma HeadRun(s: Session)
    requires OriginOk(s.origin)
    ensures Run(Parse(EMPTY, false), HeadItems(s))
         == Ok(Parse(EMPTY.(version := s.version, origin := s.origin, name := s.name), true))
  {
    hide Apply, Val, Run, DecodedOrigin, OriginText, OriginOk;
    var p0 := Parse(EMPTY, false);
    var v, o, n := Item('v', [Num(s.version)]), TextItem('o', OriginText(s.origin)), TextItem('s', s.name);
    assert HeadItems(s) == [v] + ([o] + ([n] + []));
    ApplyVersion(p0, s.version);
    var p1 := Parse(EMPTY.(version := s.version), true);
    RunOne(p0, v, p1, [o] + ([n] + []));
    ValOfText('o', OriginText(s.origin));
    ApplyText(p1, 'o', Val(o));
    OriginReadsBack(s.origin);
    var p2 := With(p1, p1.session.(origin := s.origin));
    RunOne(p1, o, p2, [n] + []);
    ValOfText('s', s.name);
    ApplyText(p2, 's', s.name);
    var p3 := With(p2, p2.session.(name := s.name));
    RunOne(p2, n, p3, []);
    RunNone(p3);
  }

  /** From the phone numbers on. */
  function LaterItems(s: Session): (r: seq<Item>) {
    ConnectionItems(s.connection) + (BandwidthItems(s.bandwidths)
      + (TimeItems(s.times) + (OptionalItem('z', s.timeZone) + (EncryptionItems(s.encryption)
      + (AttributeItems(s.attributes) + MediaItems(s.media))))))
  }

  /** The part of a description that precedes its connection line. */
  function Early(s: Session): (e: Session) {
    EMPTY.(version := s.version, origin := s.origin, name := s.name, info := s.info, uri := s.uri,
           emails := s.emails, phones := s.phones)
  }

  lemma EarlyRun(s: Session)
    requires FieldsOk(s)
    ensures Run(Parse(EMPTY, false), Items(s)) == Run(Parse(Early(s), true), LaterItems(s))
  {
    hide Apply, Val, Run, FieldsOk, LaterItems, HeadItems, OptionalItem, EachItem;
    var p0 := Parse(EMPTY, false);
    var p1 := Parse(EMPTY.(version := s.version, origin := s.origin, name := s.name), true);
    var p2 := With(p1, p1.session.(info := s.info));
    var p3 := With(p2, p2.session.(uri := s.uri));
    var p4 := With(p3, p3.session.(emails := s.emails));
    var p5 := With(p4, p4.session.(phones := s.phones));
    var i5 := LaterItems(s);
    var i4 := EachItem('p', s.phones) + i5;
    var i3 := EachItem('e', s.emails) + i4;
    var i2 := OptionalItem('u', s.uri) + i3;
    var i1 := OptionalItem('i', s.info) + i2;
    assert Items(s) == HeadItems(s) + i1 by { LaterItemsAre(s); }
    assert OriginOk(s.origin) by { OriginOfOk(s); }
    HeadRun(s);
    RunThen(p0, HeadItems(s), p1, i1);
    OptionalRun(p1, 'i', s.info);
    RunThen(p1, OptionalItem('i', s.info), p2, i2);
    OptionalRun(p2, 'u', s.uri);
    RunThen(p2, OptionalItem('u', s.uri), p3, i3);
    assert [] + s.emails == s.emails && [] + s.phones == s.phones;
    EmailsRun(p3, s.emails);
    RunThen(p3, EachItem('e', s.emails), p4, i4);
    PhonesRun(p4, s.phones);
    RunThen(p4, EachItem('p', s.phones), p5, i5);
  }

  lemma LaterItemsAre(s: Session)
    ensures Items(s) == HeadItems(s) + (OptionalItem('i', s.info) + (OptionalItem('u', s.uri) + (EachItem('e', s.emails)
      + (EachItem('p', s.phones) + LaterItems(s)))))
  {
  }

  lemma OriginOfOk(s: Session)
    requires FieldsOk(s)
    ensures OriginOk(s.origin)
  {
  }

  lemma LaterRun(s: Session)
    requires FieldsOk(s)
    ensures Run(Parse(Early(s), true), LaterItems(s)) == Ok(Parse(s, true))
  {
    hide Apply, Val, Run, OriginOk, ConnectionOk, BandwidthOk, TimeOk, KeyedOk, MediaOk,
      OptionalItem, ConnectionItems, BandwidthItems, EncryptionItems, AttributeItems, TimeItems, MediaItems;
    var p0 := Parse(Early(s), true);
    var p1 := With(p0, p0.session.(connection := s.connection));
    var p2 := With(p1, p1.session.(bandwidths := s.bandwidths));
    var p3 := With(p2, p2.session.(times := s.times));
    var p4 := With(p3, p3.session.(timeZone := s.timeZone));
    var p5 := With(p4, p4.session.(encryption := s.encryption));
    var p6 := With(p5, p5.session.(attributes := s.attributes));
    var i6 := MediaItems(s.media);
    var i5 := AttributeItems(s.attributes) + i6;
    var i4 := EncryptionItems(s.encryption) + i5;
    var i3 := OptionalItem('z', s.timeZone) + i4;
    var i2 := TimeItems(s.times) + i3;
    var i1 := BandwidthItems(s.bandwidths) + i2;
    ConnectionRun(p0, s.connection);
    RunThen(p0, ConnectionItems(s.connection), p1, i1);
    assert [] + s.bandwidths == s.bandwidths && [] + s.times == s.times && [] + s.attributes == s.attributes;
    BandwidthsRun(p1, s.bandwidths);
    RunThen(p1, BandwidthItems(s.bandwidths), p2, i2);
    TimesRun(p2, s.times);
    RunThen(p2, TimeItems(s.times), p3, i3);
    OptionalRun(p3, 'z', s.timeZone);
    RunThen(p3, OptionalItem('z', s.timeZone), p4, i4);
    EncryptionRun(p4, s.encryption);
    RunThen(p4, EncryptionItems(s.encryption), p5, i5);
    AttributesRun(p5, s.attributes);
    RunThen(p5, AttributeItems(s.attributes), p6, i6);
    MediaRun(p6, s.media);
    assert [] + s.media == s.media;
  }

  /** UnmarshalSDP of a printed description is that description. */
  lemma RoundTrip(s: Session)
    requires WellFormed(s)
    ensures Decoded(Encoded(s)) == Ok(s)
  {
    hide Items, Run, ItemOk, DecodedLines, OriginOk, ConnectionOk, BandwidthOk, TimeOk, KeyedOk, MediaOk;
    EarlyRun(s);
    LaterRun(s);
    LinesReadBack(Items(s), Parse(EMPTY, false));
    assert Encoded(s) != "" by { NotEmpty(s); }
  }

  lemma NotEmpty(s: Session)
    ensures Encoded(s) != ""
  {
    hide LineText;
    var i := Item('v', [Num(s.version)]);
    assert Items(s)[0] == i;
  }

  // ---- What the printed lines measure ----

  function PartSize(p: Part): (n: nat) {
    if p.Lit? then |p.text| else DigitCount(p.value)
  }

  function PartsSize(ps: seq<Part>): (n: nat) {
    if ps == [] then 0 else PartSize(ps[0]) + PartsSize(ps[1..])
  }

  /** The width of lines whose numbers are measured by counting digits. */
  function ItemsSize(items: seq<Item>): (n: nat) {
    if items == [] then 0 else 2 + PartsSize(items[0].parts) + 2 + ItemsSize(items[1..])
  }

  lemma PartSizeExact(p: Part)
    ensures PartSize(p) <= |PartText(p)| && (PartSize(p) == |PartText(p)| <==> PartUnsigned(p))
  {
  }

  lemma {:induction false} PartsSizeExact(ps: seq<Part>)
    ensures PartsSize(ps) <= |ConcatMap(PartText, ps)|
    ensures PartsSize(ps) == |ConcatMap(PartText, ps)| <==> forall p :: p in ps ==> PartUnsigned(p)
  {
    hide PartSize, PartText, PartUnsigned;
    if ps == [] {
    } else {
      var p := ps[0];
      PartsSizeExact(ps[1..]);
      PartSizeExact(p);
      assert ps == [p] + ps[1..];
    }
  }

  lemma {:induction false} ItemsSizeExact(items: seq<Item>)
    ensures ItemsSize(items) <= |ItemsText(items)|
    ensures ItemsSize(items) == |ItemsText(items)| <==> Unsigned(items)
  {
    hide PartUnsigned, PartsSize, PartText;
    if items == [] {
    } else {
      PartsSizeExact(items[0].parts);
      ItemsSizeExact(items[1..]);
      assert items == [items[0]] + items[1..];
      assert |ItemText(items[0])| == 2 + |Val(items[0])| + 2;
    }
  }

  // ---- The two enumerations agree ----

  lemma {:induction false} PartsSizeAppend(ps: seq<Part>, qs: seq<Part>)
    ensures PartsSize(ps + qs) == PartsSize(ps) + PartsSize(qs)
  {
    hide PartSize;
    if ps == [] {
      assert ps + qs == qs;
    } else {
      assert (ps + qs)[1..] == ps[1..] + qs;
      PartsSizeAppend(ps[1..], qs);
    }
  }

  lemma {:induction false} ItemsSizeAppend(xs: seq<Item>, ys: seq<Item>)
    ensures ItemsSize(xs + ys) == ItemsSize(xs) + ItemsSize(ys)
  {
    hide PartsSize;
    if xs == [] {
      assert xs + ys == ys;
    } else {
      assert (xs + ys)[1..] == xs[1..] + ys;
      ItemsSizeAppend(xs[1..], ys);
    }
  }

  lemma OneItem(i: Item)
    ensures ItemsSize([i]) == 2 + PartsSize(i.parts) + 2
  {
    hide PartsSize;
    assert [i][1..] == [];
  }

  lemma OnePart(p: Part)
    ensures PartsSize([p]) == PartSize(p)
  {
    assert [p][1..] == [];
  }

  lemma TwoPartsSize(p: Part, q: Part)
    ensures PartsSize([p, q]) == PartSize(p) + PartSize(q)
  {
    hide PartsSize;
    assert [p, q] == [p] + [q];
    PartsSizeAppend([p], [q]);
    OnePart(p);
    OnePart(q);
  }

  lemma TextItemSize(typ: char, s: string)
    ensures ItemsSize([TextItem(typ, s)]) == TextSize(s)
  {
    hide ItemsSize, PartsSize;
    OneItem(TextItem(typ, s));
    OnePart(Lit(s));
  }

  lemma OptionalItemSize(typ: char, s: string)
    ensures ItemsSize(OptionalItem(typ, s)) == OptionalSize(s)
  {
    if s != "" { TextItemSize(typ, s); }
  }

  lemma {:induction false} EachItemSize(typ: char, ss: seq<string>)
    ensures ItemsSize(EachItem(typ, ss)) == EachSize(ss)
  {
    hide PartsSize, TextItem;
    if ss == [] {
    } else {
      TextItemSize(typ, ss[0]);
      EachItemSize(typ, ss[1..]);
      ItemsSizeAppend([TextItem(typ, ss[0])], EachItem(typ, ss[1..]));
    }
  }

  lemma ConnectionItemsSize(c: Option<Connection>)
    ensures ItemsSize(ConnectionItems(c)) == ConnectionSize(c)
  {
    hide ItemsSize;
    NoItems();
    if c.Some? { TextItemSize('c', ConnectionText(c.value)); }
  }

  lemma NoItems()
    ensures ItemsSize([]) == 0
  {
  }

  lemma {:induction false} BandwidthItemsSize(bs: seq<Bandwidth>)
    ensures ItemsSize(BandwidthItems(bs)) == BandwidthsSize(bs)
  {
    hide PartsSize, DigitCount, ItemsSize;
    NoItems();
    if bs == [] {
    } else {
      var b := bs[0];
      OneItem(BandwidthItem(b));
      TwoPartsSize(Lit(b.kind + ":"), Num(b.value));
      BandwidthItemsSize(bs[1..]);
      ItemsSizeAppend([BandwidthItem(b)], BandwidthItems(bs[1..]));
    }
  }

  lemma {:induction false} OffsetPartsSize(os: seq<int64>)
    ensures PartsSize(OffsetParts(os)) == OffsetsSize(os)
  {
    hide DigitCount;
    if os == [] {
    } else {
      TwoPartsSize(Lit(" "), Num(os[0]));
      OffsetPartsSize(os[1..]);
      PartsSizeAppend([Lit(" "), Num(os[0])], OffsetParts(os[1..]));
    }
  }

  lemma ThreePartsSize(m: int64, n: int64)
    ensures PartsSize([Num(m), Lit(" "), Num(n)]) == DigitCount(m) + 1 + DigitCount(n)
  {
    hide PartsSize, DigitCount;
    assert [Num(m), Lit(" "), Num(n)] == [Num(m), Lit(" ")] + [Num(n)];
    PartsSizeAppend([Num(m), Lit(" ")], [Num(n)]);
    TwoPartsSize(Num(m), Lit(" "));
    OnePart(Num(n));
  }

  lemma RepeatItemSize(r: Repeat)
    ensures ItemsSize([RepeatItem(r)]) == RepeatSize(r)
  {
    hide ItemsSize, PartsSize, DigitCount, OffsetParts, OffsetsSize;
    OneItem(RepeatItem(r));
    ThreePartsSize(r.interval, r.duration);
    OffsetPartsSize(r.offsets);
    PartsSizeAppend([Num(r.interval), Lit(" "), Num(r.duration)], OffsetParts(r.offsets));
  }

  lemma {:induction false} RepeatItemsSize(rs: seq<Repeat>)
    ensures ItemsSize(RepeatItems(rs)) == RepeatsSize(rs)
  {
    hide ItemsSize, RepeatItem, RepeatSize;
    NoItems();
    if rs == [] {
    } else {
      RepeatItemSize(rs[0]);
      RepeatItemsSize(rs[1..]);
      ItemsSizeAppend([RepeatItem(rs[0])], RepeatItems(rs[1..]));
    }
  }

  lemma {:induction false} TimeItemsSize(ts: seq<Time>)
    ensures ItemsSize(TimeItems(ts)) == TimesSize(ts)
  {
    hide ItemsSize, PartsSize, DigitCount, RepeatItems, RepeatsSize;
    NoItems();
    if ts == [] {
    } else {
      var t := ts[0];
      OneItem(TimeItem(t));
      ThreePartsSize(t.start, t.stop);
      RepeatItemsSize(t.repeats);
      TimeItemsSize(ts[1..]);
      ItemsSizeAppend([TimeItem(t)] + RepeatItems(t.repeats), TimeItems(ts[1..]));
      ItemsSizeAppend([TimeItem(t)], RepeatItems(t.repeats));
    }
  }

  lemma TaggedItemSize(typ: char, key: string, value: string)
    ensures ItemsSize([TextItem(typ, Tagged(key, value))]) == TaggedSize(key, value)
  {
    hide ItemsSize;
    TextItemSize(typ, Tagged(key, value));
  }

  lemma EncryptionItemsSize(k: Option<EncryptionKey>)
    ensures ItemsSize(EncryptionItems(k)) == EncryptionSize(k)
  {
    hide ItemsSize;
    NoItems();
    if k.Some? { TaggedItemSize('k', k.value.scheme, k.value.key); }
  }

  lemma {:induction false} AttributeItemsSize(xs: seq<Attribute>)
    ensures ItemsSize(AttributeItems(xs)) == AttributesSize(xs)
  {
    hide ItemsSize, Tagged, TaggedSize;
    NoItems();
    if xs == [] {
    } else {
      TaggedItemSize('a', xs[0].key, xs[0].value);
      AttributeItemsSize(xs[1..]);
      ItemsSizeAppend([TextItem('a', Tagged(xs[0].key, xs[0].value))], AttributeItems(xs[1..]));
    }
  }

  /** joinLen is the length of what is joined. */
  lemma {:induction false} JoinLenExact(ss: seq<string>)
    ensures JoinLen(ss) == |Join(ss)|
    decreases |ss|
  {
    if |ss| <= 1 {
      assert ss != [] ==> ss[1..] == [];
    } else {
      JoinLenExact(ss[1..]);
    }
  }

  lemma MediaItemSize(m: Media)
    ensures ItemsSize([MediaItem(m)]) == MediaLineSize(m)
  {
    hide ItemsSize, PartsSize, DigitCount, Join, JoinLen;
    var a, b := [Lit(m.kind + " "), Num(m.port)], if m.portCount > 1 then [Lit("/"), Num(m.portCount)] else [];
    var last := Lit(" " + m.proto + " " + Join(m.formats));
    OneItem(MediaItem(m));
    PartsSizeAppend(a + b, [last]);
    PartsSizeAppend(a, b);
    TwoPartsSize(Lit(m.kind + " "), Num(m.port));
    TwoPartsSize(Lit("/"), Num(m.portCount));
    assert PartsSize([]) == 0 by { NoPartsSize(); }
    OnePart(last);
    JoinLenExact(m.formats);
  }

  lemma NoPartsSize()
    ensures PartsSize([]) == 0
  {
  }

  lemma MediaLinesSize(m: Media)
    ensures ItemsSize(MediaLines(m)) == MediaSize(m)
  {
    hide ItemsSize, MediaItem, MediaLineSize, OptionalItem, OptionalSize, ConnectionItems, ConnectionSize,
      BandwidthItems, BandwidthsSize, EncryptionItems, EncryptionSize, AttributeItems, AttributesSize;
    var a := AttributeItems(m.attributes);
    var k := EncryptionItems(m.encryption) + a;
    var b := BandwidthItems(m.bandwidths) + k;
    var c := ConnectionItems(m.connection) + b;
    var i := OptionalItem('i', m.title) + c;
    MediaItemSize(m);
    OptionalItemSize('i', m.title);
    ConnectionItemsSize(m.connection);
    BandwidthItemsSize(m.bandwidths);
    EncryptionItemsSize(m.encryption);
    AttributeItemsSize(m.attributes);
    ItemsSizeAppend([MediaItem(m)], i);
    ItemsSizeAppend(OptionalItem('i', m.title), c);
    ItemsSizeAppend(ConnectionItems(m.connection), b);
    ItemsSizeAppend(BandwidthItems(m.bandwidths), k);
    ItemsSizeAppend(EncryptionItems(m.encryption), a);
  }

  lemma {:induction false} MediaItemsSize(ms: seq<Media>)
    ensures ItemsSize(MediaItems(ms)) == MediasSize(ms)
  {
    hide ItemsSize, MediaLines, MediaSize;
    NoItems();
    if ms == [] {
    } else {
      MediaLinesSize(ms[0]);
      MediaItemsSize(ms[1..]);
      ItemsSizeAppend(MediaLines(ms[0]), MediaItems(ms[1..]));
    }
  }

  lemma HeadItemsSize(s: Session)
    ensures ItemsSize(HeadItems(s)) == 2 + DigitCount(s.version) + 2 + OriginSize(s.origin) + TextSize(s.name)
  {
    hide ItemsSize, PartsSize, DigitCount;
    var v, o, n := Item('v', [Num(s.version)]), TextItem('o', OriginText(s.origin)), TextItem('s', s.name);
    assert HeadItems(s) == [v] + [o] + [n];
    ItemsSizeAppend([v] + [o], [n]);
    ItemsSizeAppend([v], [o]);
    OneItem(v);
    OnePart(Num(s.version));
    TextItemSize('o', OriginText(s.origin));
    TextItemSize('s', s.name);
  }

  lemma LaterItemsSize(s: Session)
    ensures ItemsSize(LaterItems(s)) == ConnectionSize(s.connection) + BandwidthsSize(s.bandwidths) + TimesSize(s.times)
      + OptionalSize(s.timeZone) + EncryptionSize(s.encryption) + AttributesSize(s.attributes) + MediasSize(s.media)
  {
    hide ItemsSize, OptionalItem, OptionalSize, ConnectionItems, ConnectionSize, BandwidthItems, BandwidthsSize,
      EncryptionItems, EncryptionSize, AttributeItems, AttributesSize, TimeItems, TimesSize, MediaItems, MediasSize;
    var m := MediaItems(s.media);
    var a := AttributeItems(s.attributes) + m;
    var k := EncryptionItems(s.encryption) + a;
    var z := OptionalItem('z', s.timeZone) + k;
    var t := TimeItems(s.times) + z;
    var b := BandwidthItems(s.bandwidths) + t;
    ConnectionItemsSize(s.connection);
    BandwidthItemsSize(s.bandwidths);
    TimeItemsSize(s.times);
    OptionalItemSize('z', s.timeZone);
    EncryptionItemsSize(s.encryption);
    AttributeItemsSize(s.attributes);
    MediaItemsSize(s.media);
    ItemsSizeAppend(ConnectionItems(s.connection), b);
    ItemsSizeAppend(BandwidthItems(s.bandwidths), t);
    ItemsSizeAppend(TimeItems(s.times), z);
    ItemsSizeAppend(OptionalItem('z', s.timeZone), k);
    ItemsSizeAppend(EncryptionItems(s.encryption), a);
    ItemsSizeAppend(AttributeItems(s.attributes), m);
  }

  /** The field sums of MarshalSize measure the lines that marshalTo prints. */
  lemma SizeMeasures(s: Session)
    ensures Size(s) == ItemsSize(Items(s))
  {
    hide ItemsSize, HeadItems, OptionalItem, OptionalSize, EachItem, EachSize, LaterItems, ConnectionSize,
      BandwidthsSize, EncryptionSize, AttributesSize, TimesSize, MediasSize, OriginSize, TextSize, DigitCount;
    LaterItemsAre(s);
    var l := LaterItems(s);
    var p := EachItem('p', s.phones) + l;
    var e := EachItem('e', s.emails) + p;
    var u := OptionalItem('u', s.uri) + e;
    var i := OptionalItem('i', s.info) + u;
    HeadItemsSize(s);
    OptionalItemSize('i', s.info);
    OptionalItemSize('u', s.uri);
    EachItemSize('e', s.emails);
    EachItemSize('p', s.phones);
    LaterItemsSize(s);
    ItemsSizeAppend(HeadItems(s), i);
    ItemsSizeAppend(OptionalItem('i', s.info), u);
    ItemsSizeAppend(OptionalItem('u', s.uri), e);
    ItemsSizeAppend(EachItem('e', s.emails), p);
    ItemsSizeAppend(EachItem('p', s.phones), l);
  }

  /** MarshalSize is exact if and only if no printed number is negative; otherwise it is too small. */
  lemma SizeExact(s: Session)
    ensures Size(s) <= |Encoded(s)|
    ensures Size(s) == |Encoded(s)| <==> Unsigned(Items(s))
  {
    hide Items, Unsigned, ItemsSize, ItemsText, Size;
    SizeMeasures(s);
    ItemsSizeExact(Items(s));
  }
}
