/** SDP marshalling into a buffer and parsing from a reader, as proto/sdp.go runs them. */
module SdpCodec {
  import opened Octets
  import opened Text
  import opened Decimal
  import opened Sequences
  import opened Buffers
  import opened Readers
  import opened Sdp
  import opened SdpRoundTrip

  // ---- Sizes ----

  method EachMarshalSize(ss: seq<string>) returns (sz: nat)
    ensures sz == EachSize(ss)
  {
    sz := 0;
    for i := 0 to |ss|
      invariant sz + EachSize(ss[i..]) == EachSize(ss)
    {
      sz := sz + 2 + |ss[i]| + 2;
      assert ss[i..][1..] == ss[i + 1..];
    }
  }

  method BandwidthsMarshalSize(bs: seq<Bandwidth>) returns (sz: nat)
    ensures sz == BandwidthsSize(bs)
  {
    hide DigitCount;
    sz := 0;
    for i := 0 to |bs|
      invariant sz + BandwidthsSize(bs[i..]) == BandwidthsSize(bs)
    {
      var n := IntLen(bs[i].value);
      sz := sz + 2 + |bs[i].kind| + 1 + n + 2;
      assert bs[i..][1..] == bs[i + 1..];
    }
  }

  method RepeatMarshalSize(r: Repeat) returns (sz: nat)
    ensures sz == RepeatSize(r)
  {
    hide DigitCount;
    var m := IntLen(r.interval);
    var n := IntLen(r.duration);
    sz := 2 + m + 1 + n;
    ghost var start, os := sz, r.offsets;
    for i := 0 to |r.offsets|
      invariant sz + OffsetsSize(os[i..]) == start + OffsetsSize(os)
    {
      var k := IntLen(r.offsets[i]);
      sz := sz + 1 + k;
      assert os[i..][1..] == os[i + 1..];
    }
    sz := sz + 2;
  }

  /** Times, each with its repeats. */
  method TimesMarshalSize(ts: seq<Time>) returns (sz: nat)
    ensures sz == TimesSize(ts)
  {
    hide DigitCount, RepeatSize;
    sz := 0;
    for i := 0 to |ts|
      invariant sz + TimesSize(ts[i..]) == TimesSize(ts)
    {
      var m := IntLen(ts[i].start);
      var n := IntLen(ts[i].stop);
      assert ts[i..][1..] == ts[i + 1..];
      sz := sz + 2 + m + 1 + n + 2;
      var rs := ts[i].repeats;
      ghost var start := sz;
      for j := 0 to |rs|
        invariant sz + RepeatsSize(rs[j..]) == start + RepeatsSize(rs)
      {
        var k := RepeatMarshalSize(rs[j]);
        sz := sz + k;
        assert rs[j..][1..] == rs[j + 1..];
      }
    }
  }

  method AttributesMarshalSize(xs: seq<Attribute>) returns (sz: nat)
    ensures sz == AttributesSize(xs)
  {
    sz := 0;
    for i := 0 to |xs|
      invariant sz + AttributesSize(xs[i..]) == AttributesSize(xs)
    {
      sz := sz + 2 + |xs[i].key| + 2;
      if xs[i].value != "" { sz := sz + 1 + |xs[i].value|; }
      assert xs[i..][1..] == xs[i + 1..];
    }
  }

  /** joinLen: the separators, then a loop over the texts; the result is the width of the joined text. */
  method JoinedLength(ss: seq<string>) returns (n: nat)
    ensures n == JoinLen(ss) == |Join(ss)|
  {
    JoinLenExact(ss);
    if |ss| == 0 { return 0; }
    n := |ss| - 1;
    for i := 0 to |ss|
      invariant n + TotalLength(ss[i..]) == |ss| - 1 + TotalLength(ss)
    {
      n := n + |ss[i]|;
      assert ss[i..][1..] == ss[i + 1..];
    }
  }

  method EncryptionMarshalSize(k: Option<EncryptionKey>) returns (sz: nat)
    ensures sz == EncryptionSize(k)
  {
    sz := 0;
    if k.Some? {
      sz := sz + 2 + |k.value.scheme| + 2;
      if k.value.key != "" { sz := sz + 1 + |k.value.key|; }
    }
  }

  method MediaMarshalSize(m: Media) returns (sz: nat)
    ensures sz == MediaSize(m)
  {
    hide DigitCount, JoinLen, BandwidthsSize, AttributesSize, EncryptionSize;
    var port := IntLen(m.port);
    sz := 2 + |m.kind| + 1 + port;
    if m.portCount > 1 {
      var count := IntLen(m.portCount);
      sz := sz + 1 + count;
    }
    var formats := JoinedLength(m.formats);
    sz := sz + 1 + |m.proto| + 1 + formats + 2;
    if m.title != "" { sz := sz + 2 + |m.title| + 2; }
    if m.connection.Some? {
      var c := m.connection.value;
      sz := sz + 2 + |c.networkType| + 1 + |c.addressType| + 1 + |c.address| + 2;
    }
    var b := BandwidthsMarshalSize(m.bandwidths);
    var k := EncryptionMarshalSize(m.encryption);
    var a := AttributesMarshalSize(m.attributes);
    sz := sz + b + k + a;
  }

  method MediasMarshalSize(ms: seq<Media>) returns (sz: nat)
    ensures sz == MediasSize(ms)
  {
    hide MediaSize;
    sz := 0;
    for i := 0 to |ms|
      invariant sz + MediasSize(ms[i..]) == MediasSize(ms)
    {
      var n := MediaMarshalSize(ms[i]);
      sz := sz + n;
      assert ms[i..][1..] == ms[i + 1..];
    }
  }

  /** From v= to p=. */
  method EarlyMarshalSize(s: Session) returns (sz: nat)
    ensures sz == 2 + DigitCount(s.version) + 2 + OriginSize(s.origin) + TextSize(s.name)
               + OptionalSize(s.info) + OptionalSize(s.uri) + EachSize(s.emails) + EachSize(s.phones)
  {
    hide DigitCount, EachSize;
    var v := IntLen(s.version);
    sz := 2 + v + 2;
    var o := s.origin;
    sz := sz + 2 + |o.username| + 1 + |o.sessionId| + 1 + |o.sessionVersion| + 1 + |o.networkType| + 1 + |o.addressType|
      + 1 + |o.address| + 2;
    sz := sz + 2 + |s.name| + 2;
    if s.info != "" { sz := sz + 2 + |s.info| + 2; }
    if s.uri != "" { sz := sz + 2 + |s.uri| + 2; }
    var e := EachMarshalSize(s.emails);
    var p := EachMarshalSize(s.phones);
    sz := sz + e + p;
  }

  /** MarshalSize. */
  method MarshalSize(s: Session) returns (sz: nat)
    ensures sz == Size(s)
    ensures sz == |Encoded(s)| <==> Unsigned(Items(s))
  {
    hide DigitCount, BandwidthsSize, AttributesSize, EncryptionSize, TimesSize, EachSize, MediasSize, OriginSize,
      TextSize, Encoded, Unsigned, Items;
    SizeExact(s);
    sz := EarlyMarshalSize(s);
    if s.connection.Some? {
      var c := s.connection.value;
      sz := sz + 2 + |c.networkType| + 1 + |c.addressType| + 1 + |c.address| + 2;
    }
    var b := BandwidthsMarshalSize(s.bandwidths);
    var t := TimesMarshalSize(s.times);
    var z := 0;
    if s.timeZone != "" { z := 2 + |s.timeZone| + 2; }
    assert z == OptionalSize(s.timeZone) by { TextSizeIs(s.timeZone); }
    var k := EncryptionMarshalSize(s.encryption);
    var a := AttributesMarshalSize(s.attributes);
    var m := MediasMarshalSize(s.media);
    sz := sz + b + t + z + k + a + m;
  }

  lemma TextSizeIs(s: string)
    ensures TextSize(s) == 2 + |s| + 2
  {
  }

  // ---- Marshalling ----

  /** The session-level lines, field by field in the order of the source. */
  function SessionGroups(s: Session): (gs: seq<seq<Item>>) {
    [HeadItems(s), OptionalItem('i', s.info), OptionalItem('u', s.uri), EachItem('e', s.emails),
     EachItem('p', s.phones), ConnectionItems(s.connection), BandwidthItems(s.bandwidths), TimeItems(s.times),
     OptionalItem('z', s.timeZone), EncryptionItems(s.encryption), AttributeItems(s.attributes)]
  }

  function Joined(gs: seq<seq<Item>>): (r: seq<Item>) {
    if gs == [] then [] else Joined(gs[..|gs| - 1]) + gs[|gs| - 1]
  }

  lemma JoinedAppend(gs: seq<seq<Item>>, g: seq<Item>)
    ensures Joined(gs + [g]) == Joined(gs) + g
  {
    assert (gs + [g])[..|gs|] == gs;
  }

  lemma GroupsCover(s: Session)
    ensures Items(s) == Joined(SessionGroups(s)) + MediaItems(s.media)
  {
    hide MediaItems, HeadItems, OptionalItem, EachItem, ConnectionItems, BandwidthItems, TimeItems, EncryptionItems,
      AttributeItems, Joined;
    var h, i, u, e := HeadItems(s), OptionalItem('i', s.info), OptionalItem('u', s.uri), EachItem('e', s.emails);
    var p, c, b, t := EachItem('p', s.phones), ConnectionItems(s.connection), BandwidthItems(s.bandwidths),
      TimeItems(s.times);
    var z, k, a, m := OptionalItem('z', s.timeZone), EncryptionItems(s.encryption), AttributeItems(s.attributes),
      MediaItems(s.media);
    var q, w := h + i + u + e, p + c + b + t;
    JoinedFour([], h, i, u, e);
    JoinedNone();
    assert [] + [h, i, u, e] == [h, i, u, e] && [] + h + i + u + e == q;
    JoinedFour([h, i, u, e], p, c, b, t);
    assert [h, i, u, e] + [p, c, b, t] == [h, i, u, e, p, c, b, t];
    Unnest4(q, p, c, b, t);
    JoinedThree([h, i, u, e, p, c, b, t], z, k, a);
    assert SessionGroups(s) == [h, i, u, e, p, c, b, t] + [z, k, a];
    Unnest(h, i, u, e, p + (c + (b + (t + (z + (k + (a + m)))))));
    Unnest(p, c, b, t, z + (k + (a + m)));
    Nest(q + w, z, k, a + m);
    assert Items(s) == q + (w + (z + (k + (a + m))));
    assert q + (w + (z + (k + (a + m)))) == q + w + (z + (k + (a + m)));
    assert q + w + z + k + (a + m) == q + w + z + k + a + m;
  }

  lemma JoinedNone()
    ensures Joined([]) == []
  {
  }

  lemma JoinedThree(gs: seq<seq<Item>>, a: seq<Item>, b: seq<Item>, c: seq<Item>)
    ensures Joined(gs + [a, b, c]) == Joined(gs) + a + b + c
  {
    hide Joined;
    assert gs + [a, b, c] == gs + [a] + [b] + [c];
    JoinedAppend(gs, a);
    JoinedAppend(gs + [a], b);
    JoinedAppend(gs + [a] + [b], c);
  }

  lemma JoinedFour(gs: seq<seq<Item>>, a: seq<Item>, b: seq<Item>, c: seq<Item>, d: seq<Item>)
    ensures Joined(gs + [a, b, c, d]) == Joined(gs) + a + b + c + d
  {
    hide Joined;
    assert gs + [a, b, c, d] == gs + [a, b, c] + [d];
    JoinedThree(gs, a, b, c);
    JoinedAppend(gs + [a, b, c], d);
  }

  lemma Unnest<T>(a: seq<T>, b: seq<T>, c: seq<T>, d: seq<T>, e: seq<T>)
    ensures a + (b + (c + (d + e))) == (a + b + c + d) + e
  {
  }

  lemma Unnest4<T>(q: seq<T>, a: seq<T>, b: seq<T>, c: seq<T>, d: seq<T>)
    ensures q + a + b + c + d == q + (a + b + c + d)
  {
  }

  lemma Nest<T>(a: seq<T>, b: seq<T>, c: seq<T>, d: seq<T>)
    ensures a + (b + (c + d)) == a + b + c + d
  {
  }

  lemma ItemsTextAppend(xs: seq<Item>, ys: seq<Item>)
    ensures ItemsText(xs + ys) == ItemsText(xs) + ItemsText(ys)
  {
    ConcatMapAppend(ItemText, xs, ys);
  }

  lemma ItemsTextTake(items: seq<Item>, i: nat)
    requires i < |items|
    ensures ItemsText(items[..i + 1]) == ItemsText(items[..i]) + ItemText(items[i])
    ensures |ItemsText(items[..i + 1])| <= |ItemsText(items)|
  {
    ConcatMapTake(ItemText, items, i);
    ConcatMapPrefix(ItemText, items, i + 1);
  }

  lemma NothingPrinted()
    ensures ItemsText([]) == ""
  {
  }

  /** Writes a group of lines; a store past the end of the buffer panics. */
  method WriteGroup(buf: array<char>, ghost before: seq<char>, ghost done: seq<char>, pos: nat, items: seq<Item>)
    returns (r: Option<nat>)
    requires |before| == buf.Length && |done| <= buf.Length
    requires pos == |done| && buf[..] == Splice(before, 0, done)
    modifies buf
    ensures var out := done + ItemsText(items);
      && (r.Some? <==> |out| <= buf.Length)
      && (r.Some? ==> r.value == |out| && buf[..] == Splice(before, 0, out))
  {
    hide Splice, ItemsText, ItemText;
    var n := pos;
    assert items[..0] == [];
    NothingPrinted();
    assert done + "" == done;
    for i := 0 to |items|
      invariant n == |done + ItemsText(items[..i])| <= buf.Length
      invariant buf[..] == Splice(before, 0, done + ItemsText(items[..i]))
    {
      ItemsTextTake(items, i);
      ghost var sofar := ItemsText(items[..i]);
      assert done + (sofar + ItemText(items[i])) == done + sofar + ItemText(items[i]);
      var next := Put(buf, before, done + sofar, n, ItemText(items[i]));
      if next.None? { return None; }
      n := next.value;
    }
    assert items[..|items|] == items;
    r := Some(n);
  }

  lemma {:induction false} MediaItemsAppend(xs: seq<Media>, m: Media)
    ensures MediaItems(xs + [m]) == MediaItems(xs) + MediaLines(m)
  {
    hide MediaLines;
    if xs == [] {
      assert xs + [m] == [m] && [m][1..] == [];
      assert MediaItems([m]) == MediaLines(m) + [];
    } else {
      assert (xs + [m])[1..] == xs[1..] + [m];
      MediaItemsAppend(xs[1..], m);
    }
  }

  lemma {:induction false} MediaItemsSplit(xs: seq<Media>, ys: seq<Media>)
    ensures MediaItems(xs + ys) == MediaItems(xs) + MediaItems(ys)
  {
    hide MediaLines;
    if xs == [] {
      assert xs + ys == ys;
    } else {
      assert (xs + ys)[1..] == xs[1..] + ys;
      MediaItemsSplit(xs[1..], ys);
    }
  }

  method WriteMedia(buf: array<char>, ghost before: seq<char>, ghost done: seq<char>, pos: nat, ms: seq<Media>)
    returns (r: Option<nat>)
    requires |before| == buf.Length && |done| <= buf.Length
    requires pos == |done| && buf[..] == Splice(before, 0, done)
    modifies buf
    ensures var out := done + ItemsText(MediaItems(ms));
      && (r.Some? <==> |out| <= buf.Length)
      && (r.Some? ==> r.value == |out| && buf[..] == Splice(before, 0, out))
  {
    hide Splice, ItemsText, MediaLines, MediaItems;
    var n := pos;
    assert ms[..0] == [];
    assert MediaItems([]) == [] by { NoMedia(); }
    NothingPrinted();
    assert done + "" == done;
    for i := 0 to |ms|
      invariant n == |done + ItemsText(MediaItems(ms[..i]))| <= buf.Length
      invariant buf[..] == Splice(before, 0, done + ItemsText(MediaItems(ms[..i])))
    {
      ghost var sofar, now := ItemsText(MediaItems(ms[..i])), ItemsText(MediaLines(ms[i]));
      MediaTextTake(ms, i);
      assert done + (sofar + now) == done + sofar + now;
      var next := WriteGroup(buf, before, done + sofar, n, MediaLines(ms[i]));
      if next.None? { return None; }
      n := next.value;
    }
    assert ms[..|ms|] == ms;
    r := Some(n);
  }

  lemma NoMedia()
    ensures MediaItems([]) == []
  {
  }

  lemma MediaTextTake(ms: seq<Media>, i: nat)
    requires i < |ms|
    ensures ItemsText(MediaItems(ms[..i + 1])) == ItemsText(MediaItems(ms[..i])) + ItemsText(MediaLines(ms[i]))
    ensures |ItemsText(MediaItems(ms[..i + 1]))| <= |ItemsText(MediaItems(ms))|
  {
    hide ItemsText, MediaLines, MediaItems;
    assert ms[..i + 1] == ms[..i] + [ms[i]];
    MediaItemsAppend(ms[..i], ms[i]);
    ItemsTextAppend(MediaItems(ms[..i]), MediaLines(ms[i]));
    assert ms == ms[..i + 1] + ms[i + 1..];
    MediaItemsSplit(ms[..i + 1], ms[i + 1..]);
    ItemsTextAppend(MediaItems(ms[..i + 1]), MediaItems(ms[i + 1..]));
  }

  lemma {:induction false} JoinedGrows(gs: seq<seq<Item>>, i: nat)
    requires i <= |gs|
    ensures |ItemsText(Joined(gs[..i]))| <= |ItemsText(Joined(gs))|
    decreases |gs| - i
  {
    hide ItemsText, Joined;
    if i == |gs| {
      assert gs[..i] == gs;
    } else {
      assert gs[..i + 1] == gs[..i] + [gs[i]];
      JoinedAppend(gs[..i], gs[i]);
      ItemsTextAppend(Joined(gs[..i]), gs[i]);
      JoinedGrows(gs, i + 1);
    }
  }

  /** marshalTo. */
  method MarshalToImpl(buf: array<char>, s: Session) returns (r: Outcome<nat>)
    modifies buf
    ensures |Encoded(s)| > buf.Length ==> r == Panic
    ensures |Encoded(s)| <= buf.Length ==> r == Ok(|Encoded(s)|) && buf[..] == Splice(old(buf[..]), 0, Encoded(s))
  {
    hide Splice, ItemsText, Items, MediaItems, Joined, SessionGroups;
    ghost var before := buf[..];
    SpliceNothing(before, 0);
    var gs := SessionGroups(s);
    GroupsCover(s);
    ItemsTextAppend(Joined(gs), MediaItems(s.media));
    var n := 0;
    assert gs[..0] == [];
    JoinedNone();
    NothingPrinted();
    for i := 0 to |gs|
      invariant n == |ItemsText(Joined(gs[..i]))| <= buf.Length
      invariant buf[..] == Splice(before, 0, ItemsText(Joined(gs[..i])))
    {
      ghost var sofar := ItemsText(Joined(gs[..i]));
      assert gs[..i + 1] == gs[..i] + [gs[i]];
      JoinedAppend(gs[..i], gs[i]);
      ItemsTextAppend(Joined(gs[..i]), gs[i]);
      JoinedGrows(gs, i + 1);
      var next := WriteGroup(buf, before, sofar, n, gs[i]);
      if next.None? { return Panic; }
      n := next.value;
    }
    assert gs[..|gs|] == gs;
    var last := WriteMedia(buf, before, ItemsText(Joined(gs)), n, s.media);
    if last.None? { return Panic; }
    r := Ok(last.value);
  }

  /** MarshalTo: with no negative number, a buffer of the announced size is never left. */
  method MarshalTo(buf: array<char>, s: Session) returns (r: Outcome<nat>)
    modifies buf
    ensures buf.Length < Size(s) ==> r == Err(BufferTooSmall) && buf[..] == old(buf[..])
    ensures Size(s) <= buf.Length && Unsigned(Items(s)) ==>
      |Encoded(s)| == Size(s) && r == Ok(Size(s)) && buf[..] == Splice(old(buf[..]), 0, Encoded(s))
    ensures Size(s) <= buf.Length < |Encoded(s)| ==> r == Panic
  {
    hide Splice, Size, Encoded, Unsigned;
    var sz := MarshalSize(s);
    if buf.Length < sz { return Err(BufferTooSmall); }
    r := MarshalToImpl(buf, s);
  }

  /** Marshal succeeds exactly when no printed number is negative, and then prints the whole description. */
  method Marshal(s: Session) returns (r: Outcome<string>)
    ensures r == if Unsigned(Items(s)) then Ok(Encoded(s)) else Panic
  {
    hide Splice, Size, Encoded, Unsigned;
    SizeExact(s);
    var sz := MarshalSize(s);
    var buf := new char[sz];
    ghost var before := buf[..];
    var n := MarshalToImpl(buf, s);
    if !n.Ok? { return Panic; }
    SpliceAll(before, Encoded(s));
    r := Ok(buf[..]);
  }

  // ---- Parsing ----

  function Behind(acc: seq<int64>, r: Outcome<seq<int64>>): (s: Outcome<seq<int64>>) {
    if r.Ok? then Ok(acc + r.value) else r
  }

  lemma BehindNothing(r: Outcome<seq<int64>>)
    ensures Behind([], r) == r
  {
    if r.Ok? { assert [] + r.value == r.value; }
  }

  lemma BehindOne(acc: seq<int64>, x: int64, r: Outcome<seq<int64>>)
    ensures Behind(acc, if r.Ok? then Ok([x] + r.value) else r) == Behind(acc + [x], r)
  {
    if r.Ok? { assert acc + ([x] + r.value) == acc + [x] + r.value; }
  }

  method UnmarshalRepeat(val: string) returns (r: Outcome<Repeat>)
    ensures r == DecodedRepeat(val)
  {
    hide Cut, SkipBlanks, Atoi;
    var a := Cut(val, ' ');
    if !a.found { return Err(BadRepeat); }
    var b := Cut(SkipBlanks(a.after), ' ');
    if !b.found { return Err(BadRepeat); }
    var interval := Atoi(a.before);
    if interval.None? { return Err(BadRepeat); }
    var duration := Atoi(b.before);
    if duration.None? { return Err(BadRepeat); }
    var offsets: seq<int64> := [];
    var rest := SkipBlanks(b.after);
    ghost var all := DecodedOffsets(rest);
    assert all == Behind([], all) by { BehindNothing(all); }
    while rest != ""
      invariant all == Behind(offsets, DecodedOffsets(rest))
      decreases |rest|
    {
      var c := Cut(rest, ' ');
      var n := Atoi(c.before);
      if n.None? { return Err(BadRepeat); }
      BehindOne(offsets, n.value, DecodedOffsets(SkipBlanks(c.after)));
      offsets := offsets + [n.value];
      SkipShrinks(c.after);
      rest := SkipBlanks(c.after);
    }
    assert offsets + [] == offsets;
    r := Ok(Repeat(interval.value, duration.value, offsets));
  }

  lemma SkipShrinks(s: string)
    ensures |SkipBlanks(s)| <= |s|
  {
  }

  /** unmarshalSessionLine: the switch over line types. */
  method UnmarshalSessionLine(s: Session, typ: char, val: string) returns (r: Outcome<Session>)
    ensures r == SessionLine(s, typ, val)
  {
    hide DecodedOrigin, DecodedConnection, DecodedBandwidth, DecodedTime, DecodedRepeat;
    match typ {
      case 'o' =>
        var o := DecodedOrigin(val);
        if o.Err? { return Err(o.error); }
        return Ok(s.(origin := o.value));
      case 's' => return Ok(s.(name := val));
      case 'i' => return Ok(s.(info := val));
      case 'u' => return Ok(s.(uri := val));
      case 'e' => return Ok(s.(emails := s.emails + [val]));
      case 'p' => return Ok(s.(phones := s.phones + [val]));
      case 'c' =>
        var c := DecodedConnection(val);
        if c.Err? { return Err(c.error); }
        return Ok(s.(connection := Some(c.value)));
      case 'b' =>
        var b := DecodedBandwidth(val);
        if b.Err? { return Err(b.error); }
        return Ok(s.(bandwidths := s.bandwidths + [b.value]));
      case 't' =>
        var t := DecodedTime(val);
        if t.Err? { return Err(t.error); }
        return Ok(s.(times := s.times + [t.value]));
      case 'r' =>
        if s.times == [] { return Err(RepeatBeforeTime); }
        var rep := UnmarshalRepeat(val);
        if rep.Err? { return Err(rep.error); }
        var last := |s.times| - 1;
        var t := s.times[last];
        return Ok(s.(times := s.times[last := t.(repeats := t.repeats + [rep.value])]));
      case 'z' => return Ok(s.(timeZone := val));
      case 'k' => return Ok(s.(encryption := Some(DecodedEncryption(val))));
      case 'a' => return Ok(s.(attributes := s.attributes + [DecodedAttribute(val)]));
      case _ => return Err(UnknownField);
    }
  }

  /** UnmarshalSDP. */
  method Unmarshal(r: Reader) returns (res: Outcome<Session>)
    modifies r
    ensures res == Decoded(old(r.rest))
  {
    hide Line, TrimSpace, DecodedMedia, MediaLine, SessionLine, Atoi, Checked;
    var p := Parse(EMPTY, false);
    var seenFirstLine := false;
    while true
      invariant !seenFirstLine ==> r.rest == old(r.rest) && p == Parse(EMPTY, false)
      invariant seenFirstLine ==> old(r.rest) != ""
      invariant DecodedLines(r.rest, p) == DecodedLines(old(r.rest), Parse(EMPTY, false))
      decreases |r.rest|
    {
      var got := r.ReadLine();
      if got.None? {
        if !seenFirstLine { return Err(EmptyBody); }
        break;
      }
      seenFirstLine := true;
      var line := TrimSpace(got.value);
      if line == "" { continue; }
      if |line| < 3 || line[1] != '=' { return Err(MalformedLine); }
      var typ, val := line[0], line[2..];
      var s := p.session;
      if typ == 'm' {
        var m := DecodedMedia(val);
        if m.Err? { return Err(m.error); }
        p := p.(session := s.(media := s.media + [m.value]));
        continue;
      }
      if typ == 'v' {
        if p.seenVersion { return Err(DuplicateVersion); }
        var n := Atoi(TrimSpace(val));
        if n.None? { return Err(InvalidVersion); }
        p := Parse(s.(version := n.value), true);
        continue;
      }
      if s.media != [] {
        var last := |s.media| - 1;
        var m := MediaLine(s.media[last], typ, val);
        if m.Err? { return Err(m.error); }
        p := p.(session := s.(media := s.media[last := m.value]));
      } else {
        var t := UnmarshalSessionLine(s, typ, val);
        if t.Err? { return Err(t.error); }
        p := p.(session := t.value);
      }
    }
    assert DecodedLines("", p) == Ok(p);
    res := Checked(p);
  }
}
