/** RTCP octet by octet, with the numbers of section 6 of RFC 3550: what a compound packet says, and what is printed. */
module RtcpWire {
  import opened Octets
  import opened Sequences
  import opened Rtcp
  import RtcpRoundTrip

  // ---- What octets say ----

  /** A report block stands at offset at. */
  predicate ReportStands(f: seq<byte>, at: nat, r: ReceptionReport) {
    && at + 24 <= |f|
    && U32At(f, at) == r.ssrc && f[at + 4] == r.fractionLost && U24At(f, at + 5) == r.totalLost
    && U32At(f, at + 8) == r.lastSequenceNumber && U32At(f, at + 12) == r.jitter
    && U32At(f, at + 16) == r.lastSenderReport && U32At(f, at + 20) == r.delay
  }

  predicate ReportsStand(f: seq<byte>, at: nat, rs: seq<ReceptionReport>) {
    at + 24 * |rs| <= |f| && forall i :: 0 <= i < |rs| ==> ReportStands(f, at + 24 * i, rs[i])
  }

  predicate SourcesStand(f: seq<byte>, at: nat, ss: seq<u32>) {
    at + 4 * |ss| <= |f| && forall i :: 0 <= i < |ss| ==> U32At(f, at + 4 * i) == ss[i]
  }

  /** Items one after the other: a type that is not zero, a length, that many octets. */
  predicate ItemsStand(s: seq<byte>, items: seq<SdesItem>)
    decreases |items|
  {
    items == [] ||
    (|s| >= 2 && s[0] == items[0].typ != 0 && s[1] == |items[0].text| && 2 + s[1] as nat <= |s|
     && s[2..2 + s[1] as nat] == items[0].text && ItemsStand(s[2 + s[1] as nat..], items[1..]))
  }

  /** The items of a chunk end at a zero octet, or where the packet ends. */
  predicate ItemsFill(s: seq<byte>, items: seq<SdesItem>) {
    ItemsStand(s, items) && ItemsSize(items) <= |s| && (ItemsSize(items) < |s| ==> s[ItemsSize(items)] == 0)
  }

  /** Octets of a chunk up to the next 32-bit boundary. */
  function ChunkEnd(s: seq<byte>, items: seq<SdesItem>): (n: nat) {
    (4 + ItemsSize(items) + (if 4 + ItemsSize(items) < |s| then 1 else 0) + 3) / 4 * 4
  }

  predicate ChunksStand(s: seq<byte>, chunks: seq<SdesChunk>)
    decreases |chunks|
  {
    chunks == [] ||
    (|s| >= 4 && U32At(s, 0) == chunks[0].source && ItemsFill(s[4..], chunks[0].items)
     && ChunkEnd(s, chunks[0].items) <= |s| && ChunksStand(s[ChunkEnd(s, chunks[0].items)..], chunks[1..]))
  }

  /** The reason of a BYE: a length and that many octets, or nothing at all. */
  predicate ReasonStands(s: seq<byte>, reason: seq<byte>) {
    if s == [] then reason == [] else 1 + s[0] as nat <= |s| && reason == s[1..1 + s[0] as nat]
  }

  /** APP data ends before the padding that its last octet announces, if it can. */
  predicate DataStands(padding: bool, s: seq<byte>, data: seq<byte>) {
    var n := if s == [] then 0 else s[|s| - 1];
    data == if padding && 0 < n <= |s| then s[..|s| - n] else s
  }

  /** The whole frame f of a packet says c. */
  predicate Says(f: seq<byte>, c: Content)
    requires |f| >= 4
  {
    var count := f[0] as nat % 32;
    match c
    case SenderReport(ssrc, ntpTime, rtpTime, packetCount, octetCount, reports, extensions) =>
      && f[1] == 200 && |reports| == count && 28 + 24 * count <= |f|
      && U32At(f, 4) == ssrc && U64At(f, 8) == ntpTime && U32At(f, 16) == rtpTime
      && U32At(f, 20) == packetCount && U32At(f, 24) == octetCount
      && ReportsStand(f, 28, reports) && extensions == f[28 + 24 * count..]
    case ReceiverReport(ssrc, reports, extensions) =>
      && f[1] == 201 && |reports| == count && 8 + 24 * count <= |f|
      && U32At(f, 4) == ssrc && ReportsStand(f, 8, reports) && extensions == f[8 + 24 * count..]
    case SourceDescription(chunks) => f[1] == 202 && |chunks| == count && ChunksStand(f[4..], chunks)
    case Goodbye(sources, reason) =>
      && f[1] == 203 && |sources| == count && 4 + 4 * count <= |f|
      && SourcesStand(f, 4, sources) && ReasonStands(f[4 + 4 * count..], reason)
    case ApplicationDefined(subType, ssrc, name, data) =>
      && f[1] == 204 && subType == count && |f| >= 12
      && U32At(f, 4) == ssrc && name == f[8..12] && DataStands(f[0] / 32 % 2 == 1, f[12..], data)
    case RawRtcp(data) => (f[1] < 200 || f[1] > 204) && data == f[4..]
  }

  predicate HeaderSays(f: seq<byte>, h: Header)
    requires |f| >= 4
  {
    && f[0] / 64 == 2 && (h.padding <==> f[0] / 32 % 2 == 1) && h.count == f[0] % 32 && h.typ == f[1]
    && h.length == U16At(f, 2)
  }

  /** d is made of frames that say ps, one after the other, each as long as its header declares. */
  predicate CompoundSays(d: seq<byte>, ps: seq<Packet>)
    decreases |ps|
  {
    if ps == [] then d == []
    else
      && |d| >= 4 && HeaderSays(d, ps[0].hdr)
      && var n := 4 * (U16At(d, 2) as nat + 1);
      n <= |d| && Says(d[..n], ps[0].content) && CompoundSays(d[n..], ps[1..])
  }

  // ---- Parsing ----

  lemma Shifted(f: seq<byte>, k: nat, at: nat)
    requires k <= |f|
    ensures at + 2 <= |f| - k ==> U16At(f[k..], at) == U16At(f, k + at)
    ensures at + 3 <= |f| - k ==> U24At(f[k..], at) == U24At(f, k + at)
    ensures at + 4 <= |f| - k ==> U32At(f[k..], at) == U32At(f, k + at)
    ensures at + 8 <= |f| - k ==> U64At(f[k..], at) == U64At(f, k + at)
  {
  }

  lemma ReportShifted(f: seq<byte>, k: nat, at: nat, r: ReceptionReport)
    requires k <= |f|
    ensures ReportStands(f[k..], at, r) <==> ReportStands(f, k + at, r)
  {
    hide U32At, U24At;
    Shifted(f, k, at);
    Shifted(f, k, at + 5);
    Shifted(f, k, at + 8);
    Shifted(f, k, at + 12);
    Shifted(f, k, at + 16);
    Shifted(f, k, at + 20);
  }

  lemma ReportIs(f: seq<byte>, r: ReceptionReport)
    requires |f| >= 24
    ensures ReportAt(f) == r <==> ReportStands(f, 0, r)
  {
    hide U32At, U24At;
  }

  lemma ReportsShifted(f: seq<byte>, k: nat, at: nat, rs: seq<ReceptionReport>)
    requires k <= |f|
    ensures ReportsStand(f[k..], at, rs) <==> ReportsStand(f, k + at, rs)
  {
    hide ReportStands;
    forall i | 0 <= i < |rs|
      ensures ReportStands(f[k..], at + 24 * i, rs[i]) <==> ReportStands(f, k + at + 24 * i, rs[i])
    {
      ReportShifted(f, k, at + 24 * i, rs[i]);
    }
  }

  lemma ReportsCons(s: seq<byte>, rs: seq<ReceptionReport>)
    requires rs != [] && |s| >= 24
    ensures ReportsStand(s, 0, rs) <==> ReportStands(s, 0, rs[0]) && ReportsStand(s[24..], 0, rs[1..])
  {
    hide ReportStands;
    ReportsShifted(s, 24, 0, rs[1..]);
    if ReportStands(s, 0, rs[0]) && ReportsStand(s, 24, rs[1..]) {
      forall i | 0 <= i < |rs| ensures ReportStands(s, 0 + 24 * i, rs[i]) {
        if i > 0 { assert rs[1..][i - 1] == rs[i] && 24 + 24 * (i - 1) == 24 * i; }
      }
    }
    if ReportsStand(s, 0, rs) {
      forall i | 0 <= i < |rs[1..]| ensures ReportStands(s, 24 + 24 * i, rs[1..][i]) {
        assert ReportStands(s, 0 + 24 * (i + 1), rs[i + 1]);
      }
      assert ReportStands(s, 0 + 24 * 0, rs[0]);
    }
  }

  lemma {:induction false} ReportsExactly(s: seq<byte>, n: nat, rs: seq<ReceptionReport>)
    ensures DecodedReports(s, n) == Ok(rs) <==> |rs| == n && 24 * n <= |s| && ReportsStand(s, 0, rs)
    decreases n
  {
    hide ReportAt, ReportStands;
    if n == 0 {
    } else if |s| < 24 {
    } else if rs == [] {
    } else {
      ReportStep(s, n);
      ReportsExactly(s[24..], n - 1, rs[1..]);
      ReportsCons(s, rs);
      ReportIs(s, rs[0]);
      var r := DecodedReports(s[24..], n - 1);
      if r.Ok? { assert [ReportAt(s)] + r.value == rs <==> ReportAt(s) == rs[0] && r.value == rs[1..]; }
    }
  }

  lemma SourcesShifted(f: seq<byte>, k: nat, at: nat, ss: seq<u32>)
    requires k <= |f|
    ensures SourcesStand(f[k..], at, ss) <==> SourcesStand(f, k + at, ss)
  {
    hide U32At;
    forall i | 0 <= i < |ss| && k + at + 4 * |ss| <= |f| ensures U32At(f[k..], at + 4 * i) == U32At(f, k + at + 4 * i) {
      Shifted(f, k, at + 4 * i);
    }
  }

  lemma SourcesCons(s: seq<byte>, ss: seq<u32>)
    requires ss != [] && |s| >= 4
    ensures SourcesStand(s, 0, ss) <==> U32At(s, 0) == ss[0] && SourcesStand(s[4..], 0, ss[1..])
  {
    hide U32At;
    SourcesShifted(s, 4, 0, ss[1..]);
    if U32At(s, 0) == ss[0] && SourcesStand(s, 4, ss[1..]) {
      forall i | 0 <= i < |ss| ensures U32At(s, 0 + 4 * i) == ss[i] {
        if i > 0 { assert ss[1..][i - 1] == ss[i] && 4 + 4 * (i - 1) == 4 * i; }
      }
    }
    if SourcesStand(s, 0, ss) {
      forall i | 0 <= i < |ss[1..]| ensures U32At(s, 4 + 4 * i) == ss[1..][i] {
        assert U32At(s, 0 + 4 * (i + 1)) == ss[i + 1];
      }
      assert U32At(s, 0 + 4 * 0) == ss[0];
    }
  }

  lemma {:induction false} SourcesExactly(s: seq<byte>, n: nat, ss: seq<u32>)
    ensures DecodedSources(s, n) == Ok(ss) <==> |ss| == n && 4 * n <= |s| && SourcesStand(s, 0, ss)
    decreases n
  {
    hide U32At;
    if n == 0 {
    } else if |s| < 4 {
    } else if ss == [] {
    } else {
      SourceStep(s, n);
      SourcesExactly(s[4..], n - 1, ss[1..]);
      SourcesCons(s, ss);
      var r := DecodedSources(s[4..], n - 1);
      if r.Ok? { assert [U32At(s, 0)] + r.value == ss <==> U32At(s, 0) == ss[0] && r.value == ss[1..]; }
    }
  }

  /** Octets that items take, END octet included where there is one. */
  function ItemsTaken(s: seq<byte>, items: seq<SdesItem>): (n: nat) {
    ItemsSize(items) + if ItemsSize(items) < |s| then 1 else 0
  }

  lemma FillCons(s: seq<byte>, items: seq<SdesItem>)
    requires items != []
    ensures ItemsFill(s, items) <==>
      && |s| >= 2 && s[0] == items[0].typ != 0 && s[1] == |items[0].text| && 2 + s[1] as nat <= |s|
      && s[2..2 + s[1] as nat] == items[0].text && ItemsFill(s[2 + s[1] as nat..], items[1..])
    ensures ItemsFill(s, items) ==>
      ItemsTaken(s, items) == 2 + s[1] as nat + ItemsTaken(s[2 + s[1] as nat..], items[1..])
  {
    if |s| >= 2 && s[1] == |items[0].text| && 2 + s[1] as nat <= |s| {
      var n, k := 2 + s[1] as nat, ItemsSize(items[1..]);
      assert ItemsSize(items) == n + k;
      if k < |s[n..]| { assert s[n..][k] == s[n + k]; }
    }
  }

  lemma {:induction false} ItemsExactly(s: seq<byte>, items: seq<SdesItem>, k: nat)
    ensures DecodedItems(s) == Ok((items, k)) <==> ItemsFill(s, items) && k == ItemsTaken(s, items)
    decreases |s|
  {
    hide DecodedItems, ItemsFill, ItemsTaken;
    if s == [] || s[0] == 0 {
      ItemsEnd(s);
      EndFills(s, items);
    } else if |s| < 2 || |s| < 2 + s[1] as nat {
      ItemFails(s);
      TruncatedFills(s, items);
    } else if items == [] {
      var used := 2 + s[1] as nat;
      ItemStep(s, used);
      EndFills(s, items);
    } else {
      var used := 2 + s[1] as nat;
      ItemStep(s, used);
      var r := DecodedItems(s[used..]);
      FillCons(s, items);
      if k >= used { ItemsExactly(s[used..], items[1..], k - used); }
      if r.Ok? {
        ItemsExactly(s[used..], r.value.0, r.value.1);
        var first := SdesItem(s[0], s[2..used]);
        assert [first] + r.value.0 == items <==> first == items[0] && r.value.0 == items[1..];
      }
    }
  }

  lemma EndFills(s: seq<byte>, items: seq<SdesItem>)
    ensures s == [] || s[0] == 0 ==> (ItemsFill(s, items) <==> items == [])
    ensures s != [] && s[0] != 0 && items == [] ==> !ItemsFill(s, items)
    ensures ItemsTaken(s, []) == if s == [] then 0 else 1
  {
  }

  lemma TruncatedFills(s: seq<byte>, items: seq<SdesItem>)
    requires |s| >= 1 && s[0] != 0 && (|s| < 2 || |s| < 2 + s[1] as nat)
    ensures !ItemsFill(s, items)
  {
  }

  lemma {:induction false} ChunksExactly(s: seq<byte>, n: nat, chunks: seq<SdesChunk>)
    requires |s| % 4 == 0
    ensures DecodedChunks(s, n) == Ok(chunks) <==> |chunks| == n && ChunksStand(s, chunks)
    decreases n
  {
    hide DecodedChunks, DecodedItems, ItemsFill, ItemsSize, U32At, Align4;
    if n == 0 {
      ChunksDone(s);
    } else if |s| < 4 {
      ChunksTooShort(s, n);
    } else if chunks == [] {
    } else {
      var c := chunks[0];
      var t := s[4..];
      if DecodedItems(t).Err? {
        ChunkFails(s, n);
        ItemsExactly(t, c.items, ItemsTaken(t, c.items));
      } else {
        var (items, k) := DecodedItems(t).value;
        var used := Align4(4 + k);
        AlignWithin(4 + k, |s|);
        ChunkStep(s, n, items, k, used);
        ItemsExactly(t, items, k);
        ItemsExactly(t, c.items, k);
        ItemsExactly(t, c.items, ItemsTaken(t, c.items));
        ChunkEndIs(s, items, k);
        ChunksExactly(s[used..], n - 1, chunks[1..]);
        var first, r := SdesChunk(U32At(s, 0), items), DecodedChunks(s[used..], n - 1);
        if r.Ok? { assert [first] + r.value == chunks <==> first == c && r.value == chunks[1..]; }
      }
    }
  }

  lemma ChunkEndIs(s: seq<byte>, items: seq<SdesItem>, k: nat)
    requires |s| >= 4 && k == ItemsTaken(s[4..], items)
    ensures ChunkEnd(s, items) == Align4(4 + k)
  {
  }

  // ---- One frame ----

  lemma SenderExactly(h: Header, f: seq<byte>, c: Content)
    requires |f| >= 4 && f[1] == 200 && h.count == f[0] % 32
    ensures DecodedSender(h, f[4..]) == Ok(c) <==> Says(f, c)
  {
    hide DecodedReports, U32At, U64At, ReportsStand;
    var b := f[4..];
    if |b| >= 24 {
      assert b[24..] == f[28..];
      var r := DecodedReports(b[24..], h.count);
      if r.Ok? {
        ReportsExactly(b[24..], h.count, r.value);
        assert b[24 + 24 * |r.value|..] == f[28 + 24 * |r.value|..];
      }
      if c.SenderReport? {
        ReportsExactly(b[24..], h.count, c.reports);
        ReportsShifted(f, 28, 0, c.reports);
      }
      Shifted(f, 4, 0);
      Shifted(f, 4, 4);
      Shifted(f, 4, 12);
      Shifted(f, 4, 16);
      Shifted(f, 4, 20);
    }
  }

  lemma ReceiverExactly(h: Header, f: seq<byte>, c: Content)
    requires |f| >= 4 && f[1] == 201 && h.count == f[0] % 32
    ensures DecodedReceiver(h, f[4..]) == Ok(c) <==> Says(f, c)
  {
    hide DecodedReports, U32At, U64At, ReportsStand;
    var b := f[4..];
    if |b| >= 4 {
      assert b[4..] == f[8..];
      var r := DecodedReports(b[4..], h.count);
      if r.Ok? {
        ReportsExactly(b[4..], h.count, r.value);
        assert b[4 + 24 * |r.value|..] == f[8 + 24 * |r.value|..];
      }
      if c.ReceiverReport? {
        ReportsExactly(b[4..], h.count, c.reports);
        ReportsShifted(f, 8, 0, c.reports);
      }
      Shifted(f, 4, 0);
    }
  }

  lemma DescriptionExactly(h: Header, f: seq<byte>, c: Content)
    requires |f| >= 4 && |f| % 4 == 0 && f[1] == 202 && h.count == f[0] % 32
    ensures DecodedDescription(h, f[4..]) == Ok(c) <==> Says(f, c)
  {
    hide DecodedChunks, ChunksStand;
    var r := DecodedChunks(f[4..], h.count);
    if r.Ok? { ChunksExactly(f[4..], h.count, r.value); }
    if c.SourceDescription? { ChunksExactly(f[4..], h.count, c.chunks); }
  }

  lemma GoodbyeExactly(h: Header, f: seq<byte>, c: Content)
    requires |f| >= 4 && f[1] == 203 && h.count == f[0] % 32
    ensures DecodedGoodbye(h, f[4..]) == Ok(c) <==> Says(f, c)
  {
    hide DecodedSources, SourcesStand, U32At;
    var b := f[4..];
    var r := DecodedSources(b, h.count);
    if r.Ok? {
      SourcesExactly(b, h.count, r.value);
      assert b[4 * |r.value|..] == f[4 + 4 * |r.value|..];
    }
    if c.Goodbye? {
      SourcesExactly(b, h.count, c.sources);
      SourcesShifted(f, 4, 0, c.sources);
    }
  }

  lemma ApplicationExactly(h: Header, f: seq<byte>, c: Content)
    requires |f| >= 4 && f[1] == 204 && h.count == f[0] % 32 && (h.padding <==> f[0] / 32 % 2 == 1)
    ensures DecodedApplication(h, f[4..]) == Ok(c) <==> Says(f, c)
  {
    hide U32At;
    var b := f[4..];
    if |b| >= 8 {
      Shifted(f, 4, 0);
      assert b[4..8] == f[8..12] && b[8..] == f[12..];
    }
  }

  /** A frame decodes to c if and only if it says c. */
  lemma FrameExactly(h: Header, f: seq<byte>, c: Content)
    requires |f| >= 4 && |f| % 4 == 0 && HeaderSays(f, h)
    ensures DecodedContent(h, f[4..]) == Ok(c) <==> Says(f, c)
  {
    hide DecodedSender, DecodedReceiver, DecodedDescription, DecodedGoodbye, DecodedApplication, U16At;
    match f[1] {
      case 200 => SenderExactly(h, f, c);
      case 201 => ReceiverExactly(h, f, c);
      case 202 => DescriptionExactly(h, f, c);
      case 203 => GoodbyeExactly(h, f, c);
      case 204 => ApplicationExactly(h, f, c);
      case _ => RawExactly(f, c);
    }
  }

  lemma RawExactly(f: seq<byte>, c: Content)
    requires |f| >= 4 && (f[1] < 200 || f[1] > 204)
    ensures RawRtcp(f[4..]) == c <==> Says(f, c)
  {
  }

  lemma HeaderExactly(d: seq<byte>, h: Header)
    requires |d| >= 4
    ensures DecodedHeader(d) == Ok(h) <==> HeaderSays(d, h)
  {
    hide U16At;
  }

  // ---- Compound packets ----

  lemma WalkCons(d: seq<byte>, h: Header, c: Content, more: seq<Packet>)
    requires |d| >= 4
    ensures Walk(d) == Parsed([Packet(h, c)] + more, None) <==>
      && DecodedHeader(d) == Ok(h) && PacketLength(h) <= |d|
      && DecodedContent(h, d[4..PacketLength(h)]) == Ok(c)
      && Walk(d[PacketLength(h)..]) == Parsed(more, None)
  {
    hide DecodedHeader, DecodedContent;
    var w := Walk(d);
    if w.packets != [] {
      assert w.packets == [w.packets[0]] + w.packets[1..];
      assert w.packets == [Packet(h, c)] + more <==> w.packets[0] == Packet(h, c) && w.packets[1..] == more;
    }
  }

  lemma WalkNothing(d: seq<byte>)
    ensures Walk(d) == Parsed([], None) <==> d == []
  {
    hide DecodedHeader, DecodedContent;
  }

  lemma WalkShort(d: seq<byte>)
    requires |d| < 4
    ensures Walk(d).packets == []
  {
  }

  lemma {:induction false} WalkExactly(d: seq<byte>, ps: seq<Packet>)
    ensures Walk(d) == Parsed(ps, None) <==> CompoundSays(d, ps)
    decreases |ps|
  {
    hide Walk, DecodedHeader, DecodedContent, Says, U16At;
    if ps == [] {
      WalkNothing(d);
    } else if |d| < 4 {
      WalkShort(d);
    } else {
      var h, c := ps[0].hdr, ps[0].content;
      assert ps == [Packet(h, c)] + ps[1..];
      WalkCons(d, h, c, ps[1..]);
      HeaderExactly(d, h);
      var n := PacketLength(h);
      if n <= |d| && HeaderSays(d, h) {
        assert d[..n][4..] == d[4..n];
        assert HeaderSays(d[..n], h) by { HeaderOfFrame(d, n, h); }
        FrameExactly(h, d[..n], c);
        WalkExactly(d[n..], ps[1..]);
      }
    }
  }

  lemma HeaderOfFrame(d: seq<byte>, n: nat, h: Header)
    requires 4 <= n <= |d|
    ensures HeaderSays(d[..n], h) <==> HeaderSays(d, h)
  {
  }

  /** UnmarshalRTCP succeeds with ps if and only if the octets, read by the numbers of the standard, say ps. */
  lemma ParsesExactly(d: seq<byte>, ps: seq<Packet>)
    ensures Decoded(d) == Parsed(ps, None) <==> d != [] && CompoundSays(d, ps)
  {
    hide Walk, CompoundSays;
    WalkExactly(d, ps);
  }

  lemma WalkFrame(d: seq<byte>, rest: seq<byte>, p: Packet)
    requires |d| >= 4 && HeaderSays(d, p.hdr) && 4 * (U16At(d, 2) as nat + 1) <= |d|
    requires Says(d[..4 * (U16At(d, 2) as nat + 1)], p.content)
    ensures var w := Walk(d[4 * (U16At(d, 2) as nat + 1)..] + rest);
      Walk(d + rest) == Parsed([p] + w.packets, w.err)
  {
    hide DecodedHeader, DecodedContent, Says, U16At;
    var n := 4 * (U16At(d, 2) as nat + 1);
    var e := d + rest;
    assert e[..|d|] == d && e[4..n] == d[..n][4..] && e[n..] == d[n..] + rest;
    HeaderOfFrame(e, |d|, p.hdr);
    HeaderExactly(e, p.hdr);
    HeaderOfFrame(d, n, p.hdr);
    FrameExactly(p.hdr, d[..n], p.content);
    assert DecodedContent(p.hdr, e[4..n]) == Ok(p.content);
  }

  /** Packets in front of a defect are returned with the error that the defect raises. */
  lemma {:induction false} ErrorKeepsFront(d: seq<byte>, ps: seq<Packet>, rest: seq<byte>)
    requires CompoundSays(d, ps)
    ensures Walk(d + rest) == Parsed(ps + Walk(rest).packets, Walk(rest).err)
    decreases |ps|
  {
    hide Walk, Says, HeaderSays, U16At;
    if ps == [] {
      assert d + rest == rest;
    } else {
      var n := 4 * (U16At(d, 2) as nat + 1);
      WalkFrame(d, rest, ps[0]);
      ErrorKeepsFront(d[n..], ps[1..], rest);
      var w := Walk(rest);
      assert [ps[0]] + (ps[1..] + w.packets) == ps + w.packets;
    }
  }

  ghost predicate SaysNothing(f: seq<byte>)
    requires |f| >= 4
  {
    forall c :: !Says(f, c)
  }

  /** Which error a defect at the front raises. */
  lemma ErrorAtFront(d: seq<byte>)
    requires d != []
    ensures |d| < 4 ==> Walk(d) == Parsed([], Some(TruncatedCompound))
    ensures |d| >= 4 && d[0] / 64 != 2 ==> Walk(d) == Parsed([], Some(BadVersion))
    ensures |d| >= 4 && d[0] / 64 == 2 && 4 * (U16At(d, 2) as nat + 1) > |d| ==>
      Walk(d) == Parsed([], Some(LengthExceedsData))
    ensures |d| >= 4 && d[0] / 64 == 2 && 4 * (U16At(d, 2) as nat + 1) <= |d| ==>
      (SaysNothing(d[..4 * (U16At(d, 2) as nat + 1)]) ==> Walk(d).packets == [] && Walk(d).err.Some?)
  {
    hide Says, U16At, DecodedContent;
    if |d| >= 4 && d[0] / 64 == 2 && 4 * (U16At(d, 2) as nat + 1) <= |d| {
      var n := 4 * (U16At(d, 2) as nat + 1);
      var h := DecodedHeader(d).value;
      HeaderExactly(d, h);
      HeaderOfFrame(d, n, h);
      assert d[..n][4..] == d[4..n];
      if DecodedContent(h, d[4..n]).Ok? { FrameExactly(h, d[..n], DecodedContent(h, d[4..n]).value); }
    }
  }

  // ---- Printing, for every packet ----

  /** The number of a packet type, and how many things its header counts. */
  function TypeNumber(p: Packet): (n: byte) {
    match p.content
    case SenderReport(_, _, _, _, _, _, _) => 200
    case ReceiverReport(_, _, _) => 201
    case SourceDescription(_) => 202
    case Goodbye(_, _) => 203
    case ApplicationDefined(_, _, _, _) => 204
    case RawRtcp(_) => p.hdr.typ
  }

  function Counted(p: Packet): (n: nat) {
    match p.content
    case SenderReport(_, _, _, _, _, reports, _) => |reports|
    case ReceiverReport(_, reports, _) => |reports|
    case SourceDescription(chunks) => |chunks|
    case Goodbye(sources, _) => |sources|
    case ApplicationDefined(subType, _, _, _) => subType
    case RawRtcp(_) => p.hdr.count
  }

  predicate HeaderPrinted(b: seq<byte>, p: Packet) {
    && |b| >= 4 && b[0] / 64 == 2 && (b[0] / 32 % 2 == 1 <==> p.hdr.padding) && b[0] as nat % 32 == Counted(p) % 32
    && b[1] == TypeNumber(p) && U16At(b, 2) == (|b| / 4 - 1) % 0x1_0000
  }

  /** Only 24 bits of the cumulative loss go on the wire. */
  function Reduced(rs: seq<ReceptionReport>): (r: seq<ReceptionReport>)
    ensures |r| == |rs|
  {
    seq(|rs|, i requires 0 <= i < |rs| => rs[i].(totalLost := rs[i].totalLost % 0x100_0000))
  }

  predicate ItemsPrinted(s: seq<byte>, items: seq<SdesItem>)
    decreases |items|
  {
    items == [] ||
    var n := 2 + |items[0].text|;
    n <= |s| && s[0] == items[0].typ && s[1] as nat == |items[0].text| % 256 && s[2..n] == items[0].text
    && ItemsPrinted(s[n..], items[1..])
  }

  /** Source, items and a zero octet, each chunk on a 32-bit boundary. */
  predicate ChunksPrinted(s: seq<byte>, chunks: seq<SdesChunk>)
    decreases |chunks|
  {
    chunks == [] ||
    var n := 4 + ItemsSize(chunks[0].items);
    n < |s| && U32At(s, 0) == chunks[0].source && ItemsPrinted(s[4..n], chunks[0].items) && s[n] == 0
    && (n + 4) / 4 * 4 <= |s| && ChunksPrinted(s[(n + 4) / 4 * 4..], chunks[1..])
  }

  /** raw, followed by zero octets only. */
  predicate ZeroFilled(s: seq<byte>, raw: seq<byte>) {
    raw <= s && forall i :: |raw| <= i < |s| ==> s[i] == 0
  }

  /** What follows the header, for every content, however large its fields are. */
  predicate BodyPrinted(b: seq<byte>, c: Content)
    requires |b| >= 4
  {
    match c
    case SenderReport(ssrc, ntpTime, rtpTime, packetCount, octetCount, reports, extensions) =>
      && 28 + 24 * |reports| <= |b|
      && U32At(b, 4) == ssrc && U64At(b, 8) == ntpTime && U32At(b, 16) == rtpTime
      && U32At(b, 20) == packetCount && U32At(b, 24) == octetCount
      && ReportsStand(b, 28, Reduced(reports)) && ZeroFilled(b[28 + 24 * |reports|..], extensions)
    case ReceiverReport(ssrc, reports, extensions) =>
      && 8 + 24 * |reports| <= |b|
      && U32At(b, 4) == ssrc && ReportsStand(b, 8, Reduced(reports)) && ZeroFilled(b[8 + 24 * |reports|..], extensions)
    case SourceDescription(chunks) => ChunksPrinted(b[4..], chunks)
    case Goodbye(sources, reason) =>
      && 4 + 4 * |sources| <= |b| && SourcesStand(b, 4, sources)
      && ZeroFilled(b[4 + 4 * |sources|..], if reason == [] then [] else [|reason| % 256] + reason)
    case ApplicationDefined(_, ssrc, name, data) =>
      && |b| >= 12 && U32At(b, 4) == ssrc
      && (if |name| >= 4 then b[8..12] == name[..4] else ZeroFilled(b[8..12], name)) && ZeroFilled(b[12..], data)
    case RawRtcp(data) => ZeroFilled(b[4..], data)
  }

  lemma WrittenCounts(p: Packet)
    ensures var h := WrittenHeader(p); h.typ == TypeNumber(p) && h.count as nat % 32 == Counted(p) % 32
  {
    hide Size;
  }

  lemma HeaderOctets(h: Header, post: seq<byte>)
    ensures var b := HeaderBytes(h) + post;
      && b[0] / 64 == 2 && (b[0] / 32 % 2 == 1 <==> h.padding) && b[0] % 32 == h.count % 32 && b[1] == h.typ
      && U16At(b, 2) == h.length
  {
    hide U16At, Be16;
    var b := HeaderBytes(h) + post;
    assert b[2..4] == Be16(h.length);
    ReadsBack16(b, 2, h.length);
  }

  lemma HeaderIsPrinted(p: Packet, ground: seq<byte>)
    requires |ground| == Size(p)
    ensures HeaderPrinted(Encoded(p, ground), p)
  {
    hide Body, BodySize, U16At, HeaderBytes, WrittenHeader, Counted, TypeNumber;
    WrittenCounts(p);
    HeaderOctets(WrittenHeader(p), Body(p.content, ground[4..]));
  }

  lemma Quotient(v: nat, q: nat, r: nat)
    requires v == q * 0x1_0000 + r && r < 0x1_0000
    ensures v / 0x1_0000 == q && v % 0x1_0000 == r
  {
  }

  lemma LowOctets(v: u32)
    ensures Be24(v) == Be24(v % 0x100_0000)
  {
    hide Be16;
    var q, w := v / 0x100_0000, v % 0x100_0000;
    var a, b := w / 0x1_0000, w % 0x1_0000;
    assert v == (0x100 * q + a) * 0x1_0000 + b;
    Quotient(v, 0x100 * q + a, b);
    assert (0x100 * q + a) % 0x100 == a;
  }

  lemma ReducedBytes(r: ReceptionReport)
    ensures ReportBytes(r) == ReportBytes(r.(totalLost := r.totalLost % 0x100_0000))
  {
    hide Be32, Be24;
    LowOctets(r.totalLost);
  }

  lemma {:induction false} ReducedReports(rs: seq<ReceptionReport>)
    ensures ReportsBytes(rs) == ReportsBytes(Reduced(rs))
  {
    hide ReportBytes;
    if rs == [] {
    } else {
      ReducedBytes(rs[0]);
      ReducedReports(rs[1..]);
      assert Reduced(rs)[1..] == Reduced(rs[1..]);
    }
  }

  lemma ReportsPrinted(rs: seq<ReceptionReport>, post: seq<byte>)
    ensures ReportsStand(ReportsBytes(rs) + post, 0, Reduced(rs))
  {
    hide DecodedReports, ReportStands, ConcatMap;
    ReducedReports(rs);
    RtcpRoundTrip.ReportsReadBack(Reduced(rs), post);
    ReportsExactly(ReportsBytes(rs) + post, |rs|, Reduced(rs));
  }

  lemma FilledTail(a: seq<byte>, s: seq<byte>)
    ensures Padded(a + s) == a + Padded(a + s)[|a|..] && ZeroFilled(Padded(a + s)[|a|..], s)
  {
    var t := Padded(a + s);
    assert t == a + (s + Zeros(|t| - |a + s|));
    assert t[|a|..] == s + Zeros(|t| - |a + s|);
  }

  /** Where the parts of a report start. */
  lemma ReportParts(h: seq<byte>, info: seq<byte>, rs: seq<byte>, rest: seq<byte>)
    requires |h| == 4
    ensures var b := h + (info + rs + rest);
      && b[4..] == info + (rs + rest) && b[4..4 + |info|] == info
      && b[4 + |info|..] == rs + rest && b[4 + |info| + |rs|..] == rest
  {
    assert info + rs + rest == info + (rs + rest);
  }

  lemma ReportsPlaced(b: seq<byte>, at: nat, reports: seq<ReceptionReport>, rest: seq<byte>)
    requires at <= |b| && b[at..] == ReportsBytes(reports) + rest
    ensures at + 24 * |reports| <= |b| && ReportsStand(b, at, Reduced(reports))
  {
    hide ReportsStand, ReportsBytes, Reduced;
    ReportsPrinted(reports, rest);
    ReportsShifted(b, at, 0, Reduced(reports));
  }

  lemma InfoPlaced(b: seq<byte>, c: Content, rest: seq<byte>)
    requires c.SenderReport? && |b| >= 4
    requires b[4..] == SenderInfo(c.ssrc, c.ntpTime, c.rtpTime, c.packetCount, c.octetCount) + rest
    ensures |b| >= 28 && U32At(b, 4) == c.ssrc && U64At(b, 8) == c.ntpTime && U32At(b, 16) == c.rtpTime
    ensures U32At(b, 20) == c.packetCount && U32At(b, 24) == c.octetCount
  {
    hide U32At, U64At, SenderInfo;
    RtcpRoundTrip.SenderInfoReadsBack(c, rest);
    Shifted(b, 4, 0);
    Shifted(b, 4, 4);
    Shifted(b, 4, 12);
    Shifted(b, 4, 16);
    Shifted(b, 4, 20);
  }

  lemma SenderPrinted(h: seq<byte>, c: Content, ground: seq<byte>)
    requires |h| == 4 && c.SenderReport? && |ground| == BodySize(c)
    ensures BodyPrinted(h + Body(c, ground), c)
  {
    hide ReportsStand, Align4, U32At, U64At, SenderInfo, ReportsBytes, Reduced, ZeroFilled, Padded;
    var b := h + Body(c, ground);
    var info := SenderInfo(c.ssrc, c.ntpTime, c.rtpTime, c.packetCount, c.octetCount);
    var rs := ReportsBytes(c.reports);
    FilledTail(info + rs, c.extensions);
    var rest := Padded(info + rs + c.extensions)[|info + rs|..];
    ReportParts(h, info, rs, rest);
    InfoPlaced(b, c, rs + rest);
    ReportsPlaced(b, 28, c.reports, rest);
  }

  lemma ReceiverPrinted(h: seq<byte>, c: Content, ground: seq<byte>)
    requires |h| == 4 && c.ReceiverReport? && |ground| == BodySize(c)
    ensures BodyPrinted(h + Body(c, ground), c)
  {
    hide ReportsStand, Align4, U32At, ReportsBytes, Reduced, ZeroFilled, Padded, Be32;
    var b := h + Body(c, ground);
    var source, rs := Be32(c.ssrc), ReportsBytes(c.reports);
    FilledTail(source + rs, c.extensions);
    var rest := Padded(source + rs + c.extensions)[|source + rs|..];
    ReportParts(h, source, rs, rest);
    ReadsBack32(b, 4, c.ssrc);
    ReportsPlaced(b, 8, c.reports, rest);
  }

  lemma GoodbyePrinted(h: seq<byte>, c: Content, ground: seq<byte>)
    requires |h| == 4 && c.Goodbye? && |ground| == BodySize(c)
    ensures BodyPrinted(h + Body(c, ground), c)
  {
    hide SourcesStand, Align4, SourcesBytes, ZeroFilled, Padded, DecodedSources;
    var b := h + Body(c, ground);
    var ss := SourcesBytes(c.sources);
    FilledTail(ss, ReasonBytes(c.reason));
    var rest := Padded(ss + ReasonBytes(c.reason))[|ss|..];
    assert b == h + (ss + rest) && b[4 + 4 * |c.sources|..] == rest && b[4..] == ss + rest;
    RtcpRoundTrip.SourcesReadBack(c.sources, rest);
    SourcesExactly(ss + rest, |c.sources|, c.sources);
    SourcesShifted(b, 4, 0, c.sources);
  }

  lemma NameFilled(name: seq<byte>)
    ensures if |name| >= 4 then NameBytes(name) == name[..4] else ZeroFilled(NameBytes(name), name)
  {
  }

  lemma ApplicationPrinted(h: seq<byte>, c: Content, ground: seq<byte>)
    requires |h| == 4 && c.ApplicationDefined? && |ground| == BodySize(c)
    ensures BodyPrinted(h + Body(c, ground), c)
  {
    hide Align4, U32At, Padded, Be32, ZeroFilled, NameBytes;
    var b := h + Body(c, ground);
    var source, name := Be32(c.ssrc), NameBytes(c.name);
    FilledTail(source + name, c.data);
    var rest := Padded(source + name + c.data)[8..];
    ReportParts(h, source, name, rest);
    assert b[8..12] == b[8..][..4] == name;
    NameFilled(c.name);
    ReadsBack32(b, 4, c.ssrc);
  }

  lemma {:induction false} ItemsArePrinted(items: seq<SdesItem>)
    ensures ItemsPrinted(ItemsBytes(items), items)
  {
    if items == [] {
    } else {
      var first, rest := ItemBytes(items[0]), ItemsBytes(items[1..]);
      var s := ItemsBytes(items);
      assert s == first + rest && s[|first|..] == rest && s[2..|first|] == items[0].text;
      ItemsArePrinted(items[1..]);
    }
  }

  lemma {:induction false} ChunksArePrinted(chunks: seq<SdesChunk>, ground: seq<byte>)
    requires |ground| == ChunksSize(chunks)
    ensures ChunksPrinted(ChunksBytes(chunks, ground), chunks)
  {
    hide U32At, ItemsSize, ItemsBytes, ItemsPrinted, Be32;
    if chunks == [] {
    } else {
      var c := chunks[0];
      var raw := ChunkBytes(c);
      var n := Align4(|raw|);
      var s := ChunksBytes(chunks, ground);
      var gap, rest := ground[|raw|..n], ChunksBytes(chunks[1..], ground[n..]);
      var k := 4 + ItemsSize(c.items);
      assert s == raw + gap + rest && s[n..] == rest;
      assert s[0..4] == Be32(c.source) && s[4..k] == ItemsBytes(c.items) && s[k] == 0;
      ReadsBack32(s, 0, c.source);
      ItemsArePrinted(c.items);
      ChunksArePrinted(chunks[1..], ground[n..]);
    }
  }

  /** Every packet, whatever its fields are, prints these octets. */
  lemma PrintsExactly(p: Packet, ground: seq<byte>)
    requires |ground| == Size(p)
    ensures var b := Encoded(p, ground); |b| == Size(p) && HeaderPrinted(b, p) && BodyPrinted(b, p.content)
  {
    hide HeaderPrinted, Body, BodySize, ChunksPrinted;
    HeaderIsPrinted(p, ground);
    var h, g := HeaderBytes(WrittenHeader(p)), ground[4..];
    match p.content
    case SenderReport(_, _, _, _, _, _, _) => SenderPrinted(h, p.content, g);
    case ReceiverReport(_, _, _) => ReceiverPrinted(h, p.content, g);
    case SourceDescription(_) => DescriptionPrinted(h, p.content, g);
    case Goodbye(_, _) => GoodbyePrinted(h, p.content, g);
    case ApplicationDefined(_, _, _, _) => ApplicationPrinted(h, p.content, g);
    case RawRtcp(_) => RawPrinted(h, p.content, g);
  }

  lemma DescriptionPrinted(h: seq<byte>, c: Content, ground: seq<byte>)
    requires |h| == 4 && c.SourceDescription? && |ground| == BodySize(c)
    ensures BodyPrinted(h + Body(c, ground), c)
  {
    ChunksArePrinted(c.chunks, ground);
    assert (h + Body(c, ground))[4..] == Body(c, ground);
  }

  lemma RawPrinted(h: seq<byte>, c: Content, ground: seq<byte>)
    requires |h| == 4 && c.RawRtcp? && |ground| == BodySize(c)
    ensures BodyPrinted(h + Body(c, ground), c)
  {
    assert (h + Body(c, ground))[4..] == Body(c, ground);
  }
}
