/** Compound RTCP packets survive encoding and decoding exactly when every packet is well-formed. */
module RtcpRoundTrip {
  import opened Octets
  import opened Sequences
  import opened Rtcp

  // ---- Well-formedness ----

  predicate FitsReports(rs: seq<ReceptionReport>) {
    |rs| <= 31 && forall r :: r in rs ==> r.totalLost < 0x100_0000
  }

  predicate FitsItems(items: seq<SdesItem>) {
    forall i :: i in items ==> i.typ != 0 && |i.text| <= 255
  }

  predicate FitsChunks(chunks: seq<SdesChunk>) {
    |chunks| <= 31 && forall c :: c in chunks ==> FitsItems(c.items)
  }

  /** The fields of p fit the bits that carry them. */
  predicate WellFormed(p: Packet) {
    && Size(p) <= 4 * 0x1_0000
    && match p.content
       case SenderReport(_, _, _, _, _, reports, extensions) => FitsReports(reports) && |extensions| % 4 == 0
       case ReceiverReport(_, reports, extensions) => FitsReports(reports) && |extensions| % 4 == 0
       case SourceDescription(chunks) => FitsChunks(chunks)
       case Goodbye(sources, reason) => |sources| <= 31 && |reason| <= 255
       case ApplicationDefined(subType, _, name, data) =>
         subType <= 31 && |name| == 4 && |data| % 4 == 0 && StripPadding(p.hdr.padding, data) == data
       case RawRtcp(data) => !(TYPE_SR <= p.hdr.typ <= TYPE_APP) && p.hdr.count <= 31 && |data| % 4 == 0
  }

  // ---- Parts ----

  lemma HeaderReadsBack(h: Header, post: seq<byte>)
    ensures var r := DecodedHeader(HeaderBytes(h) + post); r.Ok? && r.value == h.(count := h.count % 32)
  {
    var d := HeaderBytes(h) + post;
    assert d[2..4] == Be16(h.length);
    ReadsBack16(d, 2, h.length);
  }

  lemma ReportReadsBack(r: ReceptionReport, post: seq<byte>)
    requires r.totalLost < 0x100_0000
    ensures ReportAt(ReportBytes(r) + post) == r
  {
    var d := ReportBytes(r) + post;
    assert d[0..4] == Be32(r.ssrc);
    assert d[5..8] == Be24(r.totalLost);
    assert d[8..12] == Be32(r.lastSequenceNumber);
    assert d[12..16] == Be32(r.jitter);
    assert d[16..20] == Be32(r.lastSenderReport);
    assert d[20..24] == Be32(r.delay);
    ReadsBack32(d, 0, r.ssrc);
    ReadsBack24(d, 5, r.totalLost);
    ReadsBack32(d, 8, r.lastSequenceNumber);
    ReadsBack32(d, 12, r.jitter);
    ReadsBack32(d, 16, r.lastSenderReport);
    ReadsBack32(d, 20, r.delay);
  }

  lemma {:induction false} ReportsReadBack(rs: seq<ReceptionReport>, post: seq<byte>)
    requires forall r :: r in rs ==> r.totalLost < 0x100_0000
    ensures DecodedReports(ReportsBytes(rs) + post, |rs|) == Ok(rs)
  {
    hide ReportAt;
    if rs == [] {
    } else {
      var d := ReportsBytes(rs) + post;
      var tail := ReportsBytes(rs[1..]) + post;
      assert d == ReportBytes(rs[0]) + tail;
      ReportReadsBack(rs[0], tail);
      assert d[24..] == tail;
      ReportStep(d, |rs|);
      ReportsReadBack(rs[1..], post);
      assert [rs[0]] + rs[1..] == rs;
    }
  }

  lemma {:induction false} SourcesReadBack(ss: seq<u32>, post: seq<byte>)
    ensures DecodedSources(SourcesBytes(ss) + post, |ss|) == Ok(ss)
  {
    if ss == [] {
    } else {
      var d := SourcesBytes(ss) + post;
      var tail := SourcesBytes(ss[1..]) + post;
      assert d == Be32(ss[0]) + tail;
      assert d[0..4] == Be32(ss[0]);
      ReadsBack32(d, 0, ss[0]);
      assert d[4..] == tail;
      SourcesReadBack(ss[1..], post);
      assert [ss[0]] + ss[1..] == ss;
    }
  }

  lemma ItemReadsBack(i: SdesItem, tail: seq<byte>)
    requires i.typ != 0 && |i.text| <= 255
    ensures DecodedItems(ItemBytes(i) + tail) == PrependItems([i], ItemSize(i), DecodedItems(tail))
  {
    hide DecodedItems;
    var s := ItemBytes(i) + tail;
    var head := [i.typ, |i.text|];
    Seams(head, i.text, tail);
    assert s == head + i.text + tail;
    ItemStep(s, ItemSize(i));
  }

  /** Items are self-delimiting: after them the END octet is found where it was written. */
  lemma {:induction false} ItemsReadBack(items: seq<SdesItem>, post: seq<byte>)
    requires FitsItems(items)
    ensures DecodedItems(ItemsBytes(items) + [0] + post) == Ok((items, ItemsSize(items) + 1))
  {
    hide ItemBytes, ItemSize, DecodedItems;
    var s := ItemsBytes(items) + [0] + post;
    if items == [] {
      assert s[0] == 0;
      ItemsEnd(s);
    } else {
      var tail := ItemsBytes(items[1..]) + [0] + post;
      ItemsReadBack(items[1..], post);
      assert items[0] in items;
      ItemReadsBack(items[0], tail);
      Assoc(ItemBytes(items[0]), ItemsBytes(items[1..]), [0], post);
      assert s == ItemBytes(items[0]) + tail;
      assert [items[0]] + items[1..] == items;
    }
  }

  lemma ChunkReadsBack(c: SdesChunk, filler: seq<byte>)
    requires FitsItems(c.items)
    ensures var d := ChunkBytes(c) + filler;
      U32At(d, 0) == c.source && DecodedItems(d[4..]) == Ok((c.items, ItemsSize(c.items) + 1))
  {
    var d := ChunkBytes(c) + filler;
    var rest := ItemsBytes(c.items) + [0] + filler;
    assert d == Be32(c.source) + rest;
    assert d[0..4] == Be32(c.source) && d[4..] == rest;
    ReadsBack32(d, 0, c.source);
    ItemsReadBack(c.items, filler);
  }

  /** Chunks read back whatever the alignment octets are. */
  lemma {:induction false} ChunksReadBack(chunks: seq<SdesChunk>, ground: seq<byte>)
    requires |ground| == ChunksSize(chunks)
    requires forall c :: c in chunks ==> FitsItems(c.items)
    ensures |ground| % 4 == 0 && DecodedChunks(ChunksBytes(chunks, ground), |chunks|) == Ok(chunks)
  {
    hide ChunkBytes, ItemsSize, Align4, DecodedChunks, FitsItems;
    ChunksSizeAligned(chunks);
    if chunks == [] {
      ChunksDone([]);
    } else {
      var c := chunks[0];
      var raw := ChunkBytes(c);
      var n := Align4(|raw|);
      ChunksReadBack(chunks[1..], ground[n..]);
      FirstChunkReadsBack(c, ground[|raw|..n], ChunksBytes(chunks[1..], ground[n..]), |chunks| - 1,
                          ChunksBytes(chunks, ground), raw);
      assert [c] + chunks[1..] == chunks;
    }
  }

  lemma FirstChunkReadsBack(c: SdesChunk, gap: seq<byte>, tail: seq<byte>, n: nat, d: seq<byte>, raw: seq<byte>)
    requires FitsItems(c.items) && raw == ChunkBytes(c) && |raw| + |gap| == Align4(|raw|)
    requires d == raw + gap + tail && |d| % 4 == 0 && |tail| % 4 == 0
    ensures DecodedChunks(d, n + 1) == Prepend([c], DecodedChunks(tail, n))
  {
    hide ChunkBytes, Align4, DecodedItems, DecodedChunks, ItemsSize, FitsItems, U32At;
    var used := |raw| + |gap|;
    assert d[used..] == tail;
    assert d == raw + (gap + tail);
    ChunkReadsBack(c, gap + tail);
    ChunkStep(d, n + 1, c.items, ItemsSize(c.items) + 1, used);
  }

  // ---- One packet ----

  lemma SenderInfoReadsBack(c: Content, post: seq<byte>)
    requires c.SenderReport?
    ensures var b := SenderInfo(c.ssrc, c.ntpTime, c.rtpTime, c.packetCount, c.octetCount) + post;
      && U32At(b, 0) == c.ssrc && U64At(b, 4) == c.ntpTime && U32At(b, 12) == c.rtpTime
      && U32At(b, 16) == c.packetCount && U32At(b, 20) == c.octetCount
  {
    var b := SenderInfo(c.ssrc, c.ntpTime, c.rtpTime, c.packetCount, c.octetCount) + post;
    assert b[0..4] == Be32(c.ssrc);
    assert b[4..12] == Be64(c.ntpTime);
    assert b[12..16] == Be32(c.rtpTime);
    assert b[16..20] == Be32(c.packetCount);
    assert b[20..24] == Be32(c.octetCount);
    ReadsBack32(b, 0, c.ssrc);
    ReadsBack64(b, 4, c.ntpTime);
    ReadsBack32(b, 12, c.rtpTime);
    ReadsBack32(b, 16, c.packetCount);
    ReadsBack32(b, 20, c.octetCount);
  }

  lemma SenderReadsBack(h: Header, c: Content, ground: seq<byte>)
    requires c.SenderReport? && |ground| == BodySize(c)
    requires FitsReports(c.reports) && |c.extensions| % 4 == 0 && h.count == |c.reports|
    ensures DecodedSender(h, Body(c, ground)) == Ok(c)
  {
    var info := SenderInfo(c.ssrc, c.ntpTime, c.rtpTime, c.packetCount, c.octetCount);
    Seams(info, ReportsBytes(c.reports), c.extensions);
    assert Body(c, ground) == info + ReportsBytes(c.reports) + c.extensions;
    SenderInfoReadsBack(c, ReportsBytes(c.reports) + c.extensions);
    ReportsReadBack(c.reports, c.extensions);
  }

  lemma ReceiverReadsBack(h: Header, c: Content, ground: seq<byte>)
    requires c.ReceiverReport? && |ground| == BodySize(c)
    requires FitsReports(c.reports) && |c.extensions| % 4 == 0 && h.count == |c.reports|
    ensures DecodedReceiver(h, Body(c, ground)) == Ok(c)
  {
    var b := Body(c, ground);
    Seams(Be32(c.ssrc), ReportsBytes(c.reports), c.extensions);
    assert b == Be32(c.ssrc) + ReportsBytes(c.reports) + c.extensions;
    ReadsBack32(b, 0, c.ssrc);
    ReportsReadBack(c.reports, c.extensions);
  }

  /** The reason reads back, zero filler after it or not, as long as no filler follows an absent one. */
  lemma ReasonReadsBack(reason: seq<byte>, filler: seq<byte>)
    requires |reason| <= 255 && (reason == [] ==> filler == [])
    ensures DecodedReason(ReasonBytes(reason) + filler) == Ok(reason)
  {
    if reason != [] {
      var d := ReasonBytes(reason) + filler;
      assert d[1..1 + |reason|] == reason;
    }
  }

  lemma GoodbyeReadsBack(h: Header, c: Content, ground: seq<byte>)
    requires c.Goodbye? && |ground| == BodySize(c) && |c.reason| <= 255 && h.count == |c.sources|
    ensures DecodedGoodbye(h, Body(c, ground)) == Ok(c)
  {
    var ss := SourcesBytes(c.sources);
    var raw := ss + ReasonBytes(c.reason);
    var filler := Zeros(Align4(|raw|) - |raw|);
    Seams(ss, ReasonBytes(c.reason), filler);
    assert Body(c, ground) == ss + ReasonBytes(c.reason) + filler;
    SourcesReadBack(c.sources, ReasonBytes(c.reason) + filler);
    ReasonReadsBack(c.reason, filler);
  }

  lemma ApplicationReadsBack(h: Header, c: Content, ground: seq<byte>)
    requires c.ApplicationDefined? && |ground| == BodySize(c) && h.count == c.subType
    requires |c.name| == 4 && |c.data| % 4 == 0 && StripPadding(h.padding, c.data) == c.data
    ensures DecodedApplication(h, Body(c, ground)) == Ok(c)
  {
    hide Be32, U32At;
    var b := Body(c, ground);
    assert b == Be32(c.ssrc) + c.name + c.data;
    Seams([], Be32(c.ssrc), c.name + c.data);
    Seams(Be32(c.ssrc), c.name, c.data);
    assert [] + Be32(c.ssrc) + (c.name + c.data) == b;
    ReadsBack32(b, 0, c.ssrc);
  }

  lemma DescriptionReadsBack(h: Header, c: Content, ground: seq<byte>)
    requires c.SourceDescription? && |ground| == BodySize(c) && FitsChunks(c.chunks) && h.count == |c.chunks|
    ensures DecodedDescription(h, Body(c, ground)) == Ok(c)
  {
    ChunksReadBack(c.chunks, ground);
  }

  /** A well-formed packet decodes to itself, under the header it was sent with. */
  lemma ContentReadsBack(p: Packet, ground: seq<byte>)
    requires WellFormed(p) && |ground| == BodySize(p.content)
    ensures DecodedContent(WrittenHeader(p), Body(p.content, ground)) == Ok(p.content)
  {
    hide DecodedSender, DecodedReceiver, DecodedDescription, DecodedGoodbye, DecodedApplication;
    hide Body, BodySize, StripPadding;
    var h := WrittenHeader(p);
    match p.content
    case SenderReport(_, _, _, _, _, _, _) => SenderReadsBack(h, p.content, ground);
    case ReceiverReport(_, _, _) => ReceiverReadsBack(h, p.content, ground);
    case SourceDescription(_) => DescriptionReadsBack(h, p.content, ground);
    case Goodbye(_, _) => GoodbyeReadsBack(h, p.content, ground);
    case ApplicationDefined(_, _, _, _) => ApplicationReadsBack(h, p.content, ground);
    case RawRtcp(_) => RawReadsBack(p.content, ground);
  }

  lemma RawReadsBack(c: Content, ground: seq<byte>)
    requires c.RawRtcp? && |ground| == BodySize(c) && |c.data| % 4 == 0
    ensures Body(c, ground) == c.data
  {
  }

  // ---- What decoding can produce ----

  lemma {:induction false} DecodedReportsFit(s: seq<byte>, n: nat)
    requires DecodedReports(s, n).Ok?
    ensures forall r :: r in DecodedReports(s, n).value ==> r.totalLost < 0x100_0000
  {
    if n == 0 {
    } else {
      DecodedReportsFit(s[24..], n - 1);
    }
  }

  /** Decoded items fit, and fill what was consumed up to an END octet that may be missing at the very end. */
  lemma {:induction false} DecodedItemsFit(s: seq<byte>)
    requires DecodedItems(s).Ok?
    ensures var (items, k) := DecodedItems(s).value;
      FitsItems(items) && (k == ItemsSize(items) + 1 || (k == ItemsSize(items) && k == |s|))
  {
    if s == [] || s[0] == 0 {
    } else {
      DecodedItemsFit(s[2 + s[1] as nat..]);
    }
  }

  lemma ChunksNeedWords(s: seq<byte>, n: nat)
    requires |s| % 4 == 0 && DecodedChunks(s, n).Ok?
    ensures n == 0 || |s| >= 4
  {
  }

  lemma {:induction false} DecodedChunksFit(s: seq<byte>, n: nat)
    requires |s| % 4 == 0 && DecodedChunks(s, n).Ok?
    ensures var chunks := DecodedChunks(s, n).value;
      (forall c :: c in chunks ==> FitsItems(c.items)) && ChunksSize(chunks) <= |s| + 4
  {
    hide Align4, DecodedItems, FitsItems, ItemsSize, DecodedChunks, U32At;
    ChunksNeedWords(s, n);
    if n == 0 {
      ChunksDone(s);
    } else {
      if DecodedItems(s[4..]).Err? { ChunkFails(s, n); }
      DecodedItemsFit(s[4..]);
      var (items, k) := DecodedItems(s[4..]).value;
      var used := Align4(4 + k);
      AlignWithin(4 + k, |s|);
      ChunkStep(s, n, items, k, used);
      DecodedChunksFit(s[used..], n - 1);
      ChunksNeedWords(s[used..], n - 1);
      if n == 1 { ChunksDone(s[used..]); }
      var rest := DecodedChunks(s[used..], n - 1).value;
      assert DecodedChunks(s, n).value[1..] == rest;
    }
  }

  /** c fits the wire, but for what depends on its header's padding flag. */
  predicate FitsContent(h: Header, c: Content) {
    match c
    case SenderReport(_, _, _, _, _, reports, extensions) => FitsReports(reports) && |extensions| % 4 == 0
    case ReceiverReport(_, reports, extensions) => FitsReports(reports) && |extensions| % 4 == 0
    case SourceDescription(chunks) => FitsChunks(chunks)
    case Goodbye(sources, reason) => |sources| <= 31 && |reason| <= 255
    case ApplicationDefined(subType, _, name, _) => subType <= 31 && |name| == 4
    case RawRtcp(data) => !(TYPE_SR <= h.typ <= TYPE_APP) && |data| % 4 == 0
  }

  lemma SenderFits(h: Header, b: seq<byte>)
    requires |b| % 4 == 0 && h.count <= 31 && DecodedSender(h, b).Ok?
    ensures var c := DecodedSender(h, b).value; BodySize(c) <= |b| && FitsContent(h, c)
  {
    hide DecodedReports, U32At, U64At, Align4;
    DecodedReportsFit(b[24..], h.count);
    AlignWithin(|b|, |b|);
  }

  lemma ReceiverFits(h: Header, b: seq<byte>)
    requires |b| % 4 == 0 && h.count <= 31 && DecodedReceiver(h, b).Ok?
    ensures var c := DecodedReceiver(h, b).value; BodySize(c) <= |b| && FitsContent(h, c)
  {
    hide DecodedReports, U32At, Align4;
    DecodedReportsFit(b[4..], h.count);
    AlignWithin(|b|, |b|);
  }

  lemma GoodbyeFits(h: Header, b: seq<byte>)
    requires |b| % 4 == 0 && h.count <= 31 && DecodedGoodbye(h, b).Ok?
    ensures var c := DecodedGoodbye(h, b).value; BodySize(c) <= |b| && FitsContent(h, c)
  {
    hide DecodedSources, Align4;
    var c := DecodedGoodbye(h, b).value;
    AlignWithin(4 * |c.sources| + if c.reason == [] then 0 else 1 + |c.reason|, |b|);
  }

  lemma ApplicationFits(h: Header, b: seq<byte>)
    requires |b| % 4 == 0 && h.count <= 31 && DecodedApplication(h, b).Ok?
    ensures var c := DecodedApplication(h, b).value; BodySize(c) <= |b| && FitsContent(h, c)
  {
    hide StripPadding, U32At, Align4;
    AlignWithin(8 + |DecodedApplication(h, b).value.data|, |b|);
  }

  /** Re-encoding decoded content never needs more than one word beyond the octets it came from. */
  lemma DecodedContentFits(h: Header, b: seq<byte>)
    requires |b| % 4 == 0 && h.count <= 31 && DecodedContent(h, b).Ok?
    ensures var c := DecodedContent(h, b).value; BodySize(c) <= |b| + 4 && FitsContent(h, c)
  {
    hide DecodedSender, DecodedReceiver, DecodedGoodbye, DecodedApplication, DecodedChunks, Align4, FitsReports;
    if h.typ == TYPE_SR {
      SenderFits(h, b);
    } else if h.typ == TYPE_RR {
      ReceiverFits(h, b);
    } else if h.typ == TYPE_SDES {
      DecodedChunksFit(b, h.count);
    } else if h.typ == TYPE_BYE {
      GoodbyeFits(h, b);
    } else if h.typ == TYPE_APP {
      ApplicationFits(h, b);
    }
  }

  /** Padding that is stripped again was not needed for alignment. */
  lemma StrippedData(padding: bool, data: seq<byte>, z: nat)
    requires z < 4 && (|data| + z) % 4 == 0
    ensures StripPadding(padding, data + Zeros(z)) == data
      ==> z == 0 && |data| % 4 == 0 && StripPadding(padding, data) == data
  {
    var all := data + Zeros(z);
    if z > 0 {
      assert all[|all| - 1] == 0;
      assert StripPadding(padding, all) == all;
    } else {
      assert all == data;
    }
  }

  lemma ApplicationDataFits(h: Header, c: Content, ground: seq<byte>)
    requires c.ApplicationDefined? && |c.name| == 4 && |ground| == BodySize(c)
    requires DecodedApplication(h, Body(c, ground)) == Ok(c)
    ensures |c.data| % 4 == 0 && StripPadding(h.padding, c.data) == c.data
  {
    var raw := Be32(c.ssrc) + c.name + c.data;
    var z := Align4(|raw|) - |raw|;
    assert Body(c, ground) == Be32(c.ssrc) + c.name + (c.data + Zeros(z));
    Seams(Be32(c.ssrc), c.name, c.data + Zeros(z));
    StrippedData(h.padding, c.data, z);
  }

  /** If a packet comes back as it was sent, whatever follows it, then it was well-formed. */
  lemma OnlyWellFormedReadBack(p: Packet, ground: seq<byte>, n: nat, b: seq<byte>)
    requires |ground| == BodySize(p.content) && WrittenHeader(p).count <= 31
    requires n == PacketLength(WrittenHeader(p)) && n <= Size(p)
    requires |b| % 4 == 0 && |b| == n - 4 && b <= Body(p.content, ground)
    requires DecodedContent(WrittenHeader(p), b) == Ok(p.content)
    ensures WellFormed(p) && n == Size(p)
  {
    hide Body, BodySize, DecodedSender, DecodedReceiver, DecodedGoodbye, DecodedApplication, DecodedChunks,
      StripPadding;
    var h := WrittenHeader(p);
    DecodedContentFits(h, b);
    assert n == Size(p);
    assert b == Body(p.content, ground);
    if p.content.ApplicationDefined? {
      ApplicationDataFits(h, p.content, ground);
    }
  }

  // ---- Compound packets ----

  function AllStamped(ps: seq<Packet>): (qs: seq<Packet>)
    ensures |qs| == |ps| && forall i :: 0 <= i < |ps| ==> qs[i] == Stamped(ps[i])
  {
    seq(|ps|, i requires 0 <= i < |ps| => Stamped(ps[i]))
  }

  predicate AllWellFormed(ps: seq<Packet>) { forall p :: p in ps ==> WellFormed(p) }

  /** How Walk sees the first packet of a compound packet. */
  lemma WalkFirst(p: Packet, ground: seq<byte>, tail: seq<byte>)
    requires |ground| == Size(p)
    ensures var d := Encoded(p, ground) + tail; var h := WrittenHeader(p); var h' := h.(count := h.count % 32);
      var n := PacketLength(h');
      && DecodedHeader(d) == Ok(h') && 4 <= n <= Size(p) && |d| == Size(p) + |tail|
      && (n == Size(p) <==> Size(p) <= 4 * 0x1_0000)
      && d[4..n] == Body(p.content, ground[4..])[..n - 4]
      && (n == Size(p) ==> d[n..] == tail)
  {
    hide Body, BodySize, WrittenHeader;
    var h := WrittenHeader(p);
    var body := Body(p.content, ground[4..]);
    var d := Encoded(p, ground) + tail;
    assert d == HeaderBytes(h) + (body + tail);
    HeaderReadsBack(h, body + tail);
    var n := PacketLength(h.(count := h.count % 32));
    assert d[4..n] == body[..n - 4];
  }

  lemma WellFormedHeader(p: Packet)
    requires WellFormed(p)
    ensures WrittenHeader(p).count <= 31 && Size(p) <= 4 * 0x1_0000
  {
    hide Size, StripPadding;
  }

  lemma FirstPacketReadsBack(p: Packet, ground: seq<byte>, tail: seq<byte>)
    requires WellFormed(p) && |ground| == Size(p)
    ensures var rest := Walk(tail);
      Walk(Encoded(p, ground) + tail) == Parsed([Stamped(p)] + rest.packets, rest.err)
  {
    hide Body, BodySize, WrittenHeader, DecodedContent, DecodedHeader, WellFormed;
    WalkFirst(p, ground, tail);
    var body := Body(p.content, ground[4..]);
    ContentReadsBack(p, ground[4..]);
    WellFormedHeader(p);
    assert body[..|body|] == body;
  }

  lemma NothingWalked(ps: seq<Packet>, ground: seq<byte>)
    requires ps == [] && ground == []
    ensures TotalSize(ps) == 0 && Walk(Compound(ps, ground)) == Parsed([], None)
  {
  }

  lemma {:induction false} CompoundReadsBack(ps: seq<Packet>, ground: seq<byte>)
    requires |ground| == TotalSize(ps) && AllWellFormed(ps)
    ensures Walk(Compound(ps, ground)) == Parsed(AllStamped(ps), None)
  {
    hide Body, BodySize, WrittenHeader, DecodedContent, DecodedHeader, Encoded, WellFormed, Walk, Size;
    if ps == [] { NothingWalked(ps, ground); }
    if ps == [] {
    } else {
      var p := ps[0];
      var k := Size(p);
      var tail := Compound(ps[1..], ground[k..]);
      FirstPacketReadsBack(p, ground[..k], tail);
      CompoundReadsBack(ps[1..], ground[k..]);
      assert Compound(ps, ground) == Encoded(p, ground[..k]) + tail;
      assert [Stamped(p)] + AllStamped(ps[1..]) == AllStamped(ps);
    }
  }

  lemma {:induction false} OnlyWellFormedCompoundsReadBack(ps: seq<Packet>, ground: seq<byte>)
    requires |ground| == TotalSize(ps)
    requires Walk(Compound(ps, ground)) == Parsed(AllStamped(ps), None)
    ensures AllWellFormed(ps)
  {
    hide Body, BodySize, WrittenHeader, DecodedContent, DecodedHeader, Encoded, WellFormed;
    if ps == [] {
    } else {
      var p := ps[0];
      var k := Size(p);
      var tail := Compound(ps[1..], ground[k..]);
      var d := Compound(ps, ground);
      WalkFirst(p, ground[..k], tail);
      var h := DecodedHeader(d).value;
      var n := PacketLength(h);
      assert Walk(d).packets[0] == Stamped(p);
      assert h == WrittenHeader(p);
      OnlyWellFormedReadBack(p, ground[..k][4..], n, d[4..n]);
      assert Walk(d).packets[1..] == AllStamped(ps[1..]);
      OnlyWellFormedCompoundsReadBack(ps[1..], ground[k..]);
    }
  }

  /** The round trip of a non-empty compound packet, over any old buffer contents: exactly the well-formed ones. */
  lemma CompoundRoundTrip(ps: seq<Packet>, ground: seq<byte>)
    requires ps != [] && |ground| == TotalSize(ps)
    ensures Decoded(Compound(ps, ground)) == Parsed(AllStamped(ps), None) <==> AllWellFormed(ps)
  {
    if AllWellFormed(ps) {
      CompoundReadsBack(ps, ground);
    } else if Walk(Compound(ps, ground)) == Parsed(AllStamped(ps), None) {
      OnlyWellFormedCompoundsReadBack(ps, ground);
    }
  }

  // ---- Framing ----

  /** The octet strings that the declared lengths cut d into. */
  function Frames(d: seq<byte>): (fs: seq<seq<byte>>) {
    if |d| < 4 then []
    else
      match DecodedHeader(d)
      case Err(_) => []
      case Ok(h) => if PacketLength(h) > |d| then [] else [d[..PacketLength(h)]] + Frames(d[PacketLength(h)..])
  }

  function Joined(fs: seq<seq<byte>>): (d: seq<byte>) { ConcatMap(f => f, fs) }

  /** frame is the whole of packet p: its declared length and its content. */
  predicate Frames1(frame: seq<byte>, p: Packet) {
    && |frame| == PacketLength(p.hdr)
    && DecodedHeader(frame) == Ok(p.hdr)
    && DecodedContent(p.hdr, frame[4..]) == Ok(p.content)
  }

  lemma HeaderOfPrefix(d: seq<byte>, n: nat)
    requires 4 <= n <= |d|
    ensures DecodedHeader(d[..n]) == DecodedHeader(d)
  {
  }

  /** A successful walk takes one whole frame off the front. */
  lemma WalkStep(d: seq<byte>)
    requires d != [] && Walk(d).err == None
    ensures |d| >= 4 && DecodedHeader(d).Ok?
    ensures var h := DecodedHeader(d).value; var n := PacketLength(h);
      && n <= |d| && DecodedContent(h, d[4..n]).Ok?
      && Walk(d).packets == [Packet(h, DecodedContent(h, d[4..n]).value)] + Walk(d[n..]).packets
      && Walk(d[n..]).err == None
      && Frames(d) == [d[..n]] + Frames(d[n..])
  {
    hide DecodedHeader, DecodedContent;
  }

  lemma JoinedCons(f: seq<byte>, fs: seq<seq<byte>>)
    ensures Joined([f] + fs) == f + Joined(fs)
  {
    assert ([f] + fs)[1..] == fs;
  }

  predicate FramesMatch(fs: seq<seq<byte>>, ps: seq<Packet>) {
    |fs| == |ps| && forall i :: 0 <= i < |ps| ==> Frames1(fs[i], ps[i])
  }

  /** On success the declared lengths partition the input, and packet i is decoded from frame i alone. */
  lemma {:induction false} DeclaredLengthsPartition(d: seq<byte>)
    requires Walk(d).err == None
    ensures Joined(Frames(d)) == d && FramesMatch(Frames(d), Walk(d).packets)
  {
    hide DecodedContent, DecodedHeader, Walk, Frames, Joined;
    if d == [] {
      EmptyWalk(d);
    } else {
      WalkStep(d);
      var h := DecodedHeader(d).value;
      var n := PacketLength(h);
      DeclaredLengthsPartition(d[n..]);
      HeaderOfPrefix(d, n);
      assert d[..n][4..] == d[4..n];
      JoinedCons(d[..n], Frames(d[n..]));
      assert d == d[..n] + d[n..];
    }
  }

  lemma EmptyWalk(d: seq<byte>)
    requires d == []
    ensures Joined(Frames(d)) == [] && Frames(d) == [] && Walk(d).packets == []
  {
  }
}
