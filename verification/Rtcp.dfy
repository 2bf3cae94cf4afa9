/** RTCP packets and the octets that stand for them (section 6 of RFC 3550). */
module Rtcp {
  import opened Octets
  import opened Sequences

  const TYPE_SR: byte := 200
  const TYPE_RR: byte := 201
  const TYPE_SDES: byte := 202
  const TYPE_BYE: byte := 203
  const TYPE_APP: byte := 204

  datatype Header = Header(padding: bool, count: byte, typ: byte, length: u16)

  datatype ReceptionReport = ReceptionReport(
    ssrc: u32, fractionLost: byte, totalLost: u32, lastSequenceNumber: u32,
    jitter: u32, lastSenderReport: u32, delay: u32)

  datatype SdesItem = SdesItem(typ: byte, text: seq<byte>)

  datatype SdesChunk = SdesChunk(source: u32, items: seq<SdesItem>)

  /** What a packet carries besides its header. */
  datatype Content =
    | SenderReport(ssrc: u32, ntpTime: u64, rtpTime: u32, packetCount: u32, octetCount: u32,
                   reports: seq<ReceptionReport>, extensions: seq<byte>)
    | ReceiverReport(ssrc: u32, reports: seq<ReceptionReport>, extensions: seq<byte>)
    | SourceDescription(chunks: seq<SdesChunk>)
    | Goodbye(sources: seq<u32>, reason: seq<byte>)
    | ApplicationDefined(subType: byte, ssrc: u32, name: seq<byte>, data: seq<byte>)
    | RawRtcp(data: seq<byte>)

  datatype Packet = Packet(hdr: Header, content: Content)

  // ---- Sizes ----

  function ItemSize(i: SdesItem): (n: nat) { 2 + |i.text| }

  function ItemsSize(items: seq<SdesItem>): (n: nat) {
    if items == [] then 0 else ItemSize(items[0]) + ItemsSize(items[1..])
  }

  function ChunksSize(chunks: seq<SdesChunk>): (n: nat) {
    if chunks == [] then 0 else Align4(4 + ItemsSize(chunks[0].items) + 1) + ChunksSize(chunks[1..])
  }

  lemma {:induction false} ChunksSizeAligned(chunks: seq<SdesChunk>)
    ensures ChunksSize(chunks) % 4 == 0
  {
    hide Align4, ItemsSize;
    if chunks == [] {
    } else {
      ChunksSizeAligned(chunks[1..]);
    }
  }

  function BodySize(c: Content): (n: nat)
    ensures n % 4 == 0
  {
    match c
    case SenderReport(_, _, _, _, _, reports, extensions) => Align4(24 + 24 * |reports| + |extensions|)
    case ReceiverReport(_, reports, extensions) => Align4(4 + 24 * |reports| + |extensions|)
    case SourceDescription(chunks) => ChunksSizeAligned(chunks); ChunksSize(chunks)
    case Goodbye(sources, reason) => Align4(4 * |sources| + (if reason == [] then 0 else 1 + |reason|))
    case ApplicationDefined(_, _, _, data) => Align4(8 + |data|)
    case RawRtcp(data) => Align4(|data|)
  }

  /** Octets needed for p: a header word and a whole number of further words. */
  function Size(p: Packet): (n: nat)
    ensures n % 4 == 0 && n >= 4
  {
    4 + BodySize(p.content)
  }

  // ---- Encoding ----

  function HeaderBytes(h: Header): (b: seq<byte>)
    ensures |b| == 4
  {
    [128 + (if h.padding then 32 else 0) + h.count % 32, h.typ] + Be16(h.length)
  }

  /** The header MarshalTo writes for p: counts and length are truncated to their Go types. */
  function WrittenHeader(p: Packet): (h: Header)
    ensures h.padding == p.hdr.padding && h.length == (Size(p) / 4 - 1) % 0x1_0000
  {
    var length := (Size(p) / 4 - 1) % 0x1_0000;
    match p.content
    case SenderReport(_, _, _, _, _, reports, _) => Header(p.hdr.padding, |reports| % 0x100, TYPE_SR, length)
    case ReceiverReport(_, reports, _) => Header(p.hdr.padding, |reports| % 0x100, TYPE_RR, length)
    case SourceDescription(chunks) => Header(p.hdr.padding, |chunks| % 0x100, TYPE_SDES, length)
    case Goodbye(sources, _) => Header(p.hdr.padding, |sources| % 0x100, TYPE_BYE, length)
    case ApplicationDefined(subType, _, _, _) => Header(p.hdr.padding, subType, TYPE_APP, length)
    case RawRtcp(_) => p.hdr.(length := length)
  }

  /** p carrying the header that goes on the wire with it. */
  function Stamped(p: Packet): (q: Packet) { p.(hdr := WrittenHeader(p)) }

  /** The fixed part of a sender report after its header. */
  function SenderInfo(ssrc: u32, ntpTime: u64, rtpTime: u32, packetCount: u32, octetCount: u32): (b: seq<byte>)
    ensures |b| == 24
  {
    Be32(ssrc) + Be64(ntpTime) + Be32(rtpTime) + Be32(packetCount) + Be32(octetCount)
  }

  function ReportBytes(r: ReceptionReport): (b: seq<byte>)
    ensures |b| == 24
  {
    Be32(r.ssrc) + [r.fractionLost] + Be24(r.totalLost) + Be32(r.lastSequenceNumber)
    + Be32(r.jitter) + Be32(r.lastSenderReport) + Be32(r.delay)
  }

  function ReportsBytes(rs: seq<ReceptionReport>): (b: seq<byte>)
    ensures |b| == 24 * |rs|
  {
    ConcatMapUniform(ReportBytes, rs, 24);
    ConcatMap(ReportBytes, rs)
  }

  function SourcesBytes(ss: seq<u32>): (b: seq<byte>)
    ensures |b| == 4 * |ss|
  {
    ConcatMapUniform(Be32, ss, 4);
    ConcatMap(Be32, ss)
  }

  function ItemBytes(i: SdesItem): (b: seq<byte>)
    ensures |b| == ItemSize(i)
  {
    [i.typ, |i.text| % 0x100] + i.text
  }

  function ItemsBytes(items: seq<SdesItem>): (b: seq<byte>)
    ensures |b| == ItemsSize(items)
  {
    if items == [] then [] else ItemBytes(items[0]) + ItemsBytes(items[1..])
  }

  /** One chunk up to and including its END octet, without alignment. */
  function ChunkBytes(c: SdesChunk): (b: seq<byte>)
    ensures |b| == 4 + ItemsSize(c.items) + 1
  {
    Be32(c.source) + ItemsBytes(c.items) + [0]
  }

  /** Chunks with alignment octets that keep whatever the buffer (ground) held before. */
  function ChunksBytes(chunks: seq<SdesChunk>, ground: seq<byte>): (b: seq<byte>)
    requires |ground| == ChunksSize(chunks)
    ensures |b| == ChunksSize(chunks)
  {
    if chunks == [] then []
    else
      var c := ChunkBytes(chunks[0]);
      var n := Align4(|c|);
      c + ground[|c|..n] + ChunksBytes(chunks[1..], ground[n..])
  }

  function Padded(s: seq<byte>): (b: seq<byte>)
    ensures |b| == Align4(|s|) && s <= b
  {
    s + Zeros(Align4(|s|) - |s|)
  }

  /** The four name octets of an APP packet: cut or filled with zeros. */
  function NameBytes(name: seq<byte>): (b: seq<byte>)
    ensures |b| == 4
  {
    if |name| >= 4 then name[..4] else name + Zeros(4 - |name|)
  }

  function ReasonBytes(reason: seq<byte>): (b: seq<byte>)
    ensures |b| == if reason == [] then 0 else 1 + |reason|
  {
    if reason == [] then [] else [|reason| % 0x100] + reason
  }

  /** The octets after the header; only SDES alignment lets ground show through. */
  function Body(c: Content, ground: seq<byte>): (b: seq<byte>)
    requires |ground| == BodySize(c)
    ensures |b| == BodySize(c)
  {
    match c
    case SenderReport(ssrc, ntpTime, rtpTime, packetCount, octetCount, reports, extensions) =>
      Padded(SenderInfo(ssrc, ntpTime, rtpTime, packetCount, octetCount) + ReportsBytes(reports) + extensions)
    case ReceiverReport(ssrc, reports, extensions) => Padded(Be32(ssrc) + ReportsBytes(reports) + extensions)
    case SourceDescription(chunks) => ChunksBytes(chunks, ground)
    case Goodbye(sources, reason) => Padded(SourcesBytes(sources) + ReasonBytes(reason))
    case ApplicationDefined(_, ssrc, name, data) => Padded(Be32(ssrc) + NameBytes(name) + data)
    case RawRtcp(data) => Padded(data)
  }

  /** The octets of p written over ground. */
  function Encoded(p: Packet, ground: seq<byte>): (b: seq<byte>)
    requires |ground| == Size(p)
    ensures |b| == Size(p)
  {
    HeaderBytes(WrittenHeader(p)) + Body(p.content, ground[4..])
  }

  function TotalSize(ps: seq<Packet>): (n: nat) {
    if ps == [] then 0 else Size(ps[0]) + TotalSize(ps[1..])
  }

  /** A compound packet written over ground. */
  function Compound(ps: seq<Packet>, ground: seq<byte>): (b: seq<byte>)
    requires |ground| == TotalSize(ps)
    ensures |b| == TotalSize(ps)
  {
    if ps == [] then []
    else Encoded(ps[0], ground[..Size(ps[0])]) + Compound(ps[1..], ground[Size(ps[0])..])
  }

  // ---- Decoding ----

  datatype RtcpError =
    | TruncatedCompound | BadVersion | LengthExceedsData | EmptyCompound
    | TooShort | TruncatedReport | TruncatedChunk | TruncatedItem | TruncatedSource | TruncatedReason
    | BufferTooSmall | NoPackets

  datatype Result<+T> = Ok(value: T) | Err(error: RtcpError) {
    predicate IsFailure() { Err? }
    function PropagateFailure<U>(): Result<U> requires Err? { Err(error) }
    function Extract(): T requires Ok? { value }
  }

  /** r with acc in front: what a loop that has collected acc will return once the rest is decoded. */
  function Prepend<T>(acc: seq<T>, r: Result<seq<T>>): (s: Result<seq<T>>)
    ensures acc == [] ==> s == r
    ensures r == Ok([]) ==> s == Ok(acc)
    ensures r.Err? ==> s == r
  {
    match r
    case Err(e) => Err(e)
    case Ok(v) =>
      assert [] + v == v && acc + [] == acc;
      Ok(acc + v)
  }

  lemma PrependOne<T>(acc: seq<T>, x: T, r: Result<seq<T>>)
    ensures Prepend(acc, Prepend([x], r)) == Prepend(acc + [x], r)
  {
    if r.Ok? { assert acc + ([x] + r.value) == acc + [x] + r.value; }
  }

  /** r after acc items and n octets already taken. */
  function PrependItems(acc: seq<SdesItem>, n: nat, r: Result<(seq<SdesItem>, nat)>): (s: Result<(seq<SdesItem>, nat)>)
    ensures acc == [] && n == 0 ==> s == r
    ensures r.Ok? && r.value.0 == [] ==> s == Ok((acc, n + r.value.1))
    ensures r.Err? ==> s == r
  {
    match r
    case Err(e) => Err(e)
    case Ok(v) =>
      assert [] + v.0 == v.0 && acc + [] == acc;
      Ok((acc + v.0, n + v.1))
  }

  lemma PrependItem(acc: seq<SdesItem>, n: nat, x: SdesItem, k: nat, r: Result<(seq<SdesItem>, nat)>)
    ensures PrependItems(acc, n, PrependItems([x], k, r)) == PrependItems(acc + [x], n + k, r)
  {
    if r.Ok? { assert acc + ([x] + r.value.0) == acc + [x] + r.value.0; }
  }

  function DecodedHeader(d: seq<byte>): (r: Result<Header>) {
    if |d| < 4 then Err(TooShort)
    else if d[0] / 64 != 2 then Err(BadVersion)
    else Ok(Header(d[0] / 32 % 2 == 1, d[0] % 32, d[1], U16At(d, 2)))
  }

  function ReportAt(s: seq<byte>): (r: ReceptionReport)
    requires |s| >= 24
  {
    ReceptionReport(U32At(s, 0), s[4], U24At(s, 5), U32At(s, 8), U32At(s, 12), U32At(s, 16), U32At(s, 20))
  }

  /** The next n report blocks of s. */
  function DecodedReports(s: seq<byte>, n: nat): (r: Result<seq<ReceptionReport>>)
    ensures r.Ok? ==> |r.value| == n && 24 * n <= |s|
  {
    if n == 0 then Ok([])
    else if |s| < 24 then Err(TruncatedReport)
    else
      Prepend([ReportAt(s)], DecodedReports(s[24..], n - 1))
  }

  /** Items up to an END octet or the end of s, and the octets they took. */
  function DecodedItems(s: seq<byte>): (r: Result<(seq<SdesItem>, nat)>)
    ensures r.Ok? ==> r.value.1 <= |s|
  {
    if s == [] then Ok(([], 0))
    else if s[0] == 0 then Ok(([], 1))
    else if |s| < 2 || |s| < 2 + s[1] as nat then Err(TruncatedItem)
    else
      var used := 2 + s[1] as nat;
      PrependItems([SdesItem(s[0], s[2..used])], used, DecodedItems(s[used..]))
  }

  /** n chunks, each starting on a 32-bit boundary. */
  function DecodedChunks(s: seq<byte>, n: nat): (r: Result<seq<SdesChunk>>)
    requires |s| % 4 == 0
    ensures r.Ok? ==> |r.value| == n
  {
    if n == 0 then Ok([])
    else if |s| < 4 then Err(TruncatedChunk)
    else
      match DecodedItems(s[4..])
      case Err(e) => Err(e)
      case Ok(v) =>
        AlignWithin(4 + v.1, |s|);
        Prepend([SdesChunk(U32At(s, 0), v.0)], DecodedChunks(s[Align4(4 + v.1)..], n - 1))
  }

  function DecodedSources(s: seq<byte>, n: nat): (r: Result<seq<u32>>)
    ensures r.Ok? ==> |r.value| == n && 4 * n <= |s|
  {
    if n == 0 then Ok([])
    else if |s| < 4 then Err(TruncatedSource)
    else
      Prepend([U32At(s, 0)], DecodedSources(s[4..], n - 1))
  }

  /** The reason text after the sources of a BYE, absent when nothing follows them. */
  function DecodedReason(s: seq<byte>): (r: Result<seq<byte>>) {
    if s == [] then Ok([])
    else if |s| < 1 + s[0] as nat then Err(TruncatedReason)
    else Ok(s[1..1 + s[0]])
  }

  /** APP data without the padding its last octet declares. */
  function StripPadding(padding: bool, data: seq<byte>): (r: seq<byte>)
    ensures r <= data
  {
    if padding && data != [] && 0 < data[|data| - 1] <= |data| then data[..|data| - data[|data| - 1]] else data
  }

  function DecodedSender(h: Header, b: seq<byte>): (r: Result<Content>)
  {
    if |b| < 24 then Err(TooShort)
    else
      var reports :- DecodedReports(b[24..], h.count);
      Ok(SenderReport(U32At(b, 0), U64At(b, 4), U32At(b, 12), U32At(b, 16), U32At(b, 20),
                      reports, b[24 + 24 * |reports|..]))
  }

  function DecodedReceiver(h: Header, b: seq<byte>): (r: Result<Content>)
  {
    if |b| < 4 then Err(TooShort)
    else
      var reports :- DecodedReports(b[4..], h.count);
      Ok(ReceiverReport(U32At(b, 0), reports, b[4 + 24 * |reports|..]))
  }

  function DecodedDescription(h: Header, b: seq<byte>): (r: Result<Content>)
    requires |b| % 4 == 0
  {
    var chunks :- DecodedChunks(b, h.count);
    Ok(SourceDescription(chunks))
  }

  function DecodedGoodbye(h: Header, b: seq<byte>): (r: Result<Content>)
  {
    var sources :- DecodedSources(b, h.count);
    var reason :- DecodedReason(b[4 * |sources|..]);
    Ok(Goodbye(sources, reason))
  }

  function DecodedApplication(h: Header, b: seq<byte>): (r: Result<Content>)
  {
    if |b| < 8 then Err(TooShort)
    else Ok(ApplicationDefined(h.count, U32At(b, 0), b[4..8], StripPadding(h.padding, b[8..])))
  }

  /** What a packet carries, from its header and the octets that fill its declared length. */
  function DecodedContent(h: Header, b: seq<byte>): (r: Result<Content>)
    requires |b| % 4 == 0
  {
    if h.typ == TYPE_SR then DecodedSender(h, b)
    else if h.typ == TYPE_RR then DecodedReceiver(h, b)
    else if h.typ == TYPE_SDES then DecodedDescription(h, b)
    else if h.typ == TYPE_BYE then DecodedGoodbye(h, b)
    else if h.typ == TYPE_APP then DecodedApplication(h, b)
    else Ok(RawRtcp(b))
  }

  /** What UnmarshalRTCP returns: the packets read, and the error that stopped it if any. */
  datatype Parsed = Parsed(packets: seq<Packet>, err: Option<RtcpError>)

  function PacketLength(h: Header): (n: nat)
    ensures n % 4 == 0 && n >= 4
  {
    (h.length + 1) * 4
  }

  /** The packets of a compound packet, front to back. */
  function Walk(d: seq<byte>): (r: Parsed) {
    if d == [] then Parsed([], None)
    else if |d| < 4 then Parsed([], Some(TruncatedCompound))
    else
      match DecodedHeader(d)
      case Err(e) => Parsed([], Some(e))
      case Ok(h) =>
        var n := PacketLength(h);
        if n > |d| then Parsed([], Some(LengthExceedsData))
        else
          match DecodedContent(h, d[4..n])
          case Err(e) => Parsed([], Some(e))
          case Ok(c) =>
            var rest := Walk(d[n..]);
            Parsed([Packet(h, c)] + rest.packets, rest.err)
  }

  function Decoded(d: seq<byte>): (r: Parsed) {
    if d == [] then Parsed([], Some(EmptyCompound)) else Walk(d)
  }

  // ---- One step of each decoder ----

  lemma ReportStep(s: seq<byte>, n: nat)
    requires |s| >= 24 && n > 0
    ensures DecodedReports(s, n) == Prepend([ReportAt(s)], DecodedReports(s[24..], n - 1))
  {
  }

  lemma ItemStep(s: seq<byte>, used: nat)
    requires |s| >= 2 && s[0] != 0 && used == 2 + s[1] as nat <= |s|
    ensures DecodedItems(s) == PrependItems([SdesItem(s[0], s[2..used])], used, DecodedItems(s[used..]))
  {
  }

  lemma ItemsEnd(s: seq<byte>)
    requires s == [] || s[0] == 0
    ensures DecodedItems(s) == Ok(([], if s == [] then 0 else 1))
  {
  }

  lemma ItemFails(s: seq<byte>)
    requires |s| >= 1 && s[0] != 0 && (|s| < 2 || |s| < 2 + s[1] as nat)
    ensures DecodedItems(s) == Err(TruncatedItem)
  {
  }

  lemma ChunkStep(s: seq<byte>, n: nat, items: seq<SdesItem>, k: nat, used: nat)
    requires |s| % 4 == 0 && |s| >= 4 && n > 0 && DecodedItems(s[4..]) == Ok((items, k))
    requires used == Align4(4 + k) && used <= |s|
    ensures DecodedChunks(s, n) == Prepend([SdesChunk(U32At(s, 0), items)], DecodedChunks(s[used..], n - 1))
  {
    hide Align4, DecodedItems;
  }

  lemma ChunksDone(s: seq<byte>)
    requires |s| % 4 == 0
    ensures DecodedChunks(s, 0) == Ok([])
  {
  }

  lemma ChunksTooShort(s: seq<byte>, n: nat)
    requires |s| % 4 == 0 && |s| < 4 && n > 0
    ensures DecodedChunks(s, n) == Err(TruncatedChunk)
  {
  }

  lemma ChunkFails(s: seq<byte>, n: nat)
    requires |s| % 4 == 0 && |s| >= 4 && n > 0 && DecodedItems(s[4..]).Err?
    ensures DecodedChunks(s, n) == Err(DecodedItems(s[4..]).error)
  {
    hide DecodedItems;
  }

  lemma SourceStep(s: seq<byte>, n: nat)
    requires |s| >= 4 && n > 0
    ensures DecodedSources(s, n) == Prepend([U32At(s, 0)], DecodedSources(s[4..], n - 1))
  {
  }
}
