/** The RTCP marshallers and parsers as the program runs them: offsets into buffers, loops over lists. */
module RtcpCodec {
  import opened Octets
  import opened Sequences
  import opened Buffers
  import opened Rtcp

  // ---- Sizes ----

  lemma {:induction false} ItemsAppend(xs: seq<SdesItem>, ys: seq<SdesItem>)
    ensures ItemsSize(xs + ys) == ItemsSize(xs) + ItemsSize(ys)
    ensures ItemsBytes(xs + ys) == ItemsBytes(xs) + ItemsBytes(ys)
  {
    if xs == [] {
      assert xs + ys == ys;
    } else {
      assert (xs + ys)[1..] == xs[1..] + ys;
      ItemsAppend(xs[1..], ys);
    }
  }

  lemma ItemsOne(i: SdesItem)
    ensures ItemsSize([i]) == ItemSize(i) && ItemsBytes([i]) == ItemBytes(i)
  {
    assert [i][1..] == [];
    assert ItemsBytes([i]) == ItemBytes(i) + [];
  }

  lemma ItemsTake(items: seq<SdesItem>, i: nat)
    requires i < |items|
    ensures ItemsSize(items[..i + 1]) == ItemsSize(items[..i]) + ItemSize(items[i]) <= ItemsSize(items)
    ensures ItemsBytes(items[..i + 1]) == ItemsBytes(items[..i]) + ItemBytes(items[i])
  {
    hide ItemBytes, ItemSize, ItemsBytes, ItemsSize;
    assert items[..i + 1] == items[..i] + [items[i]];
    assert items == items[..i + 1] + items[i + 1..];
    ItemsAppend(items[..i], [items[i]]);
    ItemsAppend(items[..i + 1], items[i + 1..]);
    ItemsOne(items[i]);
  }

  lemma {:induction false} ChunksSizeAppend(xs: seq<SdesChunk>, ys: seq<SdesChunk>)
    ensures ChunksSize(xs + ys) == ChunksSize(xs) + ChunksSize(ys)
  {
    if xs == [] {
      assert xs + ys == ys;
    } else {
      assert (xs + ys)[1..] == xs[1..] + ys;
      ChunksSizeAppend(xs[1..], ys);
    }
  }

  lemma ChunksSizeTake(chunks: seq<SdesChunk>, i: nat)
    requires i < |chunks|
    ensures ChunksSize(chunks[..i + 1]) == ChunksSize(chunks[..i]) + Align4(|ChunkBytes(chunks[i])|)
    ensures ChunksSize(chunks[..i + 1]) <= ChunksSize(chunks)
  {
    hide ChunksSize, ChunkBytes, Align4, ItemsSize;
    assert chunks[..i + 1] == chunks[..i] + [chunks[i]];
    assert chunks == chunks[..i + 1] + chunks[i + 1..];
    ChunksSizeAppend(chunks[..i], [chunks[i]]);
    ChunksSizeAppend(chunks[..i + 1], chunks[i + 1..]);
    ChunksSizeOne(chunks[i]);
  }

  lemma ChunksSizeOne(c: SdesChunk)
    ensures ChunksSize([c]) == Align4(|ChunkBytes(c)|)
  {
    hide Align4, ItemsSize;
    assert [c][1..] == [];
  }

  /** Rounding an aligned offset plus k up is adding k rounded up. */
  lemma AlignFrom(base: nat, k: nat)
    requires base % 4 == 0
    ensures (base + k + 3) / 4 * 4 == base + Align4(k)
  {
  }

  method AddItemSizes(start: nat, items: seq<SdesItem>) returns (sz: nat)
    ensures sz == start + ItemsSize(items)
  {
    sz := start;
    for i := 0 to |items|
      invariant sz == start + ItemsSize(items[..i])
    {
      ItemsTake(items, i);
      sz := sz + 2 + |items[i].text|;
    }
    assert items[..|items|] == items;
  }

  /** SourceDescription.MarshalSize: one running total, rounded up after every chunk. */
  method SourceDescriptionSize(chunks: seq<SdesChunk>) returns (sz: nat)
    ensures sz == 4 + ChunksSize(chunks)
  {
    hide Align4, ItemsSize, ChunksSize;
    sz := 4;
    NoChunks(chunks[..0]);
    for i := 0 to |chunks|
      invariant sz == 4 + ChunksSize(chunks[..i])
    {
      ghost var start := sz;
      ChunksSizeAligned(chunks[..i]);
      sz := AddItemSizes(sz + 4, chunks[i].items);
      sz := sz + 1;
      AlignFrom(start, 4 + ItemsSize(chunks[i].items) + 1);
      sz := (sz + 3) / 4 * 4;
      ChunksSizeTake(chunks, i);
    }
    assert chunks[..|chunks|] == chunks;
  }

  // ---- Marshalling ----

  /** What every MarshalTo does to the slice of a buffer from lo on, for packet p. */
  ghost predicate Marshalled(p: Packet, before: seq<byte>, after: seq<byte>, lo: nat, r: Result<nat>)
    requires lo <= |before|
  {
    if |before| - lo < Size(p) then r == Err(BufferTooSmall) && after == before
    else r == Ok(Size(p)) && after == Splice(before, lo, Encoded(p, before[lo..lo + Size(p)]))
  }

  lemma ReportsTake(rs: seq<ReceptionReport>, i: nat)
    requires i < |rs|
    ensures ReportsBytes(rs[..i + 1]) == ReportsBytes(rs[..i]) + ReportBytes(rs[i])
  {
    ConcatMapTake(ReportBytes, rs, i);
  }

  /** Writes the report blocks of SR and RR packets after what is already written. */
  method WriteReports(buf: array<byte>, ghost before: seq<byte>, ghost at: nat, ghost done: seq<byte>, pos: nat,
                      reports: seq<ReceptionReport>) returns (off: nat)
    requires |before| == buf.Length && at + |done| + 24 * |reports| <= buf.Length
    requires pos == at + |done| && buf[..] == Splice(before, at, done)
    modifies buf
    ensures off == pos + 24 * |reports| && buf[..] == Splice(before, at, done + ReportsBytes(reports))
  {
    off := pos;
    assert done + [] == done;
    for i := 0 to |reports|
      invariant off == pos + 24 * i
      invariant buf[..] == Splice(before, at, done + ReportsBytes(reports[..i]))
    {
      ReportsTake(reports, i);
      assert done + (ReportsBytes(reports[..i]) + ReportBytes(reports[i]))
          == done + ReportsBytes(reports[..i]) + ReportBytes(reports[i]);
      off := Append(buf, before, at, done + ReportsBytes(reports[..i]), off, ReportBytes(reports[i]));
    }
    assert reports[..|reports|] == reports;
  }

  /** clear(buf[off:sz]) after raw octets that end a packet of sz octets. */
  method ClearTail(buf: array<byte>, ghost before: seq<byte>, ghost at: nat, ghost h: seq<byte>, ghost raw: seq<byte>,
                   pos: nat, end: nat)
    requires |before| == buf.Length && |h| == 4 && at + 4 + Align4(|raw|) <= buf.Length
    requires pos == at + |h| + |raw| && end == at + 4 + Align4(|raw|)
    requires buf[..] == Splice(before, at, h + raw)
    modifies buf
    ensures buf[..] == Splice(before, at, h + Padded(raw))
  {
    var _ := Append(buf, before, at, h + raw, pos, Zeros(end - pos));
    assert h + raw + Zeros(end - pos) == h + Padded(raw);
  }

  method MarshalSenderReport(p: Packet, buf: array<byte>, lo: nat) returns (r: Result<nat>)
    requires p.content.SenderReport? && lo <= buf.Length
    modifies buf
    ensures Marshalled(p, old(buf[..]), buf[..], lo, r)
  {
    hide HeaderBytes, WrittenHeader, SenderInfo, Be32, ReportsBytes, SourcesBytes, NameBytes, ReasonBytes, Padded,
      Zeros, Splice;
    var c := p.content;
    var sz := (28 + 24 * |c.reports| + |c.extensions| + 3) / 4 * 4;
    if buf.Length - lo < sz { return Err(BufferTooSmall); }
    var h := HeaderBytes(WrittenHeader(p));
    var info := SenderInfo(c.ssrc, c.ntpTime, c.rtpTime, c.packetCount, c.octetCount);
    ghost var before := buf[..];
    Copy(buf, lo, h);
    var off := Append(buf, before, lo, h, lo + 4, info);
    off := WriteReports(buf, before, lo, h + info, off, c.reports);
    off := Append(buf, before, lo, h + info + ReportsBytes(c.reports), off, c.extensions);
    ghost var raw := info + ReportsBytes(c.reports) + c.extensions;
    assert h + info + ReportsBytes(c.reports) + c.extensions == h + raw;
    ClearTail(buf, before, lo, h, raw, off, lo + sz);
    r := Ok(sz);
  }

  method MarshalReceiverReport(p: Packet, buf: array<byte>, lo: nat) returns (r: Result<nat>)
    requires p.content.ReceiverReport? && lo <= buf.Length
    modifies buf
    ensures Marshalled(p, old(buf[..]), buf[..], lo, r)
  {
    hide HeaderBytes, WrittenHeader, SenderInfo, Be32, ReportsBytes, SourcesBytes, NameBytes, ReasonBytes, Padded,
      Zeros, Splice;
    var c := p.content;
    var sz := (8 + 24 * |c.reports| + |c.extensions| + 3) / 4 * 4;
    if buf.Length - lo < sz { return Err(BufferTooSmall); }
    var h := HeaderBytes(WrittenHeader(p));
    ghost var before := buf[..];
    Copy(buf, lo, h);
    var off := Append(buf, before, lo, h, lo + 4, Be32(c.ssrc));
    off := WriteReports(buf, before, lo, h + Be32(c.ssrc), off, c.reports);
    off := Append(buf, before, lo, h + Be32(c.ssrc) + ReportsBytes(c.reports), off, c.extensions);
    ghost var raw := Be32(c.ssrc) + ReportsBytes(c.reports) + c.extensions;
    assert h + Be32(c.ssrc) + ReportsBytes(c.reports) + c.extensions == h + raw;
    ClearTail(buf, before, lo, h, raw, off, lo + sz);
    r := Ok(sz);
  }

  lemma SourcesTake(ss: seq<u32>, i: nat)
    requires i < |ss|
    ensures SourcesBytes(ss[..i + 1]) == SourcesBytes(ss[..i]) + Be32(ss[i])
  {
    ConcatMapTake(Be32, ss, i);
  }

  method WriteSources(buf: array<byte>, ghost before: seq<byte>, ghost at: nat, ghost done: seq<byte>, pos: nat,
                      sources: seq<u32>) returns (off: nat)
    requires |before| == buf.Length && at + |done| + 4 * |sources| <= buf.Length
    requires pos == at + |done| && buf[..] == Splice(before, at, done)
    modifies buf
    ensures off == pos + 4 * |sources| && buf[..] == Splice(before, at, done + SourcesBytes(sources))
  {
    off := pos;
    assert done + [] == done;
    for i := 0 to |sources|
      invariant off == pos + 4 * i
      invariant buf[..] == Splice(before, at, done + SourcesBytes(sources[..i]))
    {
      SourcesTake(sources, i);
      assert done + (SourcesBytes(sources[..i]) + Be32(sources[i]))
          == done + SourcesBytes(sources[..i]) + Be32(sources[i]);
      off := Append(buf, before, at, done + SourcesBytes(sources[..i]), off, Be32(sources[i]));
    }
    assert sources[..|sources|] == sources;
  }

  method MarshalGoodbye(p: Packet, buf: array<byte>, lo: nat) returns (r: Result<nat>)
    requires p.content.Goodbye? && lo <= buf.Length
    modifies buf
    ensures Marshalled(p, old(buf[..]), buf[..], lo, r)
  {
    hide HeaderBytes, WrittenHeader, Be32, SourcesBytes, Padded, Zeros, Splice;
    var c := p.content;
    var sz := 4 + 4 * |c.sources|;
    if c.reason != [] { sz := sz + 1 + |c.reason|; }
    sz := (sz + 3) / 4 * 4;
    if buf.Length - lo < sz { return Err(BufferTooSmall); }
    var h := HeaderBytes(WrittenHeader(p));
    ghost var before := buf[..];
    Copy(buf, lo, h);
    var off := WriteSources(buf, before, lo, h, lo + 4, c.sources);
    ghost var ss := SourcesBytes(c.sources);
    if c.reason != [] {
      off := Append(buf, before, lo, h + ss, off, [|c.reason| % 0x100]);
      off := Append(buf, before, lo, h + ss + [|c.reason| % 0x100], off, c.reason);
      assert h + ss + [|c.reason| % 0x100] + c.reason == h + (ss + ReasonBytes(c.reason));
    } else {
      assert h + ss == h + (ss + ReasonBytes(c.reason));
    }
    ClearTail(buf, before, lo, h, ss + ReasonBytes(c.reason), off, lo + sz);
    r := Ok(sz);
  }

  method MarshalApplication(p: Packet, buf: array<byte>, lo: nat) returns (r: Result<nat>)
    requires p.content.ApplicationDefined? && lo <= buf.Length
    modifies buf
    ensures Marshalled(p, old(buf[..]), buf[..], lo, r)
  {
    hide HeaderBytes, WrittenHeader, SenderInfo, Be32, ReportsBytes, SourcesBytes, ReasonBytes, Padded, Splice;
    var c := p.content;
    var sz := (12 + |c.data| + 3) / 4 * 4;
    if buf.Length - lo < sz { return Err(BufferTooSmall); }
    var h := HeaderBytes(WrittenHeader(p));
    ghost var before := buf[..];
    Copy(buf, lo, h);
    var off := Append(buf, before, lo, h, lo + 4, Be32(c.ssrc));
    var cut := if |c.name| < 4 then |c.name| else 4;
    off := Append(buf, before, lo, h + Be32(c.ssrc), off, c.name[..cut]);
    off := Append(buf, before, lo, h + Be32(c.ssrc) + c.name[..cut], off, Zeros(4 - cut));
    assert h + Be32(c.ssrc) + c.name[..cut] + Zeros(4 - cut) == h + Be32(c.ssrc) + NameBytes(c.name);
    off := Append(buf, before, lo, h + Be32(c.ssrc) + NameBytes(c.name), off, c.data);
    ghost var raw := Be32(c.ssrc) + NameBytes(c.name) + c.data;
    assert h + Be32(c.ssrc) + NameBytes(c.name) + c.data == h + raw;
    ClearTail(buf, before, lo, h, raw, off, lo + sz);
    r := Ok(sz);
  }

  method MarshalRaw(p: Packet, buf: array<byte>, lo: nat) returns (r: Result<nat>)
    requires p.content.RawRtcp? && lo <= buf.Length
    modifies buf
    ensures Marshalled(p, old(buf[..]), buf[..], lo, r)
  {
    hide HeaderBytes, WrittenHeader, SenderInfo, Be32, ReportsBytes, SourcesBytes, NameBytes, ReasonBytes, Padded,
      Zeros, Splice;
    var c := p.content;
    var sz := (4 + |c.data| + 3) / 4 * 4;
    if buf.Length - lo < sz { return Err(BufferTooSmall); }
    var h := HeaderBytes(WrittenHeader(p));
    ghost var before := buf[..];
    Copy(buf, lo, h);
    var off := Append(buf, before, lo, h, lo + 4, c.data);
    ClearTail(buf, before, lo, h, c.data, off, lo + sz);
    r := Ok(sz);
  }

  // ---- Source descriptions ----

  /** Skipping k elements of a buffer is writing what it already held there. */
  lemma SpliceSkip<T>(s: seq<T>, at: nat, t: seq<T>, k: nat)
    requires at + |t| + k <= |s|
    ensures Splice(s, at, t + s[at + |t|..at + |t| + k]) == Splice(s, at, t)
  {
  }

  lemma ChunksBytesUnfold(chunks: seq<SdesChunk>, rest: seq<SdesChunk>, ground: seq<byte>)
    requires chunks != [] && rest == chunks[1..] && |ground| == ChunksSize(chunks)
    ensures var c := ChunkBytes(chunks[0]); var n := Align4(|c|);
      && n <= |ground| && |ground| - n == ChunksSize(rest)
      && ChunksBytes(chunks, ground) == c + ground[|c|..n] + ChunksBytes(rest, ground[n..])
  {
    hide Align4, ItemsSize, ChunkBytes;
  }

  lemma ChunksBytesCons(c: SdesChunk, rest: seq<SdesChunk>, g: seq<byte>, gap: seq<byte>, ground: seq<byte>)
    requires |ground| == ChunksSize(rest) && |g| == |ChunkBytes(c)| && |g| + |gap| == Align4(|g|)
    ensures ChunksSize([c] + rest) == |g| + |gap| + |ground|
    ensures ChunksBytes([c] + rest, g + gap + ground) == ChunkBytes(c) + gap + ChunksBytes(rest, ground)
  {
    hide ChunkBytes, Align4, ItemsSize, ChunksBytes;
    var all := [c] + rest;
    assert all[0] == c && all[1..] == rest;
    assert ChunksSize(all) == Align4(|g|) + ChunksSize(rest);
    var whole := g + gap + ground;
    ChunksBytesUnfold(all, rest, whole);
    assert whole[|g|..Align4(|g|)] == gap;
    assert whole[Align4(|g|)..] == ground;
  }

  /** One more chunk over ground that is hidden by the chunk and shows through in the gap after it. */
  lemma {:induction false} ChunksBytesSnoc(chunks: seq<SdesChunk>, c: SdesChunk, ground: seq<byte>, g: seq<byte>,
    gap: seq<byte>)
    requires |ground| == ChunksSize(chunks)
    requires |g| == |ChunkBytes(c)| && |g| + |gap| == Align4(|g|)
    ensures ChunksSize(chunks + [c]) == |ground| + |g| + |gap|
    ensures ChunksBytes(chunks + [c], ground + g + gap) == ChunksBytes(chunks, ground) + ChunkBytes(c) + gap
  {
    hide ChunkBytes, Align4, ItemsSize, ChunksBytes;
    if chunks == [] {
      assert chunks + [c] == [c] + [] && ground + g + gap == g + gap + [];
      ChunksBytesCons(c, [], g, gap, []);
    } else {
      var first := chunks[0];
      var rest := chunks[1..];
      var k := |ChunkBytes(first)|;
      var n := Align4(k);
      ChunksBytesSnoc(rest, c, ground[n..], g, gap);
      ChunksBytesCons(first, rest + [c], ground[..k], ground[k..n], ground[n..] + g + gap);
      ChunksBytesCons(first, rest, ground[..k], ground[k..n], ground[n..]);
      assert chunks == [first] + rest && chunks + [c] == [first] + (rest + [c]);
      Cuts(ground, k, n);
      Regroup(ground[..k], ground[k..n], ground[n..], g, gap);
      Regroup(ChunkBytes(first), ground[k..n], ChunksBytes(rest, ground[n..]), ChunkBytes(c), gap);
    }
  }

  method WriteItems(buf: array<byte>, ghost before: seq<byte>, ghost at: nat, ghost done: seq<byte>, pos: nat,
                    items: seq<SdesItem>) returns (off: nat)
    requires |before| == buf.Length && at + |done| + ItemsSize(items) <= buf.Length
    requires pos == at + |done| && buf[..] == Splice(before, at, done)
    modifies buf
    ensures off == pos + ItemsSize(items) && buf[..] == Splice(before, at, done + ItemsBytes(items))
  {
    hide Splice;
    off := pos;
    assert done + [] == done;
    for i := 0 to |items|
      invariant off == pos + ItemsSize(items[..i]) && ItemsSize(items[..i]) <= ItemsSize(items)
      invariant buf[..] == Splice(before, at, done + ItemsBytes(items[..i]))
    {
      ItemsTake(items, i);
      ghost var sofar := done + ItemsBytes(items[..i]);
      var head := [items[i].typ, |items[i].text| % 0x100];
      off := Append(buf, before, at, sofar, off, head);
      off := Append(buf, before, at, sofar + head, off, items[i].text);
      assert ItemBytes(items[i]) == head + items[i].text;
      Assoc(done, ItemsBytes(items[..i]), head, items[i].text);
      assert ItemsBytes(items[..i]) + head + items[i].text == ItemsBytes(items[..i + 1]);
    }
    assert items[..|items|] == items;
  }

  /** Writes one chunk up to its END octet. */
  method WriteChunk(buf: array<byte>, ghost before: seq<byte>, ghost at: nat, ghost done: seq<byte>, pos: nat,
                    c: SdesChunk) returns (off: nat)
    requires |before| == buf.Length && at + |done| + |ChunkBytes(c)| <= buf.Length
    requires pos == at + |done| && buf[..] == Splice(before, at, done)
    modifies buf
    ensures off == pos + |ChunkBytes(c)| && buf[..] == Splice(before, at, done + ChunkBytes(c))
  {
    hide Splice, Be32, ItemsBytes, ItemsSize;
    off := Append(buf, before, at, done, pos, Be32(c.source));
    off := WriteItems(buf, before, at, done + Be32(c.source), off, c.items);
    off := Append(buf, before, at, done + Be32(c.source) + ItemsBytes(c.items), off, [0]);
    Assoc(done, Be32(c.source), ItemsBytes(c.items), [0]);
  }

  /** Writes a chunk and moves to the next boundary: the alignment octets are skipped, not cleared. */
  method WriteAlignedChunk(buf: array<byte>, ghost before: seq<byte>, lo: nat, ghost done: seq<byte>, off: nat,
                           c: SdesChunk, ghost gap: seq<byte>) returns (next: nat)
    requires |before| == buf.Length && off == |done| && off % 4 == 0
    requires lo + off + Align4(|ChunkBytes(c)|) <= buf.Length
    requires gap == before[lo + off + |ChunkBytes(c)|..lo + off + Align4(|ChunkBytes(c)|)]
    requires buf[..] == Splice(before, lo, done)
    modifies buf
    ensures next == off + Align4(|ChunkBytes(c)|)
    ensures buf[..] == Splice(before, lo, done + ChunkBytes(c) + gap)
  {
    hide Align4, Splice, ChunkBytes;
    next := WriteChunk(buf, before, lo, done, lo + off, c);
    ghost var k := |ChunkBytes(c)|;
    AlignFrom(off, k);
    next := (next - lo + 3) / 4 * 4;
    SpliceSkip(before, lo, done + ChunkBytes(c), Align4(k) - k);
  }

  lemma NextChunk(chunks: seq<SdesChunk>, i: nat, ground: seq<byte>)
    requires i < |chunks| && |ground| == ChunksSize(chunks)
    ensures var start := ChunksSize(chunks[..i]); var c := chunks[i]; var end := ChunksSize(chunks[..i + 1]);
      && start + |ChunkBytes(c)| <= end == start + Align4(|ChunkBytes(c)|) <= |ground|
      && ChunksBytes(chunks[..i + 1], ground[..end])
         == ChunksBytes(chunks[..i], ground[..start]) + ChunkBytes(c) + ground[start + |ChunkBytes(c)|..end]
  {
    hide ChunkBytes, Align4, ChunksBytes, ChunksSize;
    var c := chunks[i];
    ChunksSizeTake(chunks, i);
    var start := ChunksSize(chunks[..i]);
    var mid := start + |ChunkBytes(c)|;
    var end := ChunksSize(chunks[..i + 1]);
    ChunksBytesSnoc(chunks[..i], c, ground[..start], ground[start..mid], ground[mid..end]);
    assert chunks[..i] + [c] == chunks[..i + 1];
    assert ground[..start] + ground[start..mid] + ground[mid..end] == ground[..end];
  }

  lemma DescriptionMarshalled(p: Packet, before: seq<byte>, lo: nat, after: seq<byte>, h: seq<byte>)
    requires p.content.SourceDescription? && h == HeaderBytes(WrittenHeader(p))
    requires lo + Size(p) <= |before|
    requires after == Splice(before, lo, h + ChunksBytes(p.content.chunks, before[lo..lo + Size(p)][4..]))
    ensures Marshalled(p, before, after, lo, Ok(Size(p)))
  {
    hide Splice, HeaderBytes, WrittenHeader, ChunksBytes, ChunksSize;
  }

  /** SourceDescription.MarshalTo. */
  method MarshalSourceDescription(p: Packet, buf: array<byte>, lo: nat) returns (r: Result<nat>)
    requires p.content.SourceDescription? && lo <= buf.Length
    modifies buf
    ensures Marshalled(p, old(buf[..]), buf[..], lo, r)
  {
    hide HeaderBytes, WrittenHeader, Splice, ChunkBytes, Align4, ItemsSize, ChunksBytes, Encoded, Body;
    var chunks := p.content.chunks;
    var sz := SourceDescriptionSize(chunks);
    if buf.Length - lo < sz { return Err(BufferTooSmall); }
    var h := HeaderBytes(WrittenHeader(p));
    ghost var before := buf[..];
    ghost var ground := before[lo..lo + sz][4..];
    Copy(buf, lo, h);
    WriteChunks(buf, before, lo, h, chunks, ground);
    DescriptionMarshalled(p, before, lo, buf[..], h);
    r := Ok(sz);
  }

  lemma NoChunks(chunks: seq<SdesChunk>)
    requires chunks == []
    ensures ChunksSize(chunks) == 0 && ChunksBytes(chunks, []) == []
  {
  }

  method WriteChunks(buf: array<byte>, ghost before: seq<byte>, lo: nat, ghost h: seq<byte>, chunks: seq<SdesChunk>,
                     ghost ground: seq<byte>)
    requires |before| == buf.Length && |h| == 4 && |ground| == ChunksSize(chunks) && lo + 4 + |ground| <= buf.Length
    requires ground == before[lo + 4..lo + 4 + |ground|]
    requires buf[..] == Splice(before, lo, h)
    modifies buf
    ensures buf[..] == Splice(before, lo, h + ChunksBytes(chunks, ground))
  {
    hide Splice, ChunkBytes, Align4, ItemsSize, ChunksSize, ChunksBytes;
    var off := 4;
    ghost var done: seq<byte> := [];
    assert h + done == h;
    NoChunks(chunks[..0]);
    for ci := 0 to |chunks|
      invariant off == 4 + ChunksSize(chunks[..ci]) && ChunksSize(chunks[..ci]) <= |ground|
      invariant done == ChunksBytes(chunks[..ci], ground[..ChunksSize(chunks[..ci])])
      invariant buf[..] == Splice(before, lo, h + done)
    {
      var c := chunks[ci];
      ghost var mid := off - 4 + |ChunkBytes(c)|;
      NextChunk(chunks, ci, ground);
      ChunksSizeAligned(chunks[..ci]);
      ghost var end := off - 4 + Align4(|ChunkBytes(c)|);
      ghost var gap := ground[mid..end];
      SliceOfSlice(before, lo + 4, lo + 4 + |ground|, mid, end);
      off := WriteAlignedChunk(buf, before, lo, h + done, off, c, gap);
      Assoc(h, done, ChunkBytes(c), gap);
      done := done + ChunkBytes(c) + gap;
    }
    assert chunks[..|chunks|] == chunks && ground[..|ground|] == ground;
  }

  // ---- Compound packets ----

  method MarshalTo(p: Packet, buf: array<byte>, lo: nat) returns (r: Result<nat>)
    requires lo <= buf.Length
    modifies buf
    ensures Marshalled(p, old(buf[..]), buf[..], lo, r)
  {
    match p.content
    case SenderReport(_, _, _, _, _, _, _) => r := MarshalSenderReport(p, buf, lo);
    case ReceiverReport(_, _, _) => r := MarshalReceiverReport(p, buf, lo);
    case SourceDescription(_) => r := MarshalSourceDescription(p, buf, lo);
    case Goodbye(_, _) => r := MarshalGoodbye(p, buf, lo);
    case ApplicationDefined(_, _, _, _) => r := MarshalApplication(p, buf, lo);
    case RawRtcp(_) => r := MarshalRaw(p, buf, lo);
  }

  lemma {:induction false} TotalSizeAppend(xs: seq<Packet>, ys: seq<Packet>)
    ensures TotalSize(xs + ys) == TotalSize(xs) + TotalSize(ys)
  {
    hide Size;
    if xs == [] {
      assert xs + ys == ys;
    } else {
      assert (xs + ys)[1..] == xs[1..] + ys;
      TotalSizeAppend(xs[1..], ys);
    }
  }

  lemma TotalSizeTake(ps: seq<Packet>, i: nat)
    requires i < |ps|
    ensures TotalSize(ps[..i + 1]) == TotalSize(ps[..i]) + Size(ps[i]) <= TotalSize(ps)
  {
    hide Size, TotalSize;
    assert ps[..i + 1] == ps[..i] + [ps[i]];
    assert ps == ps[..i + 1] + ps[i + 1..];
    TotalSizeAppend(ps[..i], [ps[i]]);
    TotalSizeAppend(ps[..i + 1], ps[i + 1..]);
    TotalSizeOne(ps[i]);
  }

  lemma CompoundUnfold(ps: seq<Packet>, rest: seq<Packet>, ground: seq<byte>)
    requires ps != [] && rest == ps[1..] && |ground| == TotalSize(ps)
    ensures var k := Size(ps[0]);
      && k <= |ground| && |ground| - k == TotalSize(rest)
      && Compound(ps, ground) == Encoded(ps[0], ground[..k]) + Compound(rest, ground[k..])
  {
    hide Size, Encoded;
  }

  lemma {:induction false} CompoundSnoc(ps: seq<Packet>, p: Packet, ground: seq<byte>, g: seq<byte>)
    requires |ground| == TotalSize(ps) && |g| == Size(p)
    ensures TotalSize(ps + [p]) == |ground| + |g|
    ensures Compound(ps + [p], ground + g) == Compound(ps, ground) + Encoded(p, g)
  {
    hide Size, Encoded, Compound, TotalSize;
    var all := ps + [p];
    TotalSizeAppend(ps, [p]);
    TotalSizeOne(p);
    if ps == [] {
      EmptyCompoundBytes(ps);
      assert all[0] == p && all[1..] == [] && ground + g == g && g[..|g|] == g && g[|g|..] == [];
      CompoundUnfold(all, [], g);
    } else {
      var k := Size(ps[0]);
      assert all[1..] == ps[1..] + [p] && all[0] == ps[0];
      CompoundUnfold(ps, ps[1..], ground);
      assert (ground + g)[..k] == ground[..k] && (ground + g)[k..] == ground[k..] + g;
      CompoundUnfold(all, ps[1..] + [p], ground + g);
      CompoundSnoc(ps[1..], p, ground[k..], g);
    }
  }

  lemma TotalSizeOne(p: Packet)
    ensures TotalSize([p]) == Size(p)
  {
    hide Size;
    assert [p][1..] == [];
  }

  lemma EmptyCompoundBytes(ps: seq<Packet>)
    requires ps == []
    ensures TotalSize(ps) == 0 && Compound(ps, []) == []
  {
  }

  /** MarshalRTCP: packets one after the other in a fresh buffer of the summed sizes. */
  method MarshalRTCP(packets: seq<Packet>) returns (r: Result<seq<byte>>)
    ensures packets == [] ==> r == Err(NoPackets)
    ensures packets != [] ==> r == Ok(Compound(packets, Zeros(TotalSize(packets))))
  {
    hide Size, Encoded, Compound, Zeros;
    if packets == [] { return Err(NoPackets); }
    var total := 0;
    for i := 0 to |packets|
      invariant total == TotalSize(packets[..i])
    {
      TotalSizeTake(packets, i);
      total := total + Size(packets[i]);
    }
    assert packets[..|packets|] == packets;
    var buf := new byte[total](_ => 0);
    ZeroBuffer(buf[..]);
    var n := WriteAll(packets, buf);
    r := Ok(buf[..n]);
    assert buf[..n] == buf[..];
  }

  lemma ZeroBuffer(s: seq<byte>)
    requires forall i :: 0 <= i < |s| ==> s[i] == 0
    ensures s == Zeros(|s|)
  {
  }

  method WriteAll(packets: seq<Packet>, buf: array<byte>) returns (n: nat)
    requires buf.Length == TotalSize(packets) && buf[..] == Zeros(buf.Length)
    modifies buf
    ensures n == buf.Length && buf[..] == Compound(packets, Zeros(TotalSize(packets)))
  {
    hide Size, Encoded, Compound, TotalSize, Splice;
    n := 0;
    SpliceNothing(buf[..], 0);
    ghost var before := buf[..];
    ghost var done: seq<byte> := [];
    EmptyCompoundBytes(packets[..0]);
    for i := 0 to |packets|
      invariant n == TotalSize(packets[..i]) == |done| <= buf.Length
      invariant done == Compound(packets[..i], before[..n])
      invariant buf[..] == Splice(before, 0, done)
    {
      var p := packets[i];
      TotalSizeTake(packets, i);
      ghost var k := Size(p);
      SpliceBeyond(before, 0, done, n, n + k);
      var res := MarshalTo(p, buf, n);
      assert res == Ok(k);
      CompoundSnoc(packets[..i], p, before[..n], before[n..n + k]);
      assert packets[..i] + [p] == packets[..i + 1] && before[..n] + before[n..n + k] == before[..n + k];
      SpliceAdjacent(before, 0, done, Encoded(p, before[n..n + k]));
      done := done + Encoded(p, before[n..n + k]);
      n := n + res.value;
    }
    assert packets[..|packets|] == packets && before[..|before|] == before;
    SpliceAll(before, done);
  }

  // ---- Parsing ----

  /** The report loop of unmarshalSenderReport and unmarshalReceiverReport. */
  method UnmarshalReports(body: seq<byte>, start: nat, count: nat) returns (r: Result<seq<ReceptionReport>>)
    requires start <= |body|
    ensures r == DecodedReports(body[start..], count)
  {
    hide ReportAt;
    var reports := [];
    var off := start;
    for i := 0 to count
      invariant off == start + 24 * i <= |body|
      invariant DecodedReports(body[start..], count) == Prepend(reports, DecodedReports(body[off..], count - i))
    {
      if off + 24 > |body| { return Err(TruncatedReport); }
      var s := body[off..];
      assert s[24..] == body[off + 24..];
      ReportStep(s, count - i);
      PrependOne(reports, ReportAt(s), DecodedReports(s[24..], count - i - 1));
      reports := reports + [ReportAt(s)];
      off := off + 24;
    }
    r := Ok(reports);
  }

  method UnmarshalSenderReport(h: Header, data: seq<byte>) returns (r: Result<Content>)
    requires |data| >= 4
    ensures r == DecodedSender(h, data[4..])
  {
    if |data| < 28 { return Err(TooShort); }
    var body := data[4..];
    var reports :- UnmarshalReports(body, 24, h.count);
    r := Ok(SenderReport(U32At(body, 0), U64At(body, 4), U32At(body, 12), U32At(body, 16), U32At(body, 20),
                         reports, body[24 + 24 * |reports|..]));
  }

  method UnmarshalReceiverReport(h: Header, data: seq<byte>) returns (r: Result<Content>)
    requires |data| >= 4
    ensures r == DecodedReceiver(h, data[4..])
  {
    if |data| < 8 { return Err(TooShort); }
    var body := data[4..];
    var reports :- UnmarshalReports(body, 4, h.count);
    r := Ok(ReceiverReport(U32At(body, 0), reports, body[4 + 24 * |reports|..]));
  }

  /** The item loop of one chunk: stops at an END octet or at the end of body. */
  method UnmarshalItems(body: seq<byte>, start: nat) returns (r: Result<(seq<SdesItem>, nat)>)
    requires start <= |body|
    ensures r == DecodedItems(body[start..])
  {
    hide DecodedItems;
    var items := [];
    var off := start;
    while off < |body|
      invariant start <= off <= |body|
      invariant DecodedItems(body[start..]) == PrependItems(items, off - start, DecodedItems(body[off..]))
    {
      var s := body[off..];
      if s[0] == 0 {
        ItemsEnd(s);
        return Ok((items, off + 1 - start));
      }
      if off + 2 > |body| || off + 2 + s[1] as nat > |body| {
        ItemFails(s);
        return Err(TruncatedItem);
      }
      var used := 2 + s[1] as nat;
      var item := SdesItem(s[0], s[2..used]);
      assert s[used..] == body[off + used..];
      ItemStep(s, used);
      PrependItem(items, off - start, item, used, DecodedItems(s[used..]));
      items := items + [item];
      off := off + used;
    }
    ItemsEnd(body[off..]);
    r := Ok((items, off - start));
  }

  method UnmarshalSourceDescription(h: Header, data: seq<byte>) returns (r: Result<Content>)
    requires |data| >= 4 && |data| % 4 == 0
    ensures r == DecodedDescription(h, data[4..])
  {
    hide DecodedChunks, DecodedItems, Align4, U32At, Prepend;
    var body := data[4..];
    var count := h.count as nat;
    var chunks := [];
    var off := 0;
    assert body[0..] == body;
    for i := 0 to count
      invariant off % 4 == 0 && 0 <= off <= |body|
      invariant DecodedChunks(body, count) == Prepend(chunks, DecodedChunks(body[off..], count - i))
    {
      var s := body[off..];
      if off + 4 > |body| {
        ChunksTooShort(s, count - i);
        return Err(TruncatedChunk);
      }
      assert s[4..] == body[off + 4..];
      var found := UnmarshalItems(body, off + 4);
      if found.Err? {
        ChunkFails(s, count - i);
        return Err(found.error);
      }
      var (items, k) := found.value;
      AlignFrom(off, 4 + k);
      AlignWithin(4 + k, |s|);
      var c := SdesChunk(U32At(s, 0), items);
      off := (off + 4 + k + 3) / 4 * 4;
      assert s[Align4(4 + k)..] == body[off..];
      ChunkStep(s, count - i, items, k, Align4(4 + k));
      PrependOne(chunks, c, DecodedChunks(body[off..], count - i - 1));
      chunks := chunks + [c];
    }
    ChunksDone(body[off..]);
    r := Ok(SourceDescription(chunks));
  }

  /** The source loop of unmarshalGoodbye. */
  method UnmarshalSources(body: seq<byte>, count: nat) returns (r: Result<seq<u32>>)
    ensures r == DecodedSources(body, count)
  {
    hide U32At;
    var sources := [];
    assert body[0..] == body;
    for i := 0 to count
      invariant 4 * i <= |body|
      invariant DecodedSources(body, count) == Prepend(sources, DecodedSources(body[4 * i..], count - i))
    {
      if 4 * i + 4 > |body| { return Err(TruncatedSource); }
      var s := body[4 * i..];
      assert s[4..] == body[4 * (i + 1)..];
      SourceStep(s, count - i);
      PrependOne(sources, U32At(s, 0), DecodedSources(s[4..], count - i - 1));
      sources := sources + [U32At(s, 0)];
    }
    r := Ok(sources);
  }

  method UnmarshalGoodbye(h: Header, data: seq<byte>) returns (r: Result<Content>)
    requires |data| >= 4
    ensures r == DecodedGoodbye(h, data[4..])
  {
    var body := data[4..];
    var sources :- UnmarshalSources(body, h.count);
    var off := 4 * |sources|;
    var reason := [];
    if off < |body| {
      var reasonLen := body[off] as nat;
      if off + 1 + reasonLen > |body| { return Err(TruncatedReason); }
      reason := body[off + 1..off + 1 + reasonLen];
      assert body[off..][1..1 + reasonLen] == reason;
    }
    r := Ok(Goodbye(sources, reason));
  }

  /** The rest of Walk after acc has been collected. */
  function PrependParsed(acc: seq<Packet>, r: Parsed): (s: Parsed)
    ensures acc == [] ==> s == r
    ensures r.packets == [] ==> s == Parsed(acc, r.err)
  {
    assert [] + r.packets == r.packets && acc + [] == acc;
    Parsed(acc + r.packets, r.err)
  }

  lemma PrependPacket(acc: seq<Packet>, p: Packet, r: Parsed)
    ensures PrependParsed(acc, PrependParsed([p], r)) == PrependParsed(acc + [p], r)
  {
    assert acc + ([p] + r.packets) == acc + [p] + r.packets;
  }

  /** One turn of the loop of UnmarshalRTCP. */
  lemma WalkTurn(d: seq<byte>, h: Result<Header>)
    requires d != [] && h == DecodedHeader(d)
    ensures |d| < 4 ==> Walk(d) == Parsed([], Some(TruncatedCompound))
    ensures |d| >= 4 && h.Err? ==> Walk(d) == Parsed([], Some(h.error))
    ensures |d| >= 4 && h.Ok? && PacketLength(h.value) > |d| ==> Walk(d) == Parsed([], Some(LengthExceedsData))
  {
  }

  lemma WalkPacket(d: seq<byte>, h: Header, n: nat, c: Result<Content>)
    requires |d| >= 4 && DecodedHeader(d) == Ok(h) && n == PacketLength(h) <= |d| && c == DecodedContent(h, d[4..n])
    ensures c.Err? ==> Walk(d) == Parsed([], Some(c.error))
    ensures c.Ok? ==> Walk(d) == PrependParsed([Packet(h, c.value)], Walk(d[n..]))
  {
    hide DecodedHeader, DecodedContent;
  }

  /** UnmarshalRTCP: total on every octet string; every index below is in bounds. */
  method UnmarshalRTCP(input: seq<byte>) returns (r: Parsed)
    ensures r == Decoded(input)
  {
    hide DecodedContent, DecodedHeader, Walk;
    var packets := [];
    var data := input;
    while |data| > 0
      invariant Walk(input) == PrependParsed(packets, Walk(data))
      invariant |data| <= |input| && (|data| < |input| ==> packets != [])
      decreases |data|
    {
      WalkTurn(data, DecodedHeader(data));
      if |data| < 4 { return Parsed(packets, Some(TruncatedCompound)); }
      var hr := DecodedHeader(data);
      if hr.Err? { return Parsed(packets, Some(hr.error)); }
      var h := hr.value;
      var pktLen := PacketLength(h);
      if pktLen > |data| { return Parsed(packets, Some(LengthExceedsData)); }
      var pktData := data[..pktLen];
      assert pktData[4..] == data[4..pktLen];
      var cr := UnmarshalContent(h, pktData);
      WalkPacket(data, h, pktLen, cr);
      if cr.Err? { return Parsed(packets, Some(cr.error)); }
      var p := Packet(h, cr.value);
      PrependPacket(packets, p, Walk(data[pktLen..]));
      packets := packets + [p];
      data := data[pktLen..];
    }
    assert Walk(data) == Parsed([], None) by { WalkEnds(data); }
    if |packets| == 0 { return Parsed([], Some(EmptyCompound)); }
    r := Parsed(packets, None);
  }

  lemma WalkEnds(d: seq<byte>)
    requires d == []
    ensures Walk(d) == Parsed([], None)
  {
  }

  /** The type switch of UnmarshalRTCP. */
  method UnmarshalContent(h: Header, pktData: seq<byte>) returns (r: Result<Content>)
    requires |pktData| >= 4 && |pktData| % 4 == 0
    ensures r == DecodedContent(h, pktData[4..])
  {
    if h.typ == TYPE_SR {
      r := UnmarshalSenderReport(h, pktData);
    } else if h.typ == TYPE_RR {
      r := UnmarshalReceiverReport(h, pktData);
    } else if h.typ == TYPE_SDES {
      r := UnmarshalSourceDescription(h, pktData);
    } else if h.typ == TYPE_BYE {
      r := UnmarshalGoodbye(h, pktData);
    } else if h.typ == TYPE_APP {
      r := DecodedApplication(h, pktData[4..]);
    } else {
      r := Ok(RawRtcp(pktData[4..]));
    }
  }
}
