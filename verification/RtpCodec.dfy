/** RTP marshalling into a caller's buffer and parsing into a reused packet, as the program runs them. */
module RtpCodec {
  import opened Octets
  import opened Sequences
  import opened Buffers
  import opened Rtp

  // ---- Growing lists of elements ----

  lemma {:induction false} ElementsAppend(profile: u16, xs: seq<Extension>, ys: seq<Extension>)
    requires forall e :: e in xs + ys ==> ElementOk(profile, e)
    ensures (forall e :: e in xs ==> ElementOk(profile, e)) && (forall e :: e in ys ==> ElementOk(profile, e))
    ensures ElementsBytes(profile, xs + ys) == ElementsBytes(profile, xs) + ElementsBytes(profile, ys)
  {
    hide ElementOk, ElementHead;
    assert forall e :: e in xs ==> e in xs + ys;
    assert forall e :: e in ys ==> e in xs + ys;
    if xs == [] {
      assert xs + ys == ys;
    } else {
      assert (xs + ys)[1..] == xs[1..] + ys;
      ElementsAppend(profile, xs[1..], ys);
    }
  }

  lemma ElementsTake(profile: u16, es: seq<Extension>, i: nat)
    requires i < |es| && forall e :: e in es[..i + 1] ==> ElementOk(profile, e)
    ensures forall e :: e in es[..i] ==> ElementOk(profile, e)
    ensures ElementsBytes(profile, es[..i + 1])
      == ElementsBytes(profile, es[..i]) + (ElementHead(profile, es[i]) + es[i].payload)
  {
    hide ElementOk, ElementHead;
    assert es[..i + 1] == es[..i] + [es[i]];
    ElementsAppend(profile, es[..i], [es[i]]);
    var one := ElementsBytes(profile, [es[i]]);
    assert [es[i]][1..] == [];
    assert one == ElementHead(profile, es[i]) + es[i].payload + [];
  }

  lemma {:induction false} ElementsSizeSplit(profile: u16, es: seq<Extension>, i: nat)
    requires i <= |es|
    ensures ElementsSize(profile, es[..i]) + ElementsSize(profile, es[i..]) == ElementsSize(profile, es)
  {
    if i == 0 {
      assert es[..0] == [] && es[0..] == es;
    } else {
      assert es[..i][1..] == es[1..][..i - 1] && es[i..] == es[1..][i - 1..];
      ElementsSizeSplit(profile, es[1..], i - 1);
    }
  }

  lemma ElementsSizeTake(profile: u16, es: seq<Extension>, i: nat)
    requires i < |es|
    ensures ElementsSize(profile, es[..i + 1]) == ElementsSize(profile, es[..i]) + ElementSize(profile, es[i])
    ensures ElementsSize(profile, es[..i + 1]) <= ElementsSize(profile, es)
  {
    hide ElementSize;
    ElementsSizeSplit(profile, es, i + 1);
    ElementsSizeSplit(profile, es[..i + 1], i);
    assert es[..i + 1][..i] == es[..i] && es[..i + 1][i..] == [es[i]] && [es[i]][1..] == [];
  }

  /** MarshalSize. */
  method MarshalSize(p: Packet) returns (sz: nat)
    ensures sz == Size(p)
  {
    sz := 12 + |p.csrc| * 4;
    if p.extension {
      var extSize := 4;
      for i := 0 to |p.extensions|
        invariant extSize == 4 + ElementsSize(p.profile, p.extensions[..i])
      {
        ElementsSizeTake(p.profile, p.extensions, i);
        var e := p.extensions[i];
        if p.profile == ONE_BYTE {
          extSize := extSize + 1 + |e.payload|;
        } else if p.profile == TWO_BYTE {
          extSize := extSize + 2 + |e.payload|;
        } else {
          extSize := extSize + |e.payload|;
        }
      }
      assert p.extensions[..|p.extensions|] == p.extensions;
      sz := sz + (extSize + 3) / 4 * 4;
    }
    sz := sz + |p.payload| + p.paddingSize;
  }

  // ---- Marshalling ----

  lemma CsrcTake(cs: seq<u32>, i: nat)
    requires i < |cs|
    ensures CsrcBytes(cs[..i + 1]) == CsrcBytes(cs[..i]) + Be32(cs[i])
  {
    ConcatMapTake(Be32, cs, i);
  }

  method WriteCsrcs(buf: array<byte>, ghost before: seq<byte>, ghost done: seq<byte>, pos: nat, csrc: seq<u32>)
    returns (n: nat)
    requires |before| == buf.Length && |done| + 4 * |csrc| <= buf.Length
    requires pos == |done| && buf[..] == Splice(before, 0, done)
    modifies buf
    ensures n == pos + 4 * |csrc| && buf[..] == Splice(before, 0, done + CsrcBytes(csrc))
  {
    hide Splice, Be32;
    n := pos;
    assert done + CsrcBytes(csrc[..0]) == done;
    for i := 0 to |csrc|
      invariant n == pos + 4 * i
      invariant buf[..] == Splice(before, 0, done + CsrcBytes(csrc[..i]))
    {
      CsrcTake(csrc, i);
      assert done + (CsrcBytes(csrc[..i]) + Be32(csrc[i])) == done + CsrcBytes(csrc[..i]) + Be32(csrc[i]);
      n := Append(buf, before, 0, done + CsrcBytes(csrc[..i]), n, Be32(csrc[i]));
    }
    assert csrc[..|csrc|] == csrc;
  }

  /** The element loops of MarshalTo: they stop at the first element the profile cannot carry. */
  method WriteElements(buf: array<byte>, ghost before: seq<byte>, ghost done: seq<byte>, pos: nat,
                       profile: u16, es: seq<Extension>) returns (r: Outcome<nat>)
    requires |before| == buf.Length && |done| + ElementsSize(profile, es) <= buf.Length
    requires pos == |done| && buf[..] == Splice(before, 0, done)
    modifies buf
    ensures r.Ok? <==> forall e :: e in es ==> ElementOk(profile, e)
    ensures r.Ok? ==> r.value == pos + ElementsSize(profile, es)
    ensures r.Ok? ==> buf[..] == Splice(before, 0, done + ElementsBytes(profile, es))
    ensures !r.Ok? ==> r == Err(BadExtension)
  {
    hide Splice, ElementSize, ElementOk, ElementHead;
    var n := pos;
    assert done + [] == done;
    for i := 0 to |es|
      invariant forall e :: e in es[..i] ==> ElementOk(profile, e)
      invariant n == pos + ElementsSize(profile, es[..i]) && ElementsSize(profile, es[..i]) <= ElementsSize(profile, es)
      invariant buf[..] == Splice(before, 0, done + ElementsBytes(profile, es[..i]))
    {
      if !ElementOk(profile, es[i]) { return Err(BadExtension); }
      assert es[..i + 1] == es[..i] + [es[i]];
      ElementsTake(profile, es, i);
      ElementsSizeTake(profile, es, i);
      ghost var sofar := done + ElementsBytes(profile, es[..i]);
      var head := ElementHead(profile, es[i]);
      n := Append(buf, before, 0, sofar, n, head);
      n := Append(buf, before, 0, sofar + head, n, es[i].payload);
      AssocTail(done, ElementsBytes(profile, es[..i]), head, es[i].payload);
    }
    assert es[..|es|] == es;
    r := Ok(n);
  }

  /** Filling in two octets that were left open. */
  lemma SplicePatch<T>(s: seq<T>, a: seq<T>, open: seq<T>, c: seq<T>, w: seq<T>)
    requires |a| + |open| + |c| <= |s| && |w| == |open|
    ensures Splice(Splice(s, 0, a + open + c), |a|, w) == Splice(s, 0, a + w + c)
  {
  }

  /** Leaving room for k octets shows what the buffer held there. */
  lemma SpliceOpen<T>(s: seq<T>, a: seq<T>, k: nat)
    requires |a| + k <= |s|
    ensures Splice(s, 0, a + s[|a|..|a| + k]) == Splice(s, 0, a)
  {
  }

  /** Closes an extension block: its length goes into the room left for it, alignment after its elements. */
  method CloseExtension(buf: array<byte>, ghost before: seq<byte>, ghost a: seq<byte>, ghost open: seq<byte>,
                        ghost body: seq<byte>, profile: u16, start: nat, pos: nat) returns (n: nat)
    requires |before| == buf.Length && |open| == 2 && |a| + 2 + Align4(|body|) <= buf.Length
    requires start == |a| + 2 && pos == start + |body| && buf[..] == Splice(before, 0, a + open + body)
    modifies buf
    ensures var size := Align4(|body|);
      && n == start + size
      && buf[..] == Splice(before, 0, a + Be16(size / 4 % 0x1_0000) + body + AlignBytes(profile, size - |body|))
  {
    hide Splice, Align4, AlignBytes, Be16;
    var extSize := pos - start;
    var rounded := (extSize + 3) / 4 * 4;
    RoundedIsAligned(extSize);
    var length := Be16(rounded / 4 % 0x1_0000);
    SplicePatch(before, a, open, body, length);
    Copy(buf, start - 2, length);
    n := Append(buf, before, 0, a + length + body, pos, AlignBytes(profile, rounded - extSize));
  }

  /** The extension part of MarshalTo: profile, room for the length, elements, length, alignment. */
  method WriteExtension(buf: array<byte>, ghost before: seq<byte>, ghost done: seq<byte>, pos: nat, p: Packet)
    returns (r: Outcome<nat>)
    requires |before| == buf.Length && |done| + ExtensionSize(p) <= buf.Length && p.extension && |p.csrc| <= 15
    requires pos == |done| && buf[..] == Splice(before, 0, done)
    modifies buf
    ensures r.Ok? <==> Accepted(p)
    ensures r.Ok? ==> r.value == pos + ExtensionSize(p) && buf[..] == Splice(before, 0, done + ExtensionBytes(p))
    ensures !r.Ok? ==> r == Err(BadExtension)
  {
    hide Splice, ElementsBytes, ElementsSize, ElementOk, Align4, AlignBytes, Be16;
    if p.profile != ONE_BYTE && p.profile != TWO_BYTE && |p.extensions| > 1 { return Err(BadExtension); }
    ExtensionSizeIs(p);
    var n := Append(buf, before, 0, done, pos, Be16(p.profile));
    ghost var a := done + Be16(p.profile);
    ghost var open := before[|a|..|a| + 2];
    SpliceOpen(before, a, 2);
    n := n + 2;
    r := WriteElements(buf, before, a + open, n, p.profile, p.extensions);
    if !r.Ok? { return; }
    ghost var body := ElementsBytes(p.profile, p.extensions);
    n := CloseExtension(buf, before, a, open, body, p.profile, n, r.value);
    ghost var size := Align4(|body|);
    Assoc5(done, Be16(p.profile), Be16(size / 4 % 0x1_0000), body, AlignBytes(p.profile, size - |body|));
    r := Ok(n);
  }

  lemma ExtensionSizeIs(p: Packet)
    requires p.extension
    ensures ExtensionSize(p) == 4 + Align4(ElementsSize(p.profile, p.extensions))
  {
  }

  lemma RoundedIsAligned(n: nat)
    ensures (n + 3) / 4 * 4 == Align4(n)
  {
  }

  /** MarshalTo: with padding, the count goes into the last octet of the whole buffer. */
  method MarshalTo(p: Packet, buf: array<byte>) returns (r: Outcome<nat>)
    modifies buf
    ensures buf.Length < Size(p) ==> r == Err(BufferTooSmall) && buf[..] == old(buf[..])
    ensures buf.Length >= Size(p) && |p.csrc| > 15 ==> r == Err(TooManyCsrcs) && buf[..] == old(buf[..])
    ensures buf.Length >= Size(p) && |p.csrc| <= 15 && !Accepted(p) ==> r == Err(BadExtension)
    ensures buf.Length >= Size(p) && Accepted(p) ==>
      && r == Ok(|Encoded(p, old(buf[..]))|) && r.value <= buf.Length
      && buf[..] == Splice(old(buf[..]), 0, Encoded(p, old(buf[..])))
  {
    hide FixedBytes, CsrcBytes, ExtensionBytes, ExtensionSize, Splice;
    var size := MarshalSize(p);
    if buf.Length < size { return Err(BufferTooSmall); }
    if |p.csrc| > 15 { return Err(TooManyCsrcs); }
    ghost var before := buf[..];
    Copy(buf, 0, FixedBytes(p));
    var n := WriteCsrcs(buf, before, FixedBytes(p), 12, p.csrc);
    ghost var h := FixedBytes(p) + CsrcBytes(p.csrc);
    if p.extension {
      r := WriteExtension(buf, before, h, n, p);
      if !r.Ok? { return; }
      n := r.value;
    } else {
      NoExtensionBytes(p);
      assert h + ExtensionBytes(p) == h;
    }
    n := Append(buf, before, 0, HeaderBytes(p), n, p.payload);
    ghost var raw := HeaderBytes(p) + p.payload;
    if p.padding {
      buf[buf.Length - 1] := p.paddingSize;
      n := buf.Length;
      SpliceLast(before, raw, p.paddingSize);
    }
    r := Ok(n);
  }

  lemma NoExtensionBytes(p: Packet)
    requires |p.csrc| <= 15 && !p.extension
    ensures Accepted(p) && ExtensionSize(p) == 0 && ExtensionBytes(p) == []
  {
  }

  lemma SpliceLast<T>(s: seq<T>, raw: seq<T>, x: T)
    requires |raw| <= |s| && s != []
    ensures Splice(s, 0, (raw + s[|raw|..])[|s| - 1 := x]) == Splice(s, 0, raw)[|s| - 1 := x]
  {
  }

  /** Marshal: MarshalTo into a fresh buffer of MarshalSize octets. */
  method Marshal(p: Packet) returns (r: Outcome<seq<byte>>)
    ensures Accepted(p) ==> r == Ok(Encoded(p, Zeros(Size(p))))
    ensures !Accepted(p) ==> r.Err?
  {
    hide HeaderBytes, ExtensionSize, Accepted;
    var size := MarshalSize(p);
    var buf := new byte[size](_ => 0);
    assert buf[..] == Zeros(size);
    var n := MarshalTo(p, buf);
    match n
    case Ok(k) =>
      assert buf[..k] == Encoded(p, Zeros(size));
      r := Ok(buf[..k]);
    case Err(e) => r := Err(e);
  }

  // ---- Parsing ----

  method UnmarshalOneByteExtensions(data: seq<byte>) returns (r: Outcome<seq<Extension>>)
    ensures r == DecodedOneByte(data)
  {
    hide DecodedOneByte;
    var exts := [];
    var i := 0;
    assert data[0..] == data;
    while i < |data|
      invariant 0 <= i <= |data|
      invariant DecodedOneByte(data) == Prepend(exts, DecodedOneByte(data[i..]))
    {
      var s := data[i..];
      OneByteOther(s);
      if data[i] == 0 {
        assert s[1..] == data[i + 1..];
        i := i + 1;
        continue;
      }
      var id := data[i] / 16;
      if id == 15 { break; }
      var used := 2 + data[i] as nat % 16;
      if i + used > |data| { return Err(TruncatedExtension); }
      var e := Extension(id, data[i + 1..i + used]);
      SliceOfDrop(data, i, 1, used);
      assert s[used..] == data[i + used..];
      OneByteStep(s, used);
      PrependOne(exts, e, DecodedOneByte(s[used..]));
      exts := exts + [e];
      i := i + used;
    }
    OneByteOther(data[i..]);
    r := Ok(exts);
  }

  method UnmarshalTwoByteExtensions(data: seq<byte>) returns (r: Outcome<seq<Extension>>)
    ensures r == DecodedTwoByte(data)
  {
    hide DecodedTwoByte;
    var exts := [];
    var i := 0;
    assert data[0..] == data;
    while i < |data|
      invariant 0 <= i <= |data|
      invariant DecodedTwoByte(data) == Prepend(exts, DecodedTwoByte(data[i..]))
    {
      var s := data[i..];
      TwoByteOther(s);
      if data[i] == 0 {
        assert s[1..] == data[i + 1..];
        i := i + 1;
        continue;
      }
      if i + 1 >= |data| { return Err(TruncatedExtension); }
      var used := 2 + data[i + 1] as nat;
      if i + used > |data| { return Err(TruncatedExtension); }
      var e := Extension(data[i], data[i + 2..i + used]);
      SliceOfDrop(data, i, 2, used);
      assert s[used..] == data[i + used..];
      TwoByteStep(s, used);
      PrependOne(exts, e, DecodedTwoByte(s[used..]));
      exts := exts + [e];
      i := i + used;
    }
    TwoByteOther(data[i..]);
    r := Ok(exts);
  }

  method UnmarshalExtensions(profile: u16, data: seq<byte>) returns (r: Outcome<seq<Extension>>)
    ensures r == DecodedElements(profile, data)
  {
    if profile == ONE_BYTE {
      r := UnmarshalOneByteExtensions(data);
    } else if profile == TWO_BYTE {
      r := UnmarshalTwoByteExtensions(data);
    } else if data == [] {
      r := Ok([]);
    } else {
      r := Ok([Extension(0, data)]);
    }
  }

  lemma {:induction false} CsrcAt(s: seq<byte>, n: nat, i: nat)
    requires 4 * n <= |s| && i < n
    ensures DecodedCsrcs(s, n)[i] == U32At(s, 4 * i)
  {
    hide U32At;
    if i == 0 {
    } else {
      CsrcAt(s[4..], n - 1, i - 1);
      U32Shift(s, 4 * (i - 1));
    }
  }

  lemma U32Shift(s: seq<byte>, i: nat)
    requires i + 8 <= |s|
    ensures U32At(s[4..], i) == U32At(s, i + 4)
  {
  }

  /** The source loop; the caller has made sure that the octets are there. */
  method UnmarshalCsrcs(data: seq<byte>, cc: nat) returns (csrc: seq<u32>)
    requires |data| >= 12 + 4 * cc
    ensures csrc == DecodedCsrcs(data[12..], cc)
  {
    hide U32At, DecodedCsrcs;
    csrc := [];
    var s := data[12..];
    for i := 0 to cc
      invariant |csrc| == i && forall k :: 0 <= k < i ==> csrc[k] == DecodedCsrcs(s, cc)[k]
    {
      CsrcAt(s, cc, i);
      csrc := csrc + [U32At(s, 4 * i)];
    }
  }

  /** A packet whose storage is used again for every datagram. */
  class ReusedPacket {
    var version: byte
    var padding: bool
    var paddingSize: byte
    var marker: bool
    var payloadType: byte
    var sequenceNumber: u16
    var timestamp: u32
    var ssrc: u32
    var csrc: seq<u32>
    var extension: bool
    var profile: u16
    var extensions: seq<Extension>
    var payload: seq<byte>

    ghost function Value(): (p: Packet)
      reads this
    {
      Packet(version, padding, paddingSize, marker, payloadType, sequenceNumber, timestamp, ssrc, csrc,
             extension, profile, extensions, payload)
    }

    /** The extension part: sets all three extension fields, or fails. */
    method ExtensionFrom(data: seq<byte>, start: nat, hasExtension: bool) returns (r: Outcome<nat>)
      requires start <= |data|
      modifies this`extension, this`profile, this`extensions
      ensures !hasExtension ==> r == Ok(start) && !extension && profile == 0 && extensions == []
      ensures hasExtension ==>
        var b := DecodedBlock(data[start..]);
        if b.Ok? then r == Ok(start + b.value.used) && extension && profile == b.value.profile
          && extensions == b.value.extensions
        else r == Err(b.error)
    {
      hide DecodedElements;
      if !hasExtension {
        extension, profile, extensions := false, 0, [];
        return Ok(start);
      }
      ghost var s := data[start..];
      if |data| < start + 4 { return Err(NoExtensionHeader); }
      extension := true;
      profile := U16At(data, start);
      var extLen := U16At(data, start + 2) as nat * 4;
      var n := start + 4;
      if |data| < n + extLen { return Err(NoExtensionData); }
      SliceOfDrop(data, start, 4, 4 + extLen);
      var er := UnmarshalExtensions(profile, data[n..n + extLen]);
      if er.Err? { return Err(er.error); }
      extensions := er.value;
      r := Ok(n + extLen);
    }

    /** The padding part: sets paddingSize, or fails. */
    method PaddingFrom(data: seq<byte>, n: nat) returns (r: Outcome<nat>)
      requires n <= |data|
      modifies this`paddingSize
      ensures var w := DecodedPadding(padding, data[n..]);
        if w.Ok? then paddingSize == w.value && r == Ok(|data| - w.value) else r == Err(w.error)
    {
      var end := |data|;
      if padding {
        if end <= n { return Err(NoPadByte); }
        paddingSize := data[end - 1];
        if paddingSize == 0 { return Err(ZeroPadding); }
        if paddingSize > end - n { return Err(PaddingExceedsPayload); }
        end := end - paddingSize;
      } else {
        paddingSize := 0;
      }
      r := Ok(end);
    }

    /** The fixed header fields. */
    method FixedFrom(data: seq<byte>)
      requires |data| >= 12
      modifies this`padding, this`marker, this`payloadType, this`sequenceNumber, this`timestamp, this`ssrc
      ensures padding == (data[0] / 32 % 2 == 1) && marker == (data[1] >= 128) && payloadType == data[1] % 128
      ensures sequenceNumber == U16At(data, 2) && timestamp == U32At(data, 4) && ssrc == U32At(data, 8)
    {
      padding := data[0] / 32 % 2 == 1;
      marker := data[1] >= 128;
      payloadType := data[1] % 128;
      sequenceNumber := U16At(data, 2);
      timestamp := U32At(data, 4);
      ssrc := U32At(data, 8);
    }

    /** UnmarshalRTPTo: nothing of the previous packet survives a successful parse. */
    method UnmarshalFrom(data: seq<byte>) returns (r: Outcome<()>)
      modifies this
      ensures Decoded(data).Ok? ==> r == Ok(()) && Value() == Decoded(data).value
      ensures Decoded(data).Err? ==> r == Err(Decoded(data).error) && payload == old(payload)
      ensures Decoded(data).Panic? ==> r == Panic && payload == old(payload)
    {
      hide DecodedBlock, DecodedPadding, DecodedCsrcs, DecodedRest, U16At, U32At;
      if |data| < 12 { return Err(TooShort); }
      version := data[0] / 64;
      if version != 2 { return Err(BadVersion); }
      FixedFrom(data);
      var cc := data[0] as nat % 16;
      var n := 12 + 4 * cc;
      if |data| < n { return Panic; }
      csrc := UnmarshalCsrcs(data, cc);
      r := RestFrom(data, n);
    }

    /** The part after the contributing sources. */
    method RestFrom(data: seq<byte>, start: nat) returns (r: Outcome<()>)
      requires 12 <= start <= |data| && version == data[0] / 64
      requires padding == (data[0] / 32 % 2 == 1) && marker == (data[1] >= 128) && payloadType == data[1] % 128
      requires sequenceNumber == U16At(data, 2) && timestamp == U32At(data, 4) && ssrc == U32At(data, 8)
      modifies this`extension, this`profile, this`extensions, this`paddingSize, this`payload
      ensures var w := DecodedRest(data, csrc, data[start..]);
        if w.Ok? then r == Ok(()) && Value() == w.value else r == Err(w.error) && payload == old(payload)
    {
      hide DecodedBlock, DecodedPadding, U16At, U32At;
      ghost var s := data[start..];
      var er := ExtensionFrom(data, start, data[0] / 16 % 2 == 1);
      if er.Err? { return Err(er.error); }
      var n := er.value;
      assert s[n - start..] == data[n..];
      assert n == start ==> s[0..] == s;
      var pr := PaddingFrom(data, n);
      if pr.Err? { return Err(pr.error); }
      var end := pr.value;
      assert data[n..][..end - n] == data[n..end];
      payload := data[n..end];
      r := Ok(());
    }
  }
}
