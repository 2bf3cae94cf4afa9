/** Exactly which RTP packets survive marshalling and parsing, and into which buffers. */
module RtpRoundTrip {
  import opened Octets
  import opened Sequences
  import opened Rtp

  // ---- Well-formedness ----

  /** An element the parser can return under profile. */
  predicate ElementFits(profile: u16, e: Extension) {
    if profile == ONE_BYTE then 1 <= e.id <= 14 && 1 <= |e.payload| <= 16
    else if profile == TWO_BYTE then e.id != 0 && |e.payload| <= 255
    else e.id == 0 && e.payload != [] && |e.payload| % 4 == 0
  }

  predicate ElementsFit(profile: u16, es: seq<Extension>) {
    && (forall e :: e in es ==> ElementFits(profile, e))
    && (profile != ONE_BYTE && profile != TWO_BYTE ==> |es| <= 1)
    && ElementsSize(profile, es) <= 4 * 0xFFFF
  }

  /** The fields of p agree with each other and fit the bits that carry them. */
  predicate WellFormed(p: Packet) {
    && p.version == 2 && p.payloadType < 128 && |p.csrc| <= 15
    && (p.padding <==> p.paddingSize > 0)
    && (if p.extension then ElementsFit(p.profile, p.extensions) else p.profile == 0 && p.extensions == [])
  }

  lemma WellFormedAccepted(p: Packet)
    requires WellFormed(p)
    ensures Accepted(p)
  {
    if p.extension {
      forall e | e in p.extensions ensures ElementOk(p.profile, e) {
        assert ElementFits(p.profile, e);
      }
    }
  }

  // ---- Elements ----

  lemma {:induction false} TwoByteZeros(n: nat)
    ensures DecodedTwoByte(Zeros(n)) == Ok([])
  {
    if n == 0 {
    } else {
      assert Zeros(n)[1..] == Zeros(n - 1);
      TwoByteZeros(n - 1);
    }
  }

  lemma OneByteAlignment(n: nat)
    ensures DecodedOneByte(AlignBytes(ONE_BYTE, n)) == Ok([])
  {
  }

  lemma OneByteElement(e: Extension, tail: seq<byte>)
    requires ElementFits(ONE_BYTE, e)
    ensures DecodedOneByte(ElementHead(ONE_BYTE, e) + e.payload + tail) == Prepend([e], DecodedOneByte(tail))
  {
    hide DecodedOneByte;
    var s := ElementHead(ONE_BYTE, e) + e.payload + tail;
    assert s[0] == e.id * 16 + |e.payload| - 1;
    assert s[1..1 + |e.payload|] == e.payload;
    assert s[1 + |e.payload|..] == tail;
    OneByteStep(s, 1 + |e.payload|);
  }

  lemma TwoByteElement(e: Extension, tail: seq<byte>)
    requires ElementFits(TWO_BYTE, e)
    ensures DecodedTwoByte(ElementHead(TWO_BYTE, e) + e.payload + tail) == Prepend([e], DecodedTwoByte(tail))
  {
    hide DecodedTwoByte;
    var s := ElementHead(TWO_BYTE, e) + e.payload + tail;
    assert s[0] == e.id && s[1] == |e.payload|;
    assert s[2..2 + |e.payload|] == e.payload;
    assert s[2 + |e.payload|..] == tail;
    TwoByteStep(s, 2 + |e.payload|);
  }

  lemma {:induction false} OneByteReadsBack(es: seq<Extension>, tail: seq<byte>)
    requires forall e :: e in es ==> ElementFits(ONE_BYTE, e) && ElementOk(ONE_BYTE, e)
    requires DecodedOneByte(tail) == Ok([])
    ensures DecodedOneByte(ElementsBytes(ONE_BYTE, es) + tail) == Ok(es)
  {
    hide DecodedOneByte, ElementFits, ElementOk, ElementHead;
    if es == [] {
      assert ElementsBytes(ONE_BYTE, es) + tail == tail;
    } else {
      var e := es[0];
      var rest := ElementsBytes(ONE_BYTE, es[1..]) + tail;
      assert e in es;
      OneByteReadsBack(es[1..], tail);
      OneByteElement(e, rest);
      assert ElementsBytes(ONE_BYTE, es) + tail == ElementHead(ONE_BYTE, e) + e.payload + rest;
      assert [e] + es[1..] == es;
    }
  }

  lemma {:induction false} TwoByteReadsBack(es: seq<Extension>, tail: seq<byte>)
    requires forall e :: e in es ==> ElementFits(TWO_BYTE, e) && ElementOk(TWO_BYTE, e)
    requires DecodedTwoByte(tail) == Ok([])
    ensures DecodedTwoByte(ElementsBytes(TWO_BYTE, es) + tail) == Ok(es)
  {
    hide DecodedTwoByte, ElementFits, ElementOk, ElementHead;
    if es == [] {
      assert ElementsBytes(TWO_BYTE, es) + tail == tail;
    } else {
      var e := es[0];
      var rest := ElementsBytes(TWO_BYTE, es[1..]) + tail;
      assert e in es;
      TwoByteReadsBack(es[1..], tail);
      TwoByteElement(e, rest);
      assert ElementsBytes(TWO_BYTE, es) + tail == ElementHead(TWO_BYTE, e) + e.payload + rest;
      assert [e] + es[1..] == es;
    }
  }

  lemma BlockReadsProfileDefined(profile: u16, es: seq<Extension>)
    requires profile != ONE_BYTE && profile != TWO_BYTE && ElementsFit(profile, es)
    requires forall e :: e in es ==> ElementOk(profile, e)
    ensures |ElementsBytes(profile, es)| % 4 == 0 && DecodedElements(profile, ElementsBytes(profile, es)) == Ok(es)
  {
    if es != [] {
      assert es[0] in es && es[1..] == [];
      assert ElementsBytes(profile, es) == es[0].payload;
      assert es == [es[0]];
    }
  }

  /** Elements read back under every profile, through the alignment octets of that profile. */
  lemma ElementsReadBack(profile: u16, es: seq<Extension>)
    requires ElementsFit(profile, es) && forall e :: e in es ==> ElementOk(profile, e)
    ensures var body := ElementsBytes(profile, es); var n := Align4(|body|) - |body|;
      DecodedElements(profile, body + AlignBytes(profile, n)) == Ok(es)
  {
    hide DecodedOneByte, DecodedTwoByte, ElementsBytes, Align4, ElementOk;
    var body := ElementsBytes(profile, es);
    var n := Align4(|body|) - |body|;
    if profile == ONE_BYTE {
      OneByteAlignment(n);
      OneByteReadsBack(es, AlignBytes(profile, n));
    } else if profile == TWO_BYTE {
      TwoByteZeros(n);
      TwoByteReadsBack(es, AlignBytes(profile, n));
    } else {
      BlockReadsProfileDefined(profile, es);
      assert body + AlignBytes(profile, n) == body;
    }
  }

  lemma BlockReadsBack(p: Packet, tail: seq<byte>)
    requires WellFormed(p) && Accepted(p) && p.extension
    ensures DecodedBlock(ExtensionBytes(p) + tail) == Ok(Block(p.profile, p.extensions, ExtensionSize(p)))
  {
    hide DecodedElements, ElementsBytes, Align4, ElementOk, AlignBytes, ElementsSize;
    var body := ElementsBytes(p.profile, p.extensions);
    var n := Align4(|body|);
    var fill := AlignBytes(p.profile, n - |body|);
    var s := ExtensionBytes(p) + tail;
    AlignWithin(|body|, 4 * 0xFFFF);
    var words := n / 4;
    assert n == 4 * words && words % 0x1_0000 == words;
    assert s == Be16(p.profile) + Be16(words) + (body + fill) + tail;
    assert s[0..2] == Be16(p.profile);
    assert s[2..4] == Be16(words);
    ReadsBack16(s, 0, p.profile);
    ReadsBack16(s, 2, words);
    assert s[4..4 + n] == body + fill;
    ElementsReadBack(p.profile, p.extensions);
  }

  // ---- Sources and fixed header ----

  lemma {:induction false} CsrcsReadBack(cs: seq<u32>, tail: seq<byte>)
    ensures DecodedCsrcs(CsrcBytes(cs) + tail, |cs|) == cs
  {
    if cs == [] {
    } else {
      var s := CsrcBytes(cs) + tail;
      var rest := CsrcBytes(cs[1..]) + tail;
      assert s == Be32(cs[0]) + rest;
      assert s[0..4] == Be32(cs[0]) && s[4..] == rest;
      ReadsBack32(s, 0, cs[0]);
      CsrcsReadBack(cs[1..], tail);
    }
  }

  lemma FlagsReadBack(p: Packet, d: seq<byte>)
    requires |p.csrc| <= 15 && |d| >= 2 && d[..2] == FixedBytes(p)[..2]
    ensures
      && d[0] / 64 == p.version % 4 && (d[0] / 32 % 2 == 1 <==> p.padding)
      && (d[0] / 16 % 2 == 1 <==> p.extension) && d[0] % 16 == |p.csrc|
      && (p.payloadType < 128 ==> d[1] % 128 == p.payloadType && (d[1] >= 128 <==> p.marker))
  {
    assert d[0] == d[..2][0] && d[1] == d[..2][1];
  }

  /** The twelve fixed octets carry these fields, whatever the rest of the packet is. */
  lemma FixedReadsBack(p: Packet, tail: seq<byte>)
    requires |p.csrc| <= 15
    ensures var d := FixedBytes(p) + tail;
      U16At(d, 2) == p.sequenceNumber && U32At(d, 4) == p.timestamp && U32At(d, 8) == p.ssrc
  {
    var d := FixedBytes(p) + tail;
    assert d[2..4] == Be16(p.sequenceNumber);
    assert d[4..8] == Be32(p.timestamp);
    assert d[8..12] == Be32(p.ssrc);
    ReadsBack16(d, 2, p.sequenceNumber);
    ReadsBack32(d, 4, p.timestamp);
    ReadsBack32(d, 8, p.ssrc);
  }

  // ---- The whole packet ----

  /** Where the parts of a packet start. */
  lemma PacketLayout(fixed: seq<byte>, csrc: seq<byte>, ext: seq<byte>, s: seq<byte>)
    requires |fixed| == 12
    ensures var d := fixed + csrc + ext + s;
      d[..2] == fixed[..2] && d[12..] == csrc + (ext + s) && d[12 + |csrc|..] == ext + s
  {
    var d := fixed + csrc + ext + s;
    assert d == fixed + (csrc + (ext + s));
  }

  /** The header of a well-formed packet is read exactly, leaving s for payload and padding. */
  lemma HeaderReadsBack(p: Packet, s: seq<byte>)
    requires WellFormed(p) && Accepted(p)
    ensures var d := HeaderBytes(p) + s;
      && |d| >= 12
      && Decoded(d) == DecodedTail(d, p.csrc, p.extension, Block(p.profile, p.extensions, ExtensionSize(p)), s)
  {
    hide FixedBytes, CsrcBytes, ExtensionBytes, ExtensionSize, DecodedBlock, DecodedCsrcs, DecodedTail, ElementsFit;
    var d := HeaderBytes(p) + s;
    var rest := ExtensionBytes(p) + s;
    PacketLayout(FixedBytes(p), CsrcBytes(p.csrc), ExtensionBytes(p), s);
    FlagsReadBack(p, d);
    CsrcsReadBack(p.csrc, rest);
    if p.extension {
      BlockReadsBack(p, s);
      assert rest[ExtensionSize(p)..] == s;
    } else {
      NoExtension(p);
      assert rest == s;
    }
  }

  lemma NoExtension(p: Packet)
    requires WellFormed(p) && Accepted(p) && !p.extension
    ensures ExtensionBytes(p) == [] && ExtensionSize(p) == 0
  {
  }

  lemma TailReadsBack(p: Packet, s: seq<byte>, d: seq<byte>, used: nat)
    requires WellFormed(p) && |d| >= 12 && d[..12] == FixedBytes(p)
    ensures DecodedTail(d, p.csrc, p.extension, Block(p.profile, p.extensions, used), s) == Ok(p)
      <==> DecodedPadding(p.padding, s) == Ok(p.paddingSize) && s[..|s| - p.paddingSize] == p.payload
  {
    hide FixedBytes, ElementsFit;
    assert d == FixedBytes(p) + d[12..];
    FixedReadsBack(p, d[12..]);
    assert d[..2] == FixedBytes(p)[..2];
    FlagsReadBack(p, d);
  }

  lemma PaddingReadsBack(payload: seq<byte>, pad: seq<byte>, n: byte)
    requires |pad| == n && (n > 0 ==> pad[n - 1] == n)
    ensures DecodedPadding(n > 0, payload + pad) == Ok(n) && (payload + pad)[..|payload|] == payload
  {
  }

  /** A well-formed packet reads back from a buffer of its own size, whatever the buffer held before. */
  lemma PacketReadsBack(p: Packet, ground: seq<byte>)
    requires WellFormed(p) && Accepted(p) && |ground| >= Size(p) && (p.padding ==> |ground| == Size(p))
    ensures Decoded(Encoded(p, ground)) == Ok(p)
  {
    hide HeaderBytes, ExtensionSize, DecodedTail, Decoded, DecodedPadding, ElementsFit;
    var h := HeaderBytes(p);
    var n := p.paddingSize as nat;
    var raw := h + p.payload;
    var pad := if p.padding then ground[|raw|..][n - 1 := n] else [];
    var s := p.payload + pad;
    assert Encoded(p, ground) == h + s;
    HeaderReadsBack(p, s);
    PaddingReadsBack(p.payload, pad, n);
    HeaderStartsFixed(p, s);
    TailReadsBack(p, s, h + s, ExtensionSize(p));
  }

  lemma HeaderStartsFixed(p: Packet, s: seq<byte>)
    requires Accepted(p)
    ensures (HeaderBytes(p) + s)[..12] == FixedBytes(p)
  {
    hide FixedBytes, ExtensionBytes, CsrcBytes;
  }

  // ---- What parsing can produce ----

  lemma {:induction false} DecodedOneByteFits(s: seq<byte>)
    requires DecodedOneByte(s).Ok?
    ensures var es := DecodedOneByte(s).value;
      ElementsSize(ONE_BYTE, es) <= |s| && forall e :: e in es ==> 1 <= |e.payload| <= 16
  {
    if s == [] {
    } else {
      if s[0] == 0 {
        DecodedOneByteFits(s[1..]);
      } else if s[0] / 16 != 15 {
        var used := 2 + s[0] as nat % 16;
        OneByteStep(s, used);
        DecodedOneByteFits(s[used..]);
        var es := DecodedOneByte(s).value;
        assert es[1..] == DecodedOneByte(s[used..]).value;
      }
    }
  }

  lemma {:induction false} DecodedTwoByteFits(s: seq<byte>)
    requires DecodedTwoByte(s).Ok?
    ensures var es := DecodedTwoByte(s).value;
      ElementsSize(TWO_BYTE, es) <= |s| && forall e :: e in es ==> e.id != 0 && |e.payload| <= 255
  {
    if s == [] {
    } else {
      if s[0] == 0 {
        DecodedTwoByteFits(s[1..]);
      } else {
        var used := 2 + s[1] as nat;
        TwoByteStep(s, used);
        DecodedTwoByteFits(s[used..]);
        var es := DecodedTwoByte(s).value;
        assert es[1..] == DecodedTwoByte(s[used..]).value;
      }
    }
  }

  /** Elements that parsed and would be accepted for marshalling fit, in no more octets than they came from. */
  lemma DecodedElementsFit(profile: u16, s: seq<byte>)
    requires |s| % 4 == 0 && |s| <= 4 * 0xFFFF && DecodedElements(profile, s).Ok?
    requires forall e :: e in DecodedElements(profile, s).value ==> ElementOk(profile, e)
    ensures ElementsFit(profile, DecodedElements(profile, s).value)
  {
    hide DecodedOneByte, DecodedTwoByte;
    var es := DecodedElements(profile, s).value;
    if profile == ONE_BYTE {
      DecodedOneByteFits(s);
    } else if profile == TWO_BYTE {
      DecodedTwoByteFits(s);
    } else if s != [] {
      assert es == [Extension(0, s)] && es[1..] == [];
      assert ElementsSize(profile, es) == |s| + 0;
    }
    forall e | e in es ensures ElementFits(profile, e) {
      assert ElementOk(profile, e);
    }
  }

  /** A parsed packet that MarshalTo would accept is well-formed. */
  lemma DecodedIsWellFormed(d: seq<byte>)
    requires Decoded(d).Ok? && Accepted(Decoded(d).value)
    ensures WellFormed(Decoded(d).value)
  {
    hide DecodedElements, ElementsFit, DecodedPadding, DecodedCsrcs, ElementOk;
    var p := Decoded(d).value;
    if p.extension {
      var s := d[12 + 4 * |p.csrc|..];
      var used := 4 + U16At(s, 2) as nat * 4;
      assert p.profile == U16At(s, 0) && DecodedElements(p.profile, s[4..used]) == Ok(p.extensions);
      DecodedElementsFit(p.profile, s[4..used]);
    }
  }

  /** A parsed packet is well-formed exactly when MarshalTo would accept it. */
  lemma ParsedWellFormedExactly(d: seq<byte>)
    requires Decoded(d).Ok?
    ensures WellFormed(Decoded(d).value) <==> Accepted(Decoded(d).value)
  {
    hide Decoded, WellFormed, Accepted;
    var p := Decoded(d).value;
    if WellFormed(p) { WellFormedAccepted(p); }
    if Accepted(p) { DecodedIsWellFormed(d); }
  }

  lemma ZeroIdElement()
    ensures DecodedOneByte([1, 0, 0, 0]) == Ok([Extension(0, [0, 0])])
  {
    hide DecodedOneByte;
    var block: seq<byte> := [1, 0, 0, 0];
    OneByteStep(block, 3);
    assert block[3..] == [0] && block[1..3] == [0, 0];
    OneByteOther([0]);
    assert [0][1..] == [];
    OneByteOther([]);
    assert [Extension(0, [0, 0])] + [] == [Extension(0, [0, 0])];
  }

  const ZERO_ID_BLOCK: seq<byte> := [0xBE, 0xDE, 0, 1, 1, 0, 0, 0]

  lemma ZeroIdBlock()
    ensures DecodedBlock(ZERO_ID_BLOCK) == Ok(Block(ONE_BYTE, [Extension(0, [0, 0])], 8))
  {
    hide DecodedOneByte, U16At;
    var s := ZERO_ID_BLOCK;
    Pair(s, 0, 0xBE, 0xDE);
    Pair(s, 2, 0, 1);
    assert s[4..8] == [1, 0, 0, 0];
    ZeroIdElement();
  }

  lemma Pair(s: seq<byte>, i: nat, a: byte, b: byte)
    requires i + 2 <= |s| && s[i] == a && s[i + 1] == b
    ensures U16At(s, i) == a as int * 0x100 + b
  {
  }

  /** Some parsed packets are neither: a one-byte element with ID 0 and a length. */
  lemma UnacceptedWitness()
    ensures var r := Decoded([0x90] + Zeros(11) + ZERO_ID_BLOCK); r.Ok? && !Accepted(r.value)
  {
    hide DecodedBlock;
    var d := [0x90] + Zeros(11) + ZERO_ID_BLOCK;
    assert d[0] == 0x90 && d[12..] == ZERO_ID_BLOCK && ZERO_ID_BLOCK[8..] == [];
    ZeroIdBlock();
    var e := Extension(0, [0, 0]);
    assert e in [e] && !ElementOk(ONE_BYTE, e);
  }

  /** Round trip, exactly: the packet is well-formed and a padded one fills the buffer it is written to. */
  lemma RoundTrip(p: Packet, ground: seq<byte>)
    requires Accepted(p) && |ground| >= Size(p)
    ensures Decoded(Encoded(p, ground)) == Ok(p)
      <==> WellFormed(p) && (p.padding ==> |ground| == Size(p))
  {
    if WellFormed(p) && (p.padding ==> |ground| == Size(p)) {
      PacketReadsBack(p, ground);
    }
    if Decoded(Encoded(p, ground)) == Ok(p) {
      DecodedIsWellFormed(Encoded(p, ground));
      if p.padding { PaddedFillsBuffer(p, ground); }
    }
  }

  lemma PaddedFillsBuffer(p: Packet, ground: seq<byte>)
    requires WellFormed(p) && Accepted(p) && p.padding && |ground| >= Size(p)
    requires Decoded(Encoded(p, ground)) == Ok(p)
    ensures |ground| == Size(p)
  {
    hide HeaderBytes, ExtensionSize, DecodedTail, Decoded, DecodedPadding, ElementsFit;
    var h := HeaderBytes(p);
    var s := (p.payload + ground[|h| + |p.payload|..])[|ground| - |h| - 1 := p.paddingSize];
    assert Encoded(p, ground) == h + s;
    HeaderReadsBack(p, s);
    HeaderStartsFixed(p, s);
    TailReadsBack(p, s, h + s, ExtensionSize(p));
  }

  /** Parsing, marshalling into a fresh buffer and parsing again gives the packet of the first parse. */
  lemma ParseMarshalParse(d: seq<byte>)
    requires Decoded(d).Ok? && Accepted(Decoded(d).value)
    ensures var p := Decoded(d).value; Decoded(Encoded(p, Zeros(Size(p)))) == Ok(p)
  {
    DecodedIsWellFormed(d);
    var p := Decoded(d).value;
    PacketReadsBack(p, Zeros(Size(p)));
  }

  // ---- Totality ----

  /** Parsing panics on exactly the version 2 packets that end inside their contributing sources. */
  lemma PanicsExactly(d: seq<byte>)
    ensures Decoded(d) == Panic <==> |d| >= 12 && d[0] / 64 == 2 && |d| < 12 + 4 * (d[0] % 16)
  {
  }

  /** One such packet. */
  lemma PanicWitness()
    ensures Decoded([0x81] + Zeros(11)) == Panic
  {
  }
}
