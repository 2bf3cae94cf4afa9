/** RTP octet by octet, with the numbers of section 5.1 of RFC 3550 and sections 4.2 and 4.3 of RFC 8285. */
module RtpWire {
  import opened Octets
  import opened Sequences
  import opened Rtp
  import RtpRoundTrip

  // ---- What octets say ----

  predicate SourcesStand(d: seq<byte>, at: nat, cs: seq<u32>) {
    at + 4 * |cs| <= |d| && forall i :: 0 <= i < |cs| ==> U32At(d, at + 4 * i) == cs[i]
  }

  /** Zero octets before an element are padding. */
  function WithoutZeros(s: seq<byte>): (r: seq<byte>)
    ensures |r| <= |s| && (r != [] ==> r[0] != 0)
  {
    if s != [] && s[0] == 0 then WithoutZeros(s[1..]) else s
  }

  /** Elements with a one-octet head: four bits of ID, four bits of length minus one; ID 15 ends them. */
  predicate OneByteSays(s: seq<byte>, es: seq<Extension>)
    decreases |es|
  {
    var t := WithoutZeros(s);
    if es == [] then t == [] || t[0] >= 0xF0
    else
      && t != [] && t[0] < 0xF0
      && var n := 2 + t[0] as nat % 16;
      n <= |t| && es[0].id == t[0] / 16 && es[0].payload == t[1..n] && OneByteSays(t[n..], es[1..])
  }

  /** Elements with a two-octet head: ID and length. */
  predicate TwoByteSays(s: seq<byte>, es: seq<Extension>)
    decreases |es|
  {
    var t := WithoutZeros(s);
    if es == [] then t == []
    else
      && |t| >= 2
      && var n := 2 + t[1] as nat;
      n <= |t| && es[0].id == t[0] && es[0].payload == t[2..n] && TwoByteSays(t[n..], es[1..])
  }

  /** Under any other profile the whole block is one element. */
  predicate ElementsSay(profile: u16, s: seq<byte>, es: seq<Extension>) {
    if profile == 0xBEDE then OneByteSays(s, es)
    else if profile == 0x1000 then TwoByteSays(s, es)
    else es == if s == [] then [] else [Extension(0, s)]
  }

  /** s ends in as many padding octets as its last one says. */
  predicate PaddingSays(padding: bool, s: seq<byte>, n: byte, payload: seq<byte>) {
    if padding then s != [] && n == s[|s| - 1] && 0 < n <= |s| && payload == s[..|s| - n]
    else n == 0 && payload == s
  }

  predicate FixedSays(d: seq<byte>, p: Packet)
    requires |d| >= 12
  {
    && d[0] / 64 == 2 == p.version && (p.padding <==> d[0] / 32 % 2 == 1) && (p.extension <==> d[0] / 16 % 2 == 1)
    && |p.csrc| == d[0] as nat % 16 && (p.marker <==> d[1] >= 128) && p.payloadType == d[1] % 128
    && p.sequenceNumber == U16At(d, 2) && p.timestamp == U32At(d, 4) && p.ssrc == U32At(d, 8)
  }

  predicate Says(d: seq<byte>, p: Packet) {
    && |d| >= 12 && FixedSays(d, p) && SourcesStand(d, 12, p.csrc)
    && var at := 12 + 4 * |p.csrc|;
    if p.extension then
      && at + 4 <= |d| && p.profile == U16At(d, at)
      && var end := at + 4 + 4 * U16At(d, at + 2) as nat;
      end <= |d| && ElementsSay(p.profile, d[at + 4..end], p.extensions)
      && PaddingSays(p.padding, d[end..], p.paddingSize, p.payload)
    else p.profile == 0 && p.extensions == [] && PaddingSays(p.padding, d[at..], p.paddingSize, p.payload)
  }

  // ---- Parsing ----

  lemma Shifted(d: seq<byte>, k: nat, at: nat)
    requires k <= |d|
    ensures at + 2 <= |d| - k ==> U16At(d[k..], at) == U16At(d, k + at)
    ensures at + 4 <= |d| - k ==> U32At(d[k..], at) == U32At(d, k + at)
  {
  }

  lemma SourcesShifted(d: seq<byte>, k: nat, at: nat, cs: seq<u32>)
    requires k <= |d|
    ensures SourcesStand(d[k..], at, cs) <==> SourcesStand(d, k + at, cs)
  {
    hide U32At;
    forall i | 0 <= i < |cs| && k + at + 4 * |cs| <= |d| ensures U32At(d[k..], at + 4 * i) == U32At(d, k + at + 4 * i) {
      Shifted(d, k, at + 4 * i);
    }
  }

  lemma SourcesCons(s: seq<byte>, cs: seq<u32>)
    requires cs != [] && |s| >= 4
    ensures SourcesStand(s, 0, cs) <==> U32At(s, 0) == cs[0] && SourcesStand(s[4..], 0, cs[1..])
  {
    hide U32At;
    SourcesShifted(s, 4, 0, cs[1..]);
    if U32At(s, 0) == cs[0] && SourcesStand(s, 4, cs[1..]) {
      forall i | 0 <= i < |cs| ensures U32At(s, 0 + 4 * i) == cs[i] {
        if i > 0 { assert cs[1..][i - 1] == cs[i] && 4 + 4 * (i - 1) == 4 * i; }
      }
    }
    if SourcesStand(s, 0, cs) {
      forall i | 0 <= i < |cs[1..]| ensures U32At(s, 4 + 4 * i) == cs[1..][i] {
        assert U32At(s, 0 + 4 * (i + 1)) == cs[i + 1];
      }
      assert U32At(s, 0 + 4 * 0) == cs[0];
    }
  }

  lemma {:induction false} SourcesExactly(s: seq<byte>, n: nat, cs: seq<u32>)
    requires 4 * n <= |s|
    ensures DecodedCsrcs(s, n) == cs <==> |cs| == n && SourcesStand(s, 0, cs)
    decreases n
  {
    hide U32At;
    if n == 0 {
    } else if cs == [] {
    } else {
      SourcesExactly(s[4..], n - 1, cs[1..]);
      SourcesCons(s, cs);
      var r := DecodedCsrcs(s[4..], n - 1);
      assert [U32At(s, 0)] + r == cs <==> U32At(s, 0) == cs[0] && r == cs[1..];
    }
  }

  lemma {:induction false} OneByteSkips(s: seq<byte>)
    ensures DecodedOneByte(s) == DecodedOneByte(WithoutZeros(s))
    decreases |s|
  {
    hide DecodedOneByte;
    if s == [] || s[0] != 0 {
    } else {
      OneByteOther(s);
      OneByteSkips(s[1..]);
    }
  }

  lemma {:induction false} TwoByteSkips(s: seq<byte>)
    ensures DecodedTwoByte(s) == DecodedTwoByte(WithoutZeros(s))
    decreases |s|
  {
    hide DecodedTwoByte;
    if s == [] || s[0] != 0 {
    } else {
      TwoByteOther(s);
      TwoByteSkips(s[1..]);
    }
  }

  lemma ConsIs<T>(x: T, r: Outcome<seq<T>>, es: seq<T>)
    ensures Prepend([x], r) == Ok(es) <==> es != [] && es[0] == x && r == Ok(es[1..])
  {
    if r.Ok? { assert es != [] ==> ([x] + r.value == es <==> x == es[0] && r.value == es[1..]); }
  }

  lemma {:induction false} OneByteExactly(s: seq<byte>, es: seq<Extension>)
    ensures DecodedOneByte(s) == Ok(es) <==> OneByteSays(s, es)
    decreases |es|
  {
    hide DecodedOneByte, Prepend, WithoutZeros;
    OneByteSkips(s);
    var t := WithoutZeros(s);
    if t == [] || t[0] >= 0xF0 {
      OneByteOther(t);
    } else {
      var n := 2 + t[0] as nat % 16;
      if |t| < n {
        OneByteOther(t);
      } else {
        OneByteStep(t, n);
        ConsIs(Extension(t[0] / 16, t[1..n]), DecodedOneByte(t[n..]), es);
        if es != [] { OneByteExactly(t[n..], es[1..]); }
      }
    }
  }

  lemma {:induction false} TwoByteExactly(s: seq<byte>, es: seq<Extension>)
    ensures DecodedTwoByte(s) == Ok(es) <==> TwoByteSays(s, es)
    decreases |es|
  {
    hide DecodedTwoByte, Prepend, WithoutZeros;
    TwoByteSkips(s);
    var t := WithoutZeros(s);
    if t == [] || |t| < 2 || |t| < 2 + t[1] as nat {
      TwoByteOther(t);
    } else {
      var n := 2 + t[1] as nat;
      TwoByteStep(t, n);
      ConsIs(Extension(t[0], t[2..n]), DecodedTwoByte(t[n..]), es);
      if es != [] { TwoByteExactly(t[n..], es[1..]); }
    }
  }

  lemma ElementsExactly(profile: u16, s: seq<byte>, es: seq<Extension>)
    ensures DecodedElements(profile, s) == Ok(es) <==> ElementsSay(profile, s, es)
  {
    hide DecodedOneByte, DecodedTwoByte, OneByteSays, TwoByteSays;
    OneByteExactly(s, es);
    TwoByteExactly(s, es);
  }

  lemma BlockExactly(d: seq<byte>, at: nat, profile: u16, es: seq<Extension>, used: nat)
    requires at <= |d|
    ensures DecodedBlock(d[at..]) == Ok(Block(profile, es, used)) <==>
      && at + 4 <= |d| && profile == U16At(d, at) && used == 4 + 4 * U16At(d, at + 2) as nat && at + used <= |d|
      && ElementsSay(profile, d[at + 4..at + used], es)
  {
    hide DecodedElements, ElementsSay, U16At;
    var s := d[at..];
    if |s| >= 4 {
      Shifted(d, at, 0);
      Shifted(d, at, 2);
      var n := 4 + U16At(s, 2) as nat * 4;
      if n <= |s| {
        assert s[4..n] == d[at + 4..at + n];
        ElementsExactly(U16At(s, 0), s[4..n], es);
      }
    }
  }

  lemma PaddingExactly(padding: bool, s: seq<byte>, n: byte, payload: seq<byte>)
    ensures (DecodedPadding(padding, s) == Ok(n) && payload == s[..|s| - n]) <==> PaddingSays(padding, s, n, payload)
  {
    assert s[..|s|] == s;
  }

  lemma TailExactly(d: seq<byte>, csrc: seq<u32>, extension: bool, b: Block, s: seq<byte>, p: Packet)
    requires |d| >= 12 && d[0] / 64 == 2 && (extension <==> d[0] / 16 % 2 == 1) && |csrc| == d[0] as nat % 16
    ensures DecodedTail(d, csrc, extension, b, s) == Ok(p) <==>
      && FixedSays(d, p) && p.csrc == csrc && p.profile == b.profile && p.extensions == b.extensions
      && PaddingSays(p.padding, s, p.paddingSize, p.payload)
  {
    hide U16At, U32At, DecodedPadding, PaddingSays;
    var padding := d[0] / 32 % 2 == 1;
    PaddingExactly(padding, s, p.paddingSize, p.payload);
    var r := DecodedPadding(padding, s);
    if r.Ok? { PaddingExactly(padding, s, r.value, s[..|s| - r.value]); }
  }

  lemma RestExactly(d: seq<byte>, csrc: seq<u32>, at: nat, p: Packet)
    requires |d| >= 12 && d[0] / 64 == 2 && |csrc| == d[0] as nat % 16 && at == 12 + 4 * |csrc| <= |d|
    ensures DecodedRest(d, csrc, d[at..]) == Ok(p) <==>
      && FixedSays(d, p) && p.csrc == csrc
      && if p.extension then
           && at + 4 <= |d| && p.profile == U16At(d, at)
           && var end := at + 4 + 4 * U16At(d, at + 2) as nat;
           end <= |d| && ElementsSay(p.profile, d[at + 4..end], p.extensions)
           && PaddingSays(p.padding, d[end..], p.paddingSize, p.payload)
         else p.profile == 0 && p.extensions == [] && PaddingSays(p.padding, d[at..], p.paddingSize, p.payload)
  {
    hide U16At, U32At, DecodedTail, DecodedBlock, ElementsSay, PaddingSays;
    var s := d[at..];
    if d[0] / 16 % 2 == 1 {
      var r := DecodedBlock(s);
      if r.Ok? {
        var b := r.value;
        BlockExactly(d, at, b.profile, b.extensions, b.used);
        assert s[b.used..] == d[at + b.used..];
        TailExactly(d, csrc, true, b, s[b.used..], p);
      }
      if at + 4 <= |d| {
        var used := 4 + 4 * U16At(d, at + 2) as nat;
        BlockExactly(d, at, p.profile, p.extensions, used);
      }
    } else {
      TailExactly(d, csrc, false, Block(0, [], 0), s, p);
    }
  }

  /** UnmarshalRTP succeeds with p if and only if the octets, read by the numbers of the standards, say p. */
  lemma ParsesExactly(d: seq<byte>, p: Packet)
    ensures Decoded(d) == Ok(p) <==> Says(d, p)
  {
    hide U16At, U32At, DecodedRest, DecodedCsrcs, ElementsSay, PaddingSays, SourcesStand;
    if |d| >= 12 && d[0] / 64 == 2 {
      var cc := d[0] as nat % 16;
      var at := 12 + 4 * cc;
      if at <= |d| {
        var csrc := DecodedCsrcs(d[12..], cc);
        SourcesExactly(d[12..], cc, csrc);
        SourcesExactly(d[12..], cc, p.csrc);
        SourcesShifted(d, 12, 0, p.csrc);
        RestExactly(d, csrc, at, p);
      } else {
        TooFewSources(d, p);
      }
    }
  }

  lemma TooFewSources(d: seq<byte>, p: Packet)
    ensures SourcesStand(d, 12, p.csrc) ==> 12 + 4 * |p.csrc| <= |d|
  {
  }

  /** Where the extension block of a packet ends, or would start. */
  function BlockEnd(d: seq<byte>): (n: nat)
    requires |d| >= 12
  {
    var at := 12 + 4 * (d[0] as nat % 16);
    if d[0] / 16 % 2 == 1 && at + 4 <= |d| then at + 4 + 4 * U16At(d, at + 2) as nat else at
  }

  /** Which error refuses a packet; the first that applies counts. */
  lemma RefusesExactly(d: seq<byte>)
    ensures |d| < 12 <==> Decoded(d) == Err(TooShort)
    ensures |d| >= 12 && d[0] / 64 != 2 <==> Decoded(d) == Err(BadVersion)
    ensures |d| >= 12 && d[0] / 64 == 2 && 12 + 4 * (d[0] as nat % 16) <= |d| ==>
      var at := 12 + 4 * (d[0] as nat % 16); var extended := d[0] / 16 % 2 == 1;
      && (extended && at + 4 > |d| <==> Decoded(d) == Err(NoExtensionHeader))
      && (extended && at + 4 <= |d| < BlockEnd(d) <==> Decoded(d) == Err(NoExtensionData))
      && (Decoded(d) == Err(NoPadByte) ==> d[0] / 32 % 2 == 1 && BlockEnd(d) == |d|)
      && (Decoded(d) == Err(ZeroPadding) ==> d[0] / 32 % 2 == 1 && d[|d| - 1] == 0)
      && (Decoded(d) == Err(PaddingExceedsPayload) ==> d[0] / 32 % 2 == 1 && d[|d| - 1] as nat > |d| - BlockEnd(d))
  {
    hide U32At, U16At, DecodedCsrcs, DecodedElements;
    if |d| >= 12 && d[0] / 64 == 2 && 12 + 4 * (d[0] as nat % 16) <= |d| {
      var at := 12 + 4 * (d[0] as nat % 16);
      Shifted(d, at, 2);
      Shifted(d, at, 0);
      ElementErrors(d[at..]);
    }
  }

  lemma ElementErrors(s: seq<byte>)
    ensures |s| >= 4 ==>
      var used := 4 + 4 * U16At(s, 2) as nat;
      && (|s| < used ==> DecodedBlock(s) == Err(NoExtensionData))
      && (used <= |s| && DecodedBlock(s).Err? ==> DecodedBlock(s) == Err(TruncatedExtension))
      && (DecodedBlock(s).Ok? ==> DecodedBlock(s).value.used == used)
  {
    hide U16At, DecodedOneByte, DecodedTwoByte;
    if |s| >= 4 {
      var used := 4 + 4 * U16At(s, 2) as nat;
      if used <= |s| {
        OnlyTruncated(s[4..used]);
      }
    }
  }

  lemma {:induction false} OnlyTruncated(s: seq<byte>)
    ensures DecodedOneByte(s).Err? ==> DecodedOneByte(s) == Err(TruncatedExtension)
    ensures DecodedTwoByte(s).Err? ==> DecodedTwoByte(s) == Err(TruncatedExtension)
    decreases |s|
  {
    if s == [] {
    } else {
      OnlyTruncated(s[1..]);
      if 2 + s[0] as nat % 16 <= |s| { OnlyTruncated(s[2 + s[0] as nat % 16..]); }
      if |s| >= 2 && 2 + s[1] as nat <= |s| { OnlyTruncated(s[2 + s[1] as nat..]); }
    }
  }

  // ---- Printing ----

  /** What MarshalTo accepts: four bits count sources, IDs are 1 to 14 with 16 octets, or not 0 with 255. */
  lemma AcceptsExactly(p: Packet)
    ensures Accepted(p) <==>
      && |p.csrc| < 16
      && (p.extension && p.profile == 0xBEDE ==>
            forall e :: e in p.extensions ==> 0 < e.id < 15 && |e.payload| <= 16)
      && (p.extension && p.profile == 0x1000 ==> forall e :: e in p.extensions ==> 0 < e.id && |e.payload| <= 0xFF)
      && (p.extension && p.profile != 0xBEDE && p.profile != 0x1000 ==> |p.extensions| < 2)
  {
    forall e | e in p.extensions
      ensures ElementOk(p.profile, e) <==>
        && (p.profile == 0xBEDE ==> 0 < e.id < 15 && |e.payload| <= 16)
        && (p.profile == 0x1000 ==> 0 < e.id && |e.payload| <= 0xFF)
    {
    }
  }

  predicate ElementsPrinted(profile: u16, s: seq<byte>, es: seq<Extension>)
    decreases |es|
  {
    es == [] ||
    var e := es[0];
    var n := (if profile == 0xBEDE then 1 else if profile == 0x1000 then 2 else 0) + |e.payload|;
    && n <= |s| && s[n - |e.payload|..n] == e.payload
    && (profile == 0xBEDE ==> s[0] as nat == if e.payload == [] then 0xFF else e.id as nat * 16 + |e.payload| - 1)
    && (profile == 0x1000 ==> s[0] == e.id && s[1] as nat == |e.payload|)
    && ElementsPrinted(profile, s[n..], es[1..])
  }

  /** Elements, then zeros up to a 32-bit boundary, of which the one-byte scheme makes the first one 0xF0. */
  predicate BlockPrinted(s: seq<byte>, p: Packet) {
    var n := ElementsSize(p.profile, p.extensions);
    && |s| == 4 + (n + 3) / 4 * 4 && U16At(s, 0) == p.profile && U16At(s, 2) == (n + 3) / 4 % 0x1_0000
    && ElementsPrinted(p.profile, s[4..4 + n], p.extensions)
    && (forall i :: 4 + n <= i < |s| ==> s[i] == if p.profile == 0xBEDE && i == 4 + n then 0xF0 else 0)
  }

  predicate FixedPrinted(b: seq<byte>, p: Packet) {
    && |b| >= 12 && b[0] / 64 == p.version % 4 && (b[0] / 32 % 2 == 1 <==> p.padding)
    && (b[0] / 16 % 2 == 1 <==> p.extension) && b[0] as nat % 16 == |p.csrc|
    && b[1] == (if p.marker && p.payloadType < 128 then p.payloadType + 128 else p.payloadType)
    && U16At(b, 2) == p.sequenceNumber && U32At(b, 4) == p.timestamp && U32At(b, 8) == p.ssrc
  }

  /** Header, extension block and payload, one after the other. */
  predicate Printed(raw: seq<byte>, p: Packet) {
    && FixedPrinted(raw, p) && SourcesStand(raw, 12, p.csrc)
    && var at := 12 + 4 * |p.csrc|;
    var end := |raw| - |p.payload|;
    && at <= end && raw[end..] == p.payload && if p.extension then BlockPrinted(raw[at..end], p) else end == at
  }

  /** With padding the whole buffer counts as written, and its last octet is the padding size. */
  predicate PaddedOver(b: seq<byte>, raw: seq<byte>, ground: seq<byte>, n: byte) {
    && |raw| <= |b| == |ground| && b != [] && b[|b| - 1] == n
    && forall i :: 0 <= i < |b| - 1 ==> b[i] == if i < |raw| then raw[i] else ground[i]
  }

  lemma {:induction false} ElementsArePrinted(profile: u16, es: seq<Extension>)
    requires forall e :: e in es ==> ElementOk(profile, e)
    ensures ElementsPrinted(profile, ElementsBytes(profile, es), es)
  {
    if es == [] {
    } else {
      var head, rest := ElementHead(profile, es[0]), ElementsBytes(profile, es[1..]);
      var s := ElementsBytes(profile, es);
      assert es[0] in es;
      assert s == head + es[0].payload + rest;
      assert s[|head|..|head| + |es[0].payload|] == es[0].payload && s[|head| + |es[0].payload|..] == rest;
      ElementsArePrinted(profile, es[1..]);
    }
  }

  lemma BlockIsPrinted(p: Packet)
    requires Accepted(p) && p.extension
    ensures BlockPrinted(ExtensionBytes(p), p)
  {
    hide ElementsBytes, ElementsPrinted, ElementOk, U16At, Be16, ElementsSize;
    var s := ExtensionBytes(p);
    var body := ElementsBytes(p.profile, p.extensions);
    var n := Align4(|body|);
    var fill := AlignBytes(p.profile, n - |body|);
    assert s == Be16(p.profile) + Be16(n / 4 % 0x1_0000) + body + fill;
    assert s[0..2] == Be16(p.profile) && s[2..4] == Be16(n / 4 % 0x1_0000) && s[4..4 + |body|] == body;
    ReadsBack16(s, 0, p.profile);
    ReadsBack16(s, 2, n / 4 % 0x1_0000);
    ElementsArePrinted(p.profile, p.extensions);
    forall i | 4 + |body| <= i < |s| ensures s[i] == if p.profile == 0xBEDE && i == 4 + |body| then 0xF0 else 0 {
      assert s[i] == fill[i - 4 - |body|];
    }
  }

  lemma FixedIsPrinted(p: Packet, post: seq<byte>)
    requires |p.csrc| <= 15
    ensures FixedPrinted(FixedBytes(p) + post, p)
  {
    hide U16At, U32At, Be16, Be32;
    var b := FixedBytes(p) + post;
    assert b[2..4] == Be16(p.sequenceNumber) && b[4..8] == Be32(p.timestamp) && b[8..12] == Be32(p.ssrc);
    ReadsBack16(b, 2, p.sequenceNumber);
    ReadsBack32(b, 4, p.timestamp);
    ReadsBack32(b, 8, p.ssrc);
    FirstOctet(p);
  }

  lemma FirstOctet(p: Packet)
    requires |p.csrc| <= 15
    ensures var x := FixedBytes(p)[0];
      && x / 64 == p.version % 4 && (x / 32 % 2 == 1 <==> p.padding) && (x / 16 % 2 == 1 <==> p.extension)
      && x as nat % 16 == |p.csrc|
  {
  }

  lemma SourcesPrinted(p: Packet, b: seq<byte>, rest: seq<byte>)
    requires |p.csrc| <= 15 && b == FixedBytes(p) + (CsrcBytes(p.csrc) + rest)
    ensures SourcesStand(b, 12, p.csrc)
  {
    hide FixedBytes, CsrcBytes, DecodedCsrcs, SourcesStand;
    assert b[12..] == CsrcBytes(p.csrc) + rest;
    RtpRoundTrip.CsrcsReadBack(p.csrc, rest);
    SourcesExactly(b[12..], |p.csrc|, p.csrc);
    SourcesShifted(b, 12, 0, p.csrc);
  }

  lemma RawPrinted(p: Packet)
    requires Accepted(p)
    ensures Printed(HeaderBytes(p) + p.payload, p)
  {
    hide FixedBytes, CsrcBytes, ExtensionBytes, FixedPrinted, SourcesStand, BlockPrinted, ElementOk;
    var fixed, csrc, ext := FixedBytes(p), CsrcBytes(p.csrc), ExtensionBytes(p);
    var raw := HeaderBytes(p) + p.payload;
    RawParts(fixed, csrc, ext, p.payload);
    FixedIsPrinted(p, csrc + (ext + p.payload));
    SourcesPrinted(p, raw, ext + p.payload);
    if p.extension { BlockIsPrinted(p); }
  }

  lemma RawParts(fixed: seq<byte>, csrc: seq<byte>, ext: seq<byte>, payload: seq<byte>)
    ensures var raw := fixed + csrc + ext + payload;
      && raw == fixed + (csrc + (ext + payload)) && raw[|raw| - |payload|..] == payload
      && raw[|fixed| + |csrc|..|raw| - |payload|] == ext
  {
  }

  /** Every packet that marshals prints these octets over any old buffer contents. */
  lemma PrintsExactly(p: Packet, ground: seq<byte>)
    requires Accepted(p) && |ground| >= Size(p)
    ensures var raw, b := HeaderBytes(p) + p.payload, Encoded(p, ground);
      Printed(raw, p) && if p.padding then PaddedOver(b, raw, ground, p.paddingSize) else b == raw
  {
    hide HeaderBytes, Printed;
    RawPrinted(p);
  }
}
