/** RTP packets and their octets (section 5.1 of RFC 3550, sections 4.2 and 4.3 of RFC 8285). */
module Rtp {
  import opened Octets
  import opened Sequences

  const ONE_BYTE: u16 := 0xBEDE
  const TWO_BYTE: u16 := 0x1000

  datatype Extension = Extension(id: byte, payload: seq<byte>)

  datatype Packet = Packet(
    version: byte, padding: bool, paddingSize: byte, marker: bool, payloadType: byte,
    sequenceNumber: u16, timestamp: u32, ssrc: u32, csrc: seq<u32>,
    extension: bool, profile: u16, extensions: seq<Extension>, payload: seq<byte>)

  datatype RtpError =
    | TooShort | BadVersion | NoExtensionHeader | NoExtensionData | TruncatedExtension
    | NoPadByte | ZeroPadding | PaddingExceedsPayload
    | BufferTooSmall | TooManyCsrcs | BadExtension

  /** Panic stands for an index out of range in the original. */
  datatype Outcome<+T> = Ok(value: T) | Err(error: RtpError) | Panic

  function Prepend<T>(acc: seq<T>, r: Outcome<seq<T>>): (s: Outcome<seq<T>>)
    ensures acc == [] ==> s == r
    ensures r == Ok([]) ==> s == Ok(acc)
    ensures !r.Ok? ==> s == r
  {
    if r.Ok? then
      assert [] + r.value == r.value && acc + [] == acc;
      Ok(acc + r.value)
    else r
  }

  lemma PrependOne<T>(acc: seq<T>, x: T, r: Outcome<seq<T>>)
    ensures Prepend(acc, Prepend([x], r)) == Prepend(acc + [x], r)
  {
    if r.Ok? { assert acc + ([x] + r.value) == acc + [x] + r.value; }
  }

  // ---- Encoding ----

  /** Octets of one extension element under profile, without alignment. */
  function ElementSize(profile: u16, e: Extension): (n: nat) {
    (if profile == ONE_BYTE then 1 else if profile == TWO_BYTE then 2 else 0) + |e.payload|
  }

  function ElementsSize(profile: u16, es: seq<Extension>): (n: nat) {
    if es == [] then 0 else ElementSize(profile, es[0]) + ElementsSize(profile, es[1..])
  }

  function ExtensionSize(p: Packet): (n: nat) {
    if p.extension then Align4(4 + ElementsSize(p.profile, p.extensions)) else 0
  }

  /** MarshalSize. */
  function Size(p: Packet): (n: nat) {
    12 + 4 * |p.csrc| + ExtensionSize(p) + |p.payload| + p.paddingSize
  }

  predicate ElementOk(profile: u16, e: Extension) {
    if profile == ONE_BYTE then 1 <= e.id <= 14 && |e.payload| <= 16
    else if profile == TWO_BYTE then e.id != 0 && |e.payload| <= 255
    else true
  }

  /** The checks MarshalTo makes besides the buffer's size. */
  predicate Accepted(p: Packet) {
    && |p.csrc| <= 15
    && (p.extension ==>
          && (forall e :: e in p.extensions ==> ElementOk(p.profile, e))
          && (p.profile != ONE_BYTE && p.profile != TWO_BYTE ==> |p.extensions| <= 1))
  }

  /** An element's head octets: a one-byte head with an empty payload comes out as 0xFF. */
  function ElementHead(profile: u16, e: Extension): (b: seq<byte>)
    requires ElementOk(profile, e)
    ensures |b| + |e.payload| == ElementSize(profile, e)
  {
    if profile == ONE_BYTE then [if e.payload == [] then 0xFF else e.id * 16 + |e.payload| - 1]
    else if profile == TWO_BYTE then [e.id, |e.payload|]
    else []
  }

  function ElementsBytes(profile: u16, es: seq<Extension>): (b: seq<byte>)
    requires forall e :: e in es ==> ElementOk(profile, e)
    ensures |b| == ElementsSize(profile, es)
  {
    if es == [] then [] else ElementHead(profile, es[0]) + es[0].payload + ElementsBytes(profile, es[1..])
  }

  /** Alignment octets: the one-byte scheme opens them with the terminating ID 15. */
  function AlignBytes(profile: u16, n: nat): (b: seq<byte>)
    ensures |b| == n
  {
    if profile == ONE_BYTE && n > 0 then [0xF0] + Zeros(n - 1) else Zeros(n)
  }

  function ExtensionBytes(p: Packet): (b: seq<byte>)
    requires Accepted(p)
    ensures |b| == ExtensionSize(p)
  {
    if !p.extension then []
    else
      var body := ElementsBytes(p.profile, p.extensions);
      var n := Align4(|body|);
      Be16(p.profile) + Be16(n / 4 % 0x1_0000) + body + AlignBytes(p.profile, n - |body|)
  }

  function CsrcBytes(cs: seq<u32>): (b: seq<byte>)
    ensures |b| == 4 * |cs|
  {
    ConcatMapUniform(Be32, cs, 4);
    ConcatMap(Be32, cs)
  }

  /** The first twelve octets. */
  function FixedBytes(p: Packet): (b: seq<byte>)
    requires |p.csrc| <= 15
    ensures |b| == 12
  {
    [p.version % 4 * 64 + (if p.padding then 32 else 0) + (if p.extension then 16 else 0) + |p.csrc|,
     if p.marker && p.payloadType < 128 then p.payloadType + 128 else p.payloadType]
    + Be16(p.sequenceNumber) + Be32(p.timestamp) + Be32(p.ssrc)
  }

  function HeaderBytes(p: Packet): (b: seq<byte>)
    requires Accepted(p)
    ensures |b| == 12 + 4 * |p.csrc| + ExtensionSize(p)
  {
    FixedBytes(p) + CsrcBytes(p.csrc) + ExtensionBytes(p)
  }

  /** What MarshalTo reports as written when the buffer held ground: with padding, the whole buffer. */
  function Encoded(p: Packet, ground: seq<byte>): (b: seq<byte>)
    requires Accepted(p) && |ground| >= Size(p)
  {
    var raw := HeaderBytes(p) + p.payload;
    if p.padding then (raw + ground[|raw|..])[|ground| - 1 := p.paddingSize] else raw
  }

  // ---- Decoding ----

  function DecodedOneByte(s: seq<byte>): (r: Outcome<seq<Extension>>)
    ensures !r.Panic?
  {
    if s == [] then Ok([])
    else if s[0] == 0 then DecodedOneByte(s[1..])
    else if s[0] / 16 == 15 then Ok([])
    else
      var used := 2 + s[0] % 16;
      if |s| < used then Err(TruncatedExtension)
      else Prepend([Extension(s[0] / 16, s[1..used])], DecodedOneByte(s[used..]))
  }

  function DecodedTwoByte(s: seq<byte>): (r: Outcome<seq<Extension>>)
    ensures !r.Panic?
  {
    if s == [] then Ok([])
    else if s[0] == 0 then DecodedTwoByte(s[1..])
    else if |s| < 2 || |s| < 2 + s[1] as nat then Err(TruncatedExtension)
    else
      var used := 2 + s[1] as nat;
      Prepend([Extension(s[0], s[2..used])], DecodedTwoByte(s[used..]))
  }

  function DecodedElements(profile: u16, s: seq<byte>): (r: Outcome<seq<Extension>>)
    ensures !r.Panic?
  {
    if profile == ONE_BYTE then DecodedOneByte(s)
    else if profile == TWO_BYTE then DecodedTwoByte(s)
    else if s == [] then Ok([])
    else Ok([Extension(0, s)])
  }

  function DecodedCsrcs(s: seq<byte>, n: nat): (cs: seq<u32>)
    requires 4 * n <= |s|
    ensures |cs| == n
  {
    if n == 0 then [] else [U32At(s, 0)] + DecodedCsrcs(s[4..], n - 1)
  }

  /** The extension block at the start of s: its profile, its elements and the octets it takes. */
  datatype Block = Block(profile: u16, extensions: seq<Extension>, used: nat)

  function DecodedBlock(s: seq<byte>): (r: Outcome<Block>)
    ensures r.Ok? ==> r.value.used <= |s|
    ensures !r.Panic?
  {
    if |s| < 4 then Err(NoExtensionHeader)
    else
      var used := 4 + U16At(s, 2) as nat * 4;
      if |s| < used then Err(NoExtensionData)
      else
        match DecodedElements(U16At(s, 0), s[4..used])
        case Ok(es) => Ok(Block(U16At(s, 0), es, used))
        case Err(e) => Err(e)
  }

  /** Padding octets declared at the end of s, which holds payload and padding. */
  function DecodedPadding(padding: bool, s: seq<byte>): (r: Outcome<byte>)
    ensures r.Ok? ==> r.value <= |s| && (padding <==> r.value > 0)
    ensures !r.Panic?
  {
    if !padding then Ok(0)
    else if s == [] then Err(NoPadByte)
    else if s[|s| - 1] == 0 then Err(ZeroPadding)
    else if s[|s| - 1] > |s| then Err(PaddingExceedsPayload)
    else Ok(s[|s| - 1])
  }

  /** UnmarshalRTP. */
  function Decoded(d: seq<byte>): (r: Outcome<Packet>) {
    if |d| < 12 then Err(TooShort)
    else if d[0] / 64 != 2 then Err(BadVersion)
    else
      var cc := d[0] as nat % 16;
      if |d| < 12 + 4 * cc then Panic
      else DecodedRest(d, DecodedCsrcs(d[12..], cc), d[12 + 4 * cc..])
  }

  /** The part of UnmarshalRTP after the contributing sources: s is what follows them in d. */
  function DecodedRest(d: seq<byte>, csrc: seq<u32>, s: seq<byte>): (r: Outcome<Packet>)
    requires |d| >= 12
    ensures !r.Panic?
  {
    if d[0] / 16 % 2 == 1 then
      match DecodedBlock(s)
      case Err(e) => Err(e)
      case Ok(b) => DecodedTail(d, csrc, true, b, s[b.used..])
    else DecodedTail(d, csrc, false, Block(0, [], 0), s)
  }

  /** The part of UnmarshalRTP after the header: s holds payload and padding. */
  function DecodedTail(d: seq<byte>, csrc: seq<u32>, extension: bool, b: Block, s: seq<byte>): (r: Outcome<Packet>)
    requires |d| >= 12
    ensures !r.Panic?
  {
    var padding := d[0] / 32 % 2 == 1;
    match DecodedPadding(padding, s)
    case Err(e) => Err(e)
    case Ok(n) =>
      Ok(Packet(d[0] / 64, padding, n, d[1] >= 128, d[1] % 128, U16At(d, 2), U32At(d, 4), U32At(d, 8), csrc,
                extension, b.profile, b.extensions, s[..|s| - n]))
  }

  // ---- One step of each element parser ----

  lemma OneByteStep(s: seq<byte>, used: nat)
    requires s != [] && s[0] != 0 && s[0] / 16 != 15 && used == 2 + s[0] as nat % 16 <= |s|
    ensures DecodedOneByte(s) == Prepend([Extension(s[0] / 16, s[1..used])], DecodedOneByte(s[used..]))
  {
  }

  lemma OneByteOther(s: seq<byte>)
    ensures s == [] || s[0] / 16 == 15 ==> DecodedOneByte(s) == Ok([])
    ensures s != [] && s[0] == 0 ==> DecodedOneByte(s) == DecodedOneByte(s[1..])
    ensures s != [] && s[0] != 0 && s[0] / 16 != 15 && |s| < 2 + s[0] as nat % 16
      ==> DecodedOneByte(s) == Err(TruncatedExtension)
  {
  }

  lemma TwoByteStep(s: seq<byte>, used: nat)
    requires |s| >= 2 && s[0] != 0 && used == 2 + s[1] as nat <= |s|
    ensures DecodedTwoByte(s) == Prepend([Extension(s[0], s[2..used])], DecodedTwoByte(s[used..]))
  {
  }

  lemma TwoByteOther(s: seq<byte>)
    ensures s == [] ==> DecodedTwoByte(s) == Ok([])
    ensures s != [] && s[0] == 0 ==> DecodedTwoByte(s) == DecodedTwoByte(s[1..])
    ensures s != [] && s[0] != 0 && (|s| < 2 || |s| < 2 + s[1] as nat) ==> DecodedTwoByte(s) == Err(TruncatedExtension)
  {
  }
}
