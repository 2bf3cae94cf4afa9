/** Session descriptions and their text (section 5 of RFC 8866), as proto/sdp.go prints and parses them. */
module Sdp {
  import opened Octets
  import opened Text
  import opened Decimal
  import opened Sequences

  datatype Origin = Origin(username: string, sessionId: string, sessionVersion: string,
                           networkType: string, addressType: string, address: string)
  datatype Connection = Connection(networkType: string, addressType: string, address: string)
  datatype Bandwidth = Bandwidth(kind: string, value: int64)
  datatype Repeat = Repeat(interval: int64, duration: int64, offsets: seq<int64>)
  datatype Time = Time(start: int64, stop: int64, repeats: seq<Repeat>)
  datatype EncryptionKey = EncryptionKey(scheme: string, key: string)
  datatype Attribute = Attribute(key: string, value: string)

  datatype Media = Media(
    kind: string, port: int64, portCount: int64, proto: string, formats: seq<string>, title: string,
    connection: Option<Connection>, bandwidths: seq<Bandwidth>, encryption: Option<EncryptionKey>,
    attributes: seq<Attribute>)

  datatype Session = Session(
    version: int64, origin: Origin, name: string, info: string, uri: string, emails: seq<string>, phones: seq<string>,
    connection: Option<Connection>, bandwidths: seq<Bandwidth>, times: seq<Time>, timeZone: string,
    encryption: Option<EncryptionKey>, attributes: seq<Attribute>, media: seq<Media>)

  datatype SdpError =
    | EmptyBody | MalformedLine | BadMedia | DuplicateVersion | InvalidVersion | BadOrigin | BadConnection
    | BadBandwidth | BadTime | RepeatBeforeTime | BadRepeat | UnknownField
    | MissingVersion | WrongVersion | MissingOrigin | MissingName | MissingTime
    | BufferTooSmall

  /** Panic stands for an index out of range in the original. */
  datatype Outcome<+T> = Ok(value: T) | Err(error: SdpError) | Panic

  // ---- Printing ----

  /** A printed line is made of text and numbers; only the numbers are measured by counting digits. */
  datatype Part = Lit(text: string) | Num(value: int64)
  datatype Item = Item(typ: char, parts: seq<Part>)

  function PartText(p: Part): (s: string) {
    if p.Lit? then p.text else Dec(p.value)
  }

  function Val(i: Item): (s: string) {
    ConcatMap(PartText, i.parts)
  }

  function LineText(i: Item): (s: string) {
    [i.typ] + "=" + Val(i)
  }

  function ItemText(i: Item): (s: string) {
    LineText(i) + CRLF
  }

  function ItemsText(items: seq<Item>): (s: string) {
    ConcatMap(ItemText, items)
  }

  function TextItem(typ: char, s: string): (i: Item) {
    Item(typ, [Lit(s)])
  }

  /** A line printed only when its text is not empty. */
  function OptionalItem(typ: char, s: string): (r: seq<Item>) {
    if s == "" then [] else [TextItem(typ, s)]
  }

  function EachItem(typ: char, ss: seq<string>): (r: seq<Item>) {
    if ss == [] then [] else [TextItem(typ, ss[0])] + EachItem(typ, ss[1..])
  }

  function OriginText(o: Origin): (s: string) {
    o.username + " " + o.sessionId + " " + o.sessionVersion + " " + o.networkType + " " + o.addressType
    + " " + o.address
  }

  function ConnectionText(c: Connection): (s: string) {
    c.networkType + " " + c.addressType + " " + c.address
  }

  function ConnectionItems(c: Option<Connection>): (r: seq<Item>) {
    if c.None? then [] else [TextItem('c', ConnectionText(c.value))]
  }

  function BandwidthItem(b: Bandwidth): (i: Item) {
    Item('b', [Lit(b.kind + ":"), Num(b.value)])
  }

  function BandwidthItems(bs: seq<Bandwidth>): (r: seq<Item>) {
    if bs == [] then [] else [BandwidthItem(bs[0])] + BandwidthItems(bs[1..])
  }

  function OffsetParts(os: seq<int64>): (ps: seq<Part>) {
    if os == [] then [] else [Lit(" "), Num(os[0])] + OffsetParts(os[1..])
  }

  function RepeatItem(r: Repeat): (i: Item) {
    Item('r', [Num(r.interval), Lit(" "), Num(r.duration)] + OffsetParts(r.offsets))
  }

  function RepeatItems(rs: seq<Repeat>): (r: seq<Item>) {
    if rs == [] then [] else [RepeatItem(rs[0])] + RepeatItems(rs[1..])
  }

  function TimeItem(t: Time): (i: Item) {
    Item('t', [Num(t.start), Lit(" "), Num(t.stop)])
  }

  function TimeItems(ts: seq<Time>): (r: seq<Item>) {
    if ts == [] then [] else [TimeItem(ts[0])] + RepeatItems(ts[0].repeats) + TimeItems(ts[1..])
  }

  function Tagged(key: string, value: string): (s: string) {
    if value == "" then key else key + ":" + value
  }

  function EncryptionItems(k: Option<EncryptionKey>): (r: seq<Item>) {
    if k.None? then [] else [TextItem('k', Tagged(k.value.scheme, k.value.key))]
  }

  function AttributeItems(xs: seq<Attribute>): (r: seq<Item>) {
    if xs == [] then [] else [TextItem('a', Tagged(xs[0].key, xs[0].value))] + AttributeItems(xs[1..])
  }

  function Join(ss: seq<string>): (s: string) {
    if ss == [] then "" else if |ss| == 1 then ss[0] else ss[0] + " " + Join(ss[1..])
  }

  function MediaItem(m: Media): (i: Item) {
    Item('m', [Lit(m.kind + " "), Num(m.port)]
              + (if m.portCount > 1 then [Lit("/"), Num(m.portCount)] else [])
              + [Lit(" " + m.proto + " " + Join(m.formats))])
  }

  function MediaLines(m: Media): (r: seq<Item>) {
    [MediaItem(m)] + (OptionalItem('i', m.title) + (ConnectionItems(m.connection) + (BandwidthItems(m.bandwidths)
      + (EncryptionItems(m.encryption) + AttributeItems(m.attributes)))))
  }

  function MediaItems(ms: seq<Media>): (r: seq<Item>) {
    if ms == [] then [] else MediaLines(ms[0]) + MediaItems(ms[1..])
  }

  function HeadItems(s: Session): (r: seq<Item>) {
    [Item('v', [Num(s.version)]), TextItem('o', OriginText(s.origin)), TextItem('s', s.name)]
  }

  /** All lines of a description, in the order in which they are printed. */
  function Items(s: Session): (r: seq<Item>) {
    HeadItems(s) + (OptionalItem('i', s.info) + (OptionalItem('u', s.uri) + (EachItem('e', s.emails)
      + (EachItem('p', s.phones) + (ConnectionItems(s.connection) + (BandwidthItems(s.bandwidths)
      + (TimeItems(s.times) + (OptionalItem('z', s.timeZone) + (EncryptionItems(s.encryption)
      + (AttributeItems(s.attributes) + MediaItems(s.media)))))))))))
  }

  function Encoded(s: Session): (t: string) {
    ItemsText(Items(s))
  }

  // ---- Sizes, field by field as MarshalSize adds them ----

  function TextSize(s: string): (n: nat) {
    2 + |s| + 2
  }

  function OptionalSize(s: string): (n: nat) {
    if s == "" then 0 else TextSize(s)
  }

  function EachSize(ss: seq<string>): (n: nat) {
    if ss == [] then 0 else TextSize(ss[0]) + EachSize(ss[1..])
  }

  function OriginSize(o: Origin): (n: nat) {
    2 + |o.username| + 1 + |o.sessionId| + 1 + |o.sessionVersion| + 1 + |o.networkType| + 1 + |o.addressType| + 1
    + |o.address| + 2
  }

  function ConnectionSize(c: Option<Connection>): (n: nat) {
    if c.None? then 0 else 2 + |c.value.networkType| + 1 + |c.value.addressType| + 1 + |c.value.address| + 2
  }

  function BandwidthsSize(bs: seq<Bandwidth>): (n: nat) {
    if bs == [] then 0 else 2 + |bs[0].kind| + 1 + DigitCount(bs[0].value) + 2 + BandwidthsSize(bs[1..])
  }

  function OffsetsSize(os: seq<int64>): (n: nat) {
    if os == [] then 0 else 1 + DigitCount(os[0]) + OffsetsSize(os[1..])
  }

  function RepeatSize(r: Repeat): (n: nat) {
    2 + DigitCount(r.interval) + 1 + DigitCount(r.duration) + OffsetsSize(r.offsets) + 2
  }

  function RepeatsSize(rs: seq<Repeat>): (n: nat) {
    if rs == [] then 0 else RepeatSize(rs[0]) + RepeatsSize(rs[1..])
  }

  function TimeSize(t: Time): (n: nat) {
    2 + DigitCount(t.start) + 1 + DigitCount(t.stop) + 2 + RepeatsSize(t.repeats)
  }

  function TimesSize(ts: seq<Time>): (n: nat) {
    if ts == [] then 0 else TimeSize(ts[0]) + TimesSize(ts[1..])
  }

  /** A name line and, where there is a value, its separator and value. */
  function TaggedSize(key: string, value: string): (n: nat) {
    2 + |key| + 2 + if value == "" then 0 else 1 + |value|
  }

  function EncryptionSize(k: Option<EncryptionKey>): (n: nat) {
    if k.None? then 0 else TaggedSize(k.value.scheme, k.value.key)
  }

  function AttributesSize(xs: seq<Attribute>): (n: nat) {
    if xs == [] then 0 else TaggedSize(xs[0].key, xs[0].value) + AttributesSize(xs[1..])
  }

  function TotalLength(ss: seq<string>): (n: nat) {
    if ss == [] then 0 else |ss[0]| + TotalLength(ss[1..])
  }

  /** joinLen with a separator of one octet. */
  function JoinLen(ss: seq<string>): (n: nat) {
    if ss == [] then 0 else |ss| - 1 + TotalLength(ss)
  }

  function MediaLineSize(m: Media): (n: nat) {
    2 + |m.kind| + 1 + DigitCount(m.port) + (if m.portCount > 1 then 1 + DigitCount(m.portCount) else 0)
    + 1 + |m.proto| + 1 + JoinLen(m.formats) + 2
  }

  function MediaSize(m: Media): (n: nat) {
    MediaLineSize(m) + OptionalSize(m.title) + ConnectionSize(m.connection) + BandwidthsSize(m.bandwidths)
    + EncryptionSize(m.encryption) + AttributesSize(m.attributes)
  }

  function MediasSize(ms: seq<Media>): (n: nat) {
    if ms == [] then 0 else MediaSize(ms[0]) + MediasSize(ms[1..])
  }

  /** MarshalSize. */
  function Size(s: Session): (n: nat) {
    2 + DigitCount(s.version) + 2 + OriginSize(s.origin) + TextSize(s.name)
    + OptionalSize(s.info) + OptionalSize(s.uri) + EachSize(s.emails) + EachSize(s.phones)
    + ConnectionSize(s.connection) + BandwidthsSize(s.bandwidths) + TimesSize(s.times) + OptionalSize(s.timeZone)
    + EncryptionSize(s.encryption) + AttributesSize(s.attributes) + MediasSize(s.media)
  }

  predicate PartUnsigned(p: Part) {
    p.Num? ==> p.value >= 0
  }

  /** No printed number carries a minus sign. */
  predicate Unsigned(items: seq<Item>) {
    forall i :: i in items ==> forall p :: p in i.parts ==> PartUnsigned(p)
  }

  // ---- Parsing ----

  function SkipBlanks(s: string): (r: string) {
    TrimLeft(s, " ")
  }

  function DecodedOrigin(val: string): (r: Outcome<Origin>)
    ensures !r.Panic?
  {
    var a := Cut(val, ' ');
    var b := Cut(SkipBlanks(a.after), ' ');
    var c := Cut(SkipBlanks(b.after), ' ');
    var d := Cut(SkipBlanks(c.after), ' ');
    var e := Cut(SkipBlanks(d.after), ' ');
    if a.found && b.found && c.found && d.found && e.found
    then Ok(Origin(a.before, b.before, c.before, d.before, e.before, e.after))
    else Err(BadOrigin)
  }

  function DecodedConnection(val: string): (r: Outcome<Connection>)
    ensures !r.Panic?
  {
    var a := Cut(val, ' ');
    var b := Cut(SkipBlanks(a.after), ' ');
    if a.found && b.found then Ok(Connection(a.before, b.before, b.after)) else Err(BadConnection)
  }

  function DecodedBandwidth(val: string): (r: Outcome<Bandwidth>)
    ensures !r.Panic?
  {
    var a := Cut(val, ':');
    var n := Atoi(TrimSpace(a.after));
    if a.found && n.Some? then Ok(Bandwidth(TrimSpace(a.before), n.value)) else Err(BadBandwidth)
  }

  function DecodedTime(val: string): (r: Outcome<Time>)
    ensures !r.Panic?
  {
    var a := Cut(val, ' ');
    var stop := TrimSpace(a.after);
    if !a.found || stop == "" then Err(BadTime)
    else
      var m, n := Atoi(a.before), Atoi(stop);
      if m.Some? && n.Some? then Ok(Time(m.value, n.value, [])) else Err(BadTime)
  }

  function DecodedOffsets(s: string): (r: Outcome<seq<int64>>)
    ensures !r.Panic?
    decreases |s|
  {
    if s == "" then Ok([])
    else
      var a := Cut(s, ' ');
      var n := Atoi(a.before);
      if n.None? then Err(BadRepeat)
      else
        var more := DecodedOffsets(SkipBlanks(a.after));
        if more.Err? then more else Ok([n.value] + more.value)
  }

  function DecodedRepeat(val: string): (r: Outcome<Repeat>)
    ensures !r.Panic?
  {
    var a := Cut(val, ' ');
    var b := Cut(SkipBlanks(a.after), ' ');
    if !a.found || !b.found then Err(BadRepeat)
    else
      var m, n := Atoi(a.before), Atoi(b.before);
      if m.None? || n.None? then Err(BadRepeat)
      else
        var os := DecodedOffsets(SkipBlanks(b.after));
        if os.Err? then Err(os.error) else Ok(Repeat(m.value, n.value, os.value))
  }

  function DecodedEncryption(val: string): (k: EncryptionKey) {
    var a := Cut(val, ':');
    EncryptionKey(a.before, a.after)
  }

  function DecodedAttribute(val: string): (a: Attribute) {
    var c := Cut(val, ':');
    Attribute(c.before, c.after)
  }

  /** strings.Split at a space: one piece more than there are spaces. */
  function Split(s: string): (ss: seq<string>)
    ensures ss != []
    decreases |s|
  {
    var a := Cut(s, ' ');
    if a.found then [a.before] + Split(a.after) else [s]
  }

  function DecodedMedia(val: string): (r: Outcome<Media>)
    ensures !r.Panic?
  {
    var a := Cut(val, ' ');
    var b := Cut(SkipBlanks(a.after), ' ');
    var c := Cut(SkipBlanks(b.after), ' ');
    if !a.found || !b.found || !c.found then Err(BadMedia)
    else
      var p := Cut(b.before, '/');
      var count := if p.found then Atoi(p.after) else Some(1);
      var port := Atoi(p.before);
      if count.None? || port.None? then Err(BadMedia)
      else
        var rest := SkipBlanks(c.after);
        var formats := if rest == "" then [] else Split(rest);
        Ok(Media(a.before, port.value, count.value, c.before, formats, "", None, [], None, []))
  }

  /** unmarshalSessionLine: a repeat line belongs to the latest time line. */
  function SessionLine(s: Session, typ: char, val: string): (r: Outcome<Session>)
    ensures !r.Panic?
  {
    match typ
    case 'o' =>
      var o := DecodedOrigin(val);
      if o.Err? then Err(o.error) else Ok(s.(origin := o.value))
    case 's' => Ok(s.(name := val))
    case 'i' => Ok(s.(info := val))
    case 'u' => Ok(s.(uri := val))
    case 'e' => Ok(s.(emails := s.emails + [val]))
    case 'p' => Ok(s.(phones := s.phones + [val]))
    case 'c' =>
      var c := DecodedConnection(val);
      if c.Err? then Err(c.error) else Ok(s.(connection := Some(c.value)))
    case 'b' =>
      var b := DecodedBandwidth(val);
      if b.Err? then Err(b.error) else Ok(s.(bandwidths := s.bandwidths + [b.value]))
    case 't' =>
      var t := DecodedTime(val);
      if t.Err? then Err(t.error) else Ok(s.(times := s.times + [t.value]))
    case 'r' =>
      if s.times == [] then Err(RepeatBeforeTime)
      else
        var r := DecodedRepeat(val);
        if r.Err? then Err(r.error) else Ok(s.(times := WithRepeat(s.times, r.value)))
    case 'z' => Ok(s.(timeZone := val))
    case 'k' => Ok(s.(encryption := Some(DecodedEncryption(val))))
    case 'a' => Ok(s.(attributes := s.attributes + [DecodedAttribute(val)]))
    case _ => Err(UnknownField)
  }

  function WithRepeat(ts: seq<Time>, r: Repeat): (us: seq<Time>)
    requires ts != []
  {
    var last := |ts| - 1;
    ts[last := ts[last].(repeats := ts[last].repeats + [r])]
  }

  function MediaLine(m: Media, typ: char, val: string): (r: Outcome<Media>)
    ensures !r.Panic?
  {
    match typ
    case 'i' => Ok(m.(title := val))
    case 'c' =>
      var c := DecodedConnection(val);
      if c.Err? then Err(c.error) else Ok(m.(connection := Some(c.value)))
    case 'b' =>
      var b := DecodedBandwidth(val);
      if b.Err? then Err(b.error) else Ok(m.(bandwidths := m.bandwidths + [b.value]))
    case 'k' => Ok(m.(encryption := Some(DecodedEncryption(val))))
    case 'a' => Ok(m.(attributes := m.attributes + [DecodedAttribute(val)]))
    case _ => Err(UnknownField)
  }

  /** What has been parsed so far; the current media section is the last one. */
  datatype Parse = Parse(session: Session, seenVersion: bool)

  const EMPTY: Session :=
    Session(0, Origin("", "", "", "", "", ""), "", "", "", [], [], None, [], [], "", None, [], [])

  function Apply(p: Parse, typ: char, val: string): (r: Outcome<Parse>)
    ensures !r.Panic?
  {
    var s := p.session;
    if typ == 'm' then
      var m := DecodedMedia(val);
      if m.Err? then Err(m.error) else Ok(p.(session := s.(media := s.media + [m.value])))
    else if typ == 'v' then
      if p.seenVersion then Err(DuplicateVersion)
      else
        var n := Atoi(TrimSpace(val));
        if n.None? then Err(InvalidVersion) else Ok(Parse(s.(version := n.value), true))
    else if s.media != [] then
      var last := |s.media| - 1;
      var m := MediaLine(s.media[last], typ, val);
      if m.Err? then Err(m.error) else Ok(p.(session := s.(media := s.media[last := m.value])))
    else
      var t := SessionLine(s, typ, val);
      if t.Err? then Err(t.error) else Ok(p.(session := t.value))
  }

  /** The lines of s, applied to p; blank lines are skipped. */
  function DecodedLines(s: string, p: Parse): (r: Outcome<Parse>)
    ensures !r.Panic?
    decreases |s|
  {
    if s == "" then Ok(p)
    else
      var (raw, rest) := Line(s);
      var line := TrimSpace(raw);
      if line == "" then DecodedLines(rest, p)
      else if |line| < 3 || line[1] != '=' then Err(MalformedLine)
      else
        var q := Apply(p, line[0], line[2..]);
        if q.Err? then q else DecodedLines(rest, q.value)
  }

  function Checked(p: Parse): (r: Outcome<Session>)
    ensures !r.Panic?
  {
    var s := p.session;
    if !p.seenVersion then Err(MissingVersion)
    else if s.version != 0 then Err(WrongVersion)
    else if s.origin.username == "" then Err(MissingOrigin)
    else if s.name == "" then Err(MissingName)
    else if s.times == [] then Err(MissingTime)
    else Ok(s)
  }

  /** UnmarshalSDP. */
  function Decoded(s: string): (r: Outcome<Session>)
    ensures !r.Panic?
  {
    if s == "" then Err(EmptyBody)
    else
      var p := DecodedLines(s, Parse(EMPTY, false));
      if p.Err? then Err(p.error) else Checked(p.value)
  }
}
