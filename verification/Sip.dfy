/** SIP messages and their text (section 7 of RFC 3261), as proto/sip.go prints and parses them. */
module Sip {
  import opened Octets
  import opened Text
  import opened Decimal
  import opened Sequences
  import opened Ordering

  type Headers = map<string, seq<string>>

  datatype StartLine =
    | Request(verb: string, uri: string, version: string)
    | Response(version: string, statusCode: int, status: string)

  datatype CSeq = CSeq(number: int64, verb: string)

  /** A message; only one built outside the package's constructors lacks a start line. */
  datatype Message = Message(start: Option<StartLine>, headers: Headers, cseq: CSeq, body: string)

  datatype SipError =
    | NoStartLine | BadStartLine | BadStatusCode | BadMethod | BadVersion
    | HeadersEnd | BadHeader | BadCSeq | BadContentLength | NegativeContentLength | ShortBody | NoContentLength
    | MissingHeader | BufferTooSmall

  /** Panic stands for an index out of range in the original. */
  datatype Outcome<+T> = Ok(value: T) | Err(error: SipError) | Panic

  const SIP_INDICATOR := "SIP/"

  predicate IsMethod(s: string) {
    || s == "INVITE" || s == "ACK" || s == "CANCEL" || s == "OPTIONS" || s == "BYE"
    || s == "REGISTER" || s == "PRACK" || s == "SUBSCRIBE" || s == "NOTIFY" || s == "PUBLISH"
    || s == "INFO" || s == "REFER" || s == "MESSAGE" || s == "UPDATE"
  }

  // ---- Header names ----

  predicate IsLower(c: char) { 'a' <= c <= 'z' }
  predicate IsUpper(c: char) { 'A' <= c <= 'Z' }

  /** Octets of a token in section 7.3 of RFC 3261, as net/textproto checks them. */
  predicate IsToken(c: char) {
    || IsLower(c) || IsUpper(c) || IsDigit(c)
    || c == '!' || '#' <= c <= '\'' || c == '*' || c == '+' || c == '-' || c == '.' || '^' <= c <= '`' || c == '|'
    || c == '~'
  }

  function Upper(c: char): char { if IsLower(c) then c - 'a' + 'A' else c }
  function Lower(c: char): char { if IsUpper(c) then c - 'A' + 'a' else c }

  function Recased(k: string, i: nat): char
    requires i < |k|
  {
    if i == 0 || k[i - 1] == '-' then Upper(k[i]) else Lower(k[i])
  }

  /** textproto.CanonicalMIMEHeaderKey: words of a token start with a capital; anything else is left alone. */
  function MimeKey(k: string): (r: string)
    ensures |r| == |k|
  {
    if forall i :: 0 <= i < |k| ==> IsToken(k[i]) then seq(|k|, i requires 0 <= i < |k| => Recased(k, i)) else k
  }

  /** Where SIP spells a name differently from HTTP. */
  function RfcOverride(k: string): (r: string) {
    if k == "Call-Id" then "Call-ID"
    else if k == "Cseq" then "CSeq"
    else if k == "Rack" then "RAck"
    else if k == "Rseq" then "RSeq"
    else if k == "Www-Authenticate" then "WWW-Authenticate"
    else k
  }

  function CanonicalKey(k: string): (r: string) {
    RfcOverride(MimeKey(k))
  }

  /** The compactHeaders table. */
  function LongForm(c: char): (r: string) {
    match c
    case 'a' => "Accept-Contact"
    case 'b' => "Referred-By"
    case 'c' => "Content-Type"
    case 'd' => "Request-Disposition"
    case 'e' => "Content-Encoding"
    case 'f' => "From"
    case 'i' => "Call-ID"
    case 'j' => "Reject-Contact"
    case 'k' => "Supported"
    case 'l' => "Content-Length"
    case 'm' => "Contact"
    case 'n' => "RSeq"
    case 'o' => "Event"
    case 'r' => "Refer-To"
    case 's' => "Subject"
    case 't' => "To"
    case 'u' => "Allow-Events"
    case 'v' => "Via"
    case _ => [c]
  }

  /** The name a parsed header name stands for. */
  function Expand(k: string): (r: string) {
    if |k| == 1 then LongForm(k[0]) else k
  }

  function CompactKey(k: string): (r: string)
    ensures r == k || (|r| == 1 && IsLower(r[0]))
  {
    if k == "Accept-Contact" then "a"
    else if k == "Referred-By" then "b"
    else if k == "Content-Type" then "c"
    else if k == "Request-Disposition" then "d"
    else if k == "Content-Encoding" then "e"
    else if k == "From" then "f"
    else if k == "Call-ID" then "i"
    else if k == "Reject-Contact" then "j"
    else if k == "Supported" then "k"
    else if k == "Content-Length" then "l"
    else if k == "Contact" then "m"
    else if k == "RSeq" then "n"
    else if k == "Event" then "o"
    else if k == "Refer-To" then "r"
    else if k == "Subject" then "s"
    else if k == "To" then "t"
    else if k == "Allow-Events" then "u"
    else if k == "Via" then "v"
    else k
  }

  // ---- Printing ----

  datatype Field = Field(key: string, value: string)

  function StartText(sl: StartLine): (s: string) {
    match sl
    case Request(verb, uri, version) => verb + " " + uri + " " + version
    case Response(version, _, status) => version + " " + status
  }

  function FieldText(f: Field): (s: string) {
    f.key + ": " + f.value + CRLF
  }

  function FieldsFor(k: string, vs: seq<string>): (fs: seq<Field>)
    ensures |fs| == |vs|
  {
    seq(|vs|, i requires 0 <= i < |vs| => Field(k, vs[i]))
  }

  function FieldsOf(h: Headers, keys: seq<string>): (fs: seq<Field>)
    requires forall k :: k in keys ==> k in h
  {
    if keys == [] then [] else FieldsFor(keys[0], h[keys[0]]) + FieldsOf(h, keys[1..])
  }

  /** CSeq and Content-Length are always regenerated, whatever the map holds for them. */
  function PrintedKeys(h: Headers): (ks: set<string>)
    ensures forall k :: k in ks ==> k in h
  {
    set k | k in h && k != "CSeq" && k != "Content-Length"
  }

  function CSeqText(c: CSeq): (s: string) {
    Dec(c.number) + " " + c.verb
  }

  ghost function HeaderFields(m: Message): (fs: seq<Field>) {
    FieldsOf(m.headers, SortedKeys(PrintedKeys(m.headers)))
  }

  ghost function Fields(m: Message): (fs: seq<Field>) {
    HeaderFields(m) + [Field("CSeq", CSeqText(m.cseq)), Field("Content-Length", Dec(|m.body|))]
  }

  function Compacted(f: Field): (g: Field) {
    Field(CompactKey(f.key), f.value)
  }

  function Styled(fs: seq<Field>, compact: bool): (gs: seq<Field>)
    ensures |gs| == |fs|
    ensures forall i :: 0 <= i < |fs| ==> gs[i] == if compact then Compacted(fs[i]) else fs[i]
  {
    if compact then seq(|fs|, i requires 0 <= i < |fs| => Compacted(fs[i])) else fs
  }

  /** Everything up to the body. */
  ghost function HeadText(m: Message, compact: bool): (s: string)
    requires m.start.Some?
  {
    StartText(m.start.value) + CRLF + ConcatMap(FieldText, Styled(Fields(m), compact)) + CRLF
  }

  /** The message as marshalToImpl prints it. */
  ghost function Encoded(m: Message, compact: bool): (s: string) {
    if m.start.None? then "" else HeadText(m, compact) + m.body
  }

  // ---- Parsing ----

  function DecodedStartLine(s: string): (r: Outcome<StartLine>)
    ensures !r.Panic?
  {
    var a := Cut(s, ' ');
    if !a.found then Err(BadStartLine)
    else
      var b := Cut(a.after, ' ');
      if !b.found || b.before == "" || b.after == "" then Err(BadStartLine)
      else if SIP_INDICATOR <= a.before then
        if |b.before| != 3 then Err(BadStatusCode)
        else
          var code := Atoi(b.before);
          if code.None? then Err(BadStatusCode)
          else Ok(Response(a.before, code.value, b.before + " " + b.after))
      else if !IsMethod(a.before) then Err(BadMethod)
      else if !(SIP_INDICATOR <= b.after) then Err(BadVersion)
      else Ok(Request(a.before, b.before, b.after))
  }

  function Added(h: Headers, k: string, v: string): (r: Headers) {
    h[k := (if k in h then h[k] else []) + [v]]
  }

  function AddedField(h: Headers, f: Field): (r: Headers) {
    Added(h, CanonicalKey(Expand(f.key)), f.value)
  }

  /** The header section of s, added to h, and what follows its empty line. */
  function DecodedHeaders(s: string, h: Headers): (r: Outcome<(Headers, string)>)
    ensures !r.Panic?
    ensures r.Ok? ==> |r.value.1| <= |s|
    decreases |s|
  {
    if s == "" then Err(HeadersEnd)
    else
      var (line, rest) := ContinuedLine(s);
      if line == "" then Ok((h, rest))
      else
        var kv := Cut(line, ':');
        if !kv.found then Err(BadHeader)
        else DecodedHeaders(rest, AddedField(h, Field(kv.before, TrimLeft(kv.after, " "))))
  }

  function DecodedCSeq(values: seq<string>): (r: Outcome<CSeq>)
    ensures !r.Panic?
  {
    if |values| != 1 then Err(BadCSeq)
    else
      var c := Cut(values[0], ' ');
      if !c.found then Err(BadCSeq)
      else
        var n := Atoi(c.before);
        if n.None? || !IsMethod(c.after) then Err(BadCSeq) else Ok(CSeq(n.value, c.after))
  }

  /** CSeq of a parsed header map: absent, it keeps its zero value. */
  function CSeqOf(h: Headers): (r: Outcome<CSeq>)
    ensures !r.Panic?
  {
    if "CSeq" in h then DecodedCSeq(h["CSeq"]) else Ok(CSeq(0, ""))
  }

  const DISCARD_LIMIT: nat := 0x10_0000

  /** Body and remaining octets. */
  function DecodedBody(h: Headers, s: string, streamed: bool): (r: Outcome<(string, string)>)
    ensures !r.Panic?
    ensures r.Ok? ==> |r.value.1| <= |s|
  {
    if "Content-Length" in h then
      if h["Content-Length"] == [] then Err(BadContentLength)
      else
        var n := Atoi(TrimSpace(h["Content-Length"][0]));
        if n.None? then Err(BadContentLength)
        else if n.value < 0 then Err(NegativeContentLength)
        else if n.value > |s| then Err(ShortBody)
        else
          var rest := s[n.value..];
          Ok((s[..n.value], if streamed then rest else if |rest| <= DISCARD_LIMIT then "" else rest[DISCARD_LIMIT..]))
    else if streamed then Err(NoContentLength)
    else Ok((s, ""))
  }

  /** unmarshalSIP: the message at the front of s, and what is left in the reader. */
  function Decoded(s: string, streamed: bool): (r: Outcome<(Message, string)>)
    ensures !r.Panic?
  {
    if s == "" then Err(NoStartLine)
    else
      var (line, rest) := Line(s);
      var sl := DecodedStartLine(line);
      if sl.Err? then Err(sl.error)
      else
        var hs := DecodedHeaders(rest, map[]);
        if hs.Err? then Err(hs.error)
        else
          var (h, tail) := hs.value;
          var c := CSeqOf(h);
          if c.Err? then Err(c.error)
          else
            var b := DecodedBody(h, tail, streamed);
            if b.Err? then Err(b.error)
            else Ok((Message(Some(sl.value), h, c.value, b.value.0), b.value.1))
  }

  // ---- Sizes ----

  function KeyWidth(k: string, compact: bool): (n: nat) {
    if compact then |CompactKey(k)| else |k|
  }

  function ValuesSize(w: nat, vs: seq<string>): (n: nat) {
    if vs == [] then 0 else w + 2 + |vs[0]| + 2 + ValuesSize(w, vs[1..])
  }

  function KeysSize(h: Headers, keys: seq<string>, compact: bool): (n: nat)
    requires forall k :: k in keys ==> k in h
  {
    if keys == [] then 0
    else ValuesSize(KeyWidth(keys[0], compact), h[keys[0]]) + KeysSize(h, keys[1..], compact)
  }

  /** marshalSize, whose digit counter does not see a minus sign. */
  ghost function Size(m: Message, compact: bool): (n: nat) {
    if m.start.None? then 0
    else
      |StartText(m.start.value)| + 2
      + KeysSize(m.headers, SortedKeys(PrintedKeys(m.headers)), compact)
      + (6 + DigitCount(m.cseq.number) + 1 + |m.cseq.verb| + 2)
      + (KeyWidth("Content-Length", compact) + 2 + DigitCount(|m.body|) + 2)
      + 2 + |m.body|
  }
}
