/** SIP marshalling into a buffer and parsing from a reader, as proto/sip.go runs them. */
module SipCodec {
  import opened Octets
  import opened Text
  import opened Decimal
  import opened Sequences
  import opened Buffers
  import opened Ordering
  import opened Readers
  import opened Sip
  import opened SipRoundTrip

  // ---- Parsing ----

  method UnmarshalHeaders(r: Reader) returns (res: Outcome<Headers>)
    modifies r
    ensures var d := DecodedHeaders(old(r.rest), map[]);
      if d.Ok? then res == Ok(d.value.0) && r.rest == d.value.1 else res == Err(d.error)
  {
    hide ContinuedLine, CanonicalKey, Expand, Cut;
    var h: Headers := map[];
    while true
      invariant DecodedHeaders(r.rest, h) == DecodedHeaders(old(r.rest), map[])
      decreases |r.rest|
    {
      var got := r.ReadContinuedLine();
      if got.None? { return Err(HeadersEnd); }
      var line := got.value;
      if line == "" { return Ok(h); }
      var kv := Cut(line, ':');
      if !kv.found { return Err(BadHeader); }
      var k := CanonicalKey(Expand(kv.before));
      var v := kv.after;
      while v != "" && v[0] == ' '
        invariant TrimLeft(v, " ") == TrimLeft(kv.after, " ")
        decreases |v|
      {
        v := v[1..];
      }
      assert v == TrimLeft(kv.after, " ");
      h := h[k := (if k in h then h[k] else []) + [v]];
    }
  }

  /** unmarshalSIP. */
  method Unmarshal(r: Reader, streamed: bool) returns (res: Outcome<Message>)
    modifies r
    ensures var d := Decoded(old(r.rest), streamed);
      if d.Ok? then res == Ok(d.value.0) && r.rest == d.value.1 else res == Err(d.error)
  {
    hide Line, DecodedStartLine, DecodedHeaders, CSeqOf, Atoi, TrimSpace;
    var line := r.ReadLine();
    if line.None? { return Err(NoStartLine); }
    var sl := DecodedStartLine(line.value);
    if sl.Err? { return Err(sl.error); }
    var hs := UnmarshalHeaders(r);
    if hs.Err? { return Err(hs.error); }
    var h := hs.value;
    var c := CSeqOf(h);
    if c.Err? { return Err(c.error); }
    var body := UnmarshalBody(r, h, streamed);
    if body.Err? { return Err(body.error); }
    res := Ok(Message(Some(sl.value), h, c.value, body.value));
  }

  method UnmarshalBody(r: Reader, h: Headers, streamed: bool) returns (res: Outcome<string>)
    modifies r
    ensures var d := DecodedBody(h, old(r.rest), streamed);
      if d.Ok? then res == Ok(d.value.0) && r.rest == d.value.1 else res == Err(d.error)
  {
    hide Atoi, TrimSpace;
    if "Content-Length" in h {
      if h["Content-Length"] == [] { return Err(BadContentLength); }
      var n := Atoi(TrimSpace(h["Content-Length"][0]));
      if n.None? { return Err(BadContentLength); }
      if n.value < 0 { return Err(NegativeContentLength); }
      var body := "";
      if n.value > 0 {
        var got := r.ReadFull(n.value);
        if got.None? { return Err(ShortBody); }
        body := got.value;
      }
      if !streamed { r.Discard(DISCARD_LIMIT); }
      return Ok(body);
    }
    if streamed { return Err(NoContentLength); }
    res := Ok(r.rest);
    r.rest := "";
  }

  // ---- Sizes ----

  lemma {:induction false} KeysSizeSplit(h: Headers, xs: seq<string>, k: string, ys: seq<string>, compact: bool)
    requires forall x :: x in xs + [k] + ys ==> x in h
    ensures (forall x :: x in xs + ys ==> x in h) && k in h
    ensures KeysSize(h, xs + [k] + ys, compact)
         == KeysSize(h, xs + ys, compact) + ValuesSize(KeyWidth(k, compact), h[k])
  {
    hide ValuesSize, KeyWidth;
    var all := xs + [k] + ys;
    assert all[|xs|] == k;
    assert forall x :: x in xs + ys ==> x in all;
    if xs == [] {
      assert all[1..] == ys && xs + ys == ys;
    } else {
      assert all[1..] == xs[1..] + [k] + ys;
      assert (xs + ys)[1..] == xs[1..] + ys;
      KeysSizeSplit(h, xs[1..], k, ys, compact);
    }
  }

  predicate Distinct(s: seq<string>) {
    forall i, j :: 0 <= i < j < |s| ==> s[i] != s[j]
  }

  lemma DropAt(t: seq<string>, j: nat)
    requires Distinct(t) && j < |t|
    ensures Distinct(t[..j] + t[j + 1..]) && t == t[..j] + [t[j]] + t[j + 1..]
    ensures Elements(t[..j] + t[j + 1..]) == Elements(t) - {t[j]}
  {
    var u := t[..j] + t[j + 1..];
    assert forall i :: 0 <= i < |u| ==> u[i] == if i < j then t[i] else t[i + 1];
    forall x | x in t && x != t[j] ensures x in u {
      var i :| 0 <= i < |t| && t[i] == x;
      assert u[if i < j then i else i - 1] == x;
    }
  }

  /** The size does not depend on the order in which the header map is walked. */
  lemma {:induction false} KeysSizeOrder(h: Headers, s: seq<string>, t: seq<string>, compact: bool)
    requires Distinct(s) && Distinct(t) && Elements(s) == Elements(t)
    requires forall x :: x in s ==> x in h
    ensures forall x :: x in t ==> x in h
    ensures KeysSize(h, s, compact) == KeysSize(h, t, compact)
    decreases |s|
  {
    hide ValuesSize, KeyWidth;
    assert forall x :: x in t ==> x in Elements(t) && x in s;
    if s == [] {
      assert forall i :: 0 <= i < |t| ==> t[i] in Elements(t);
    } else {
      assert s[0] in Elements(s) && s[0] in t;
      var j :| 0 <= j < |t| && t[j] == s[0];
      DropAt(t, j);
      DropAt(s, 0);
      assert s[..0] + s[1..] == s[1..];
      KeysSizeSplit(h, t[..j], t[j], t[j + 1..], compact);
      KeysSizeOrder(h, s[1..], t[..j] + t[j + 1..], compact);
    }
  }

  lemma SortedDistinct(s: seq<string>)
    requires Increasing(s)
    ensures Distinct(s)
  {
    forall i, j | 0 <= i < j < |s| ensures s[i] != s[j] {
      assert Less(s[i], s[j]);
    }
  }

  method ValuesMarshalSize(w: nat, vs: seq<string>) returns (sz: nat)
    ensures sz == ValuesSize(w, vs)
  {
    sz := 0;
    for i := 0 to |vs|
      invariant sz + ValuesSize(w, vs[i..]) == ValuesSize(w, vs)
    {
      sz := sz + (w + 2 + |vs[i]| + 2);
      assert vs[i..][1..] == vs[i + 1..];
    }
  }

  method HeadersMarshalSize(h: Headers, compact: bool) returns (sz: nat)
    ensures sz == KeysSize(h, SortedKeys(PrintedKeys(h)), compact)
  {
    hide ValuesSize, CompactKey, Less;
    sz := 0;
    var left := h.Keys;
    ghost var seen: seq<string> := [];
    while left != {}
      invariant left <= h.Keys && Distinct(seen) && Elements(seen) == PrintedKeys(h) - left
      invariant forall x :: x in seen ==> x in h
      invariant sz == KeysSize(h, seen, compact)
      decreases left
    {
      var k :| k in left;
      left := left - {k};
      if k == "CSeq" || k == "Content-Length" { continue; }
      var width := if compact then |CompactKey(k)| else |k|;
      var n := ValuesMarshalSize(width, h[k]);
      sz := sz + n;
      assert k !in Elements(seen);
      assert seen + [k] + [] == seen + [k] && seen + [] == seen;
      KeysSizeSplit(h, seen, k, [], compact);
      seen := seen + [k];
    }
    var keys := SortedKeys(PrintedKeys(h));
    SortedDistinct(keys);
    KeysSizeOrder(h, seen, keys, compact);
  }

  /** marshalSize. */
  method MarshalSize(m: Message, compact: bool) returns (sz: nat)
    requires |m.body| <= MAX_INT64
    ensures sz == Size(m, compact)
    ensures m.start.Some? && m.cseq.number >= 0 ==> sz == |Encoded(m, compact)|
  {
    hide KeysSize, CompactKey, DigitCount, Encoded;
    if m.start.None? { return 0; }
    match m.start.value {
      case Request(verb, uri, version) => sz := |verb| + 1 + |uri| + 1 + |version|;
      case Response(version, _, status) => sz := |version| + 1 + |status|;
    }
    sz := sz + 2;
    var hs := HeadersMarshalSize(m.headers, compact);
    sz := sz + hs;
    var nl := IntLen(m.cseq.number);
    sz := sz + (6 + nl + 1 + |m.cseq.verb| + 2);
    var clKey := if compact then CompactKey("Content-Length") else "Content-Length";
    var cl := IntLen(|m.body|);
    sz := sz + (|clKey| + 2 + cl + 2);
    sz := sz + (2 + |m.body|);
    SizeExact(m, compact);
  }

  // ---- Marshalling ----

  /** The keys in map order, then slices.Sort. */
  method CollectKeys(h: Headers) returns (keys: seq<string>)
    ensures keys == SortedKeys(PrintedKeys(h))
  {
    hide Less, Insert, Increasing;
    var unsorted: seq<string> := [];
    var left := h.Keys;
    while left != {}
      invariant left <= h.Keys && Distinct(unsorted) && Elements(unsorted) == PrintedKeys(h) - left
      decreases left
    {
      var k :| k in left;
      left := left - {k};
      if k == "CSeq" || k == "Content-Length" { continue; }
      assert k !in Elements(unsorted);
      unsorted := unsorted + [k];
    }
    keys := Sort(unsorted);
    OrderUnique(keys, SortedKeys(PrintedKeys(h)));
  }

  method Sort(s: seq<string>) returns (r: seq<string>)
    requires Distinct(s)
    ensures Increasing(r) && Elements(r) == Elements(s)
  {
    hide Less, Insert;
    r := [];
    for i := 0 to |s|
      invariant Increasing(r) && Elements(r) == Elements(s[..i])
    {
      assert s[..i + 1] == s[..i] + [s[i]];
      assert s[i] !in s[..i] && s[i] !in Elements(r);
      InsertKeeps(s[i], r);
      r := Insert(s[i], r);
    }
    assert s[..|s|] == s;
  }

  lemma StyledFor(k: string, vs: seq<string>, compact: bool)
    ensures Styled(FieldsFor(k, vs), compact) == FieldsFor(if compact then CompactKey(k) else k, vs)
  {
    hide CompactKey;
  }

  lemma {:induction false} FieldsOfAppend(h: Headers, xs: seq<string>, k: string)
    requires forall x :: x in xs + [k] ==> x in h
    ensures (forall x :: x in xs ==> x in h) && k in h
    ensures FieldsOf(h, xs + [k]) == FieldsOf(h, xs) + FieldsFor(k, h[k])
  {
    assert (xs + [k])[|xs|] == k;
    assert forall x :: x in xs ==> x in xs + [k];
    if xs == [] {
      assert xs + [k] == [k] && [k][1..] == [];
      assert FieldsOf(h, [k]) == FieldsFor(k, h[k]) + [];
    } else {
      assert (xs + [k])[1..] == xs[1..] + [k];
      FieldsOfAppend(h, xs[1..], k);
    }
  }

  /** The lines of one header name. */
  method WriteValues(buf: array<char>, ghost before: seq<char>, ghost done: seq<char>, pos: nat,
                     key: string, vs: seq<string>) returns (r: Option<nat>)
    requires |before| == buf.Length && |done| <= buf.Length
    requires pos == |done| && buf[..] == Splice(before, 0, done)
    modifies buf
    ensures var out := done + ConcatMap(FieldText, FieldsFor(key, vs));
      && (r.Some? <==> |out| <= buf.Length)
      && (r.Some? ==> r.value == |out| && buf[..] == Splice(before, 0, out))
  {
    hide Splice, ConcatMap, FieldText;
    var fs := FieldsFor(key, vs);
    var n := pos;
    assert done + ConcatMap(FieldText, fs[..0]) == done by { ConcatMapNone(FieldText); }
    for i := 0 to |vs|
      invariant n == |done + ConcatMap(FieldText, fs[..i])| <= buf.Length
      invariant buf[..] == Splice(before, 0, done + ConcatMap(FieldText, fs[..i]))
    {
      ConcatMapTake(FieldText, fs, i);
      ConcatMapPrefix(FieldText, fs, i + 1);
      ghost var sofar := ConcatMap(FieldText, fs[..i]);
      assert done + (sofar + FieldText(fs[i])) == done + sofar + FieldText(fs[i]);
      var next := Put(buf, before, done + sofar, n, FieldText(Field(key, vs[i])));
      if next.None? { return None; }
      n := next.value;
    }
    assert fs[..|vs|] == fs;
    r := Some(n);
  }

  method WriteHeaders(buf: array<char>, ghost before: seq<char>, ghost done: seq<char>, pos: nat,
                      h: Headers, keys: seq<string>, compact: bool) returns (r: Option<nat>)
    requires forall k :: k in keys ==> k in h
    requires |before| == buf.Length && |done| <= buf.Length
    requires pos == |done| && buf[..] == Splice(before, 0, done)
    modifies buf
    ensures var out := done + ConcatMap(FieldText, Styled(FieldsOf(h, keys), compact));
      && (r.Some? <==> |out| <= buf.Length)
      && (r.Some? ==> r.value == |out| && buf[..] == Splice(before, 0, out))
  {
    hide Splice, ConcatMap, FieldText, Styled, FieldsOf, FieldsFor, CompactKey;
    var n := pos;
    assert done + HeaderText(h, keys[..0], compact) == done by { HeaderTextNone(h, compact); assert keys[..0] == []; }
    for i := 0 to |keys|
      invariant n == |done + HeaderText(h, keys[..i], compact)| <= buf.Length
      invariant buf[..] == Splice(before, 0, done + HeaderText(h, keys[..i], compact))
    {
      var k := keys[i];
      var key := if compact then CompactKey(k) else k;
      ghost var sofar := HeaderText(h, keys[..i], compact);
      HeaderTextTake(h, keys, i, compact);
      assert done + (sofar + ConcatMap(FieldText, FieldsFor(key, h[k])))
          == done + sofar + ConcatMap(FieldText, FieldsFor(key, h[k]));
      var next := WriteValues(buf, before, done + sofar, n, key, h[k]);
      if next.None? { return None; }
      n := next.value;
    }
    assert keys[..|keys|] == keys;
    r := Some(n);
  }

  function HeaderText(h: Headers, keys: seq<string>, compact: bool): (s: string)
    requires forall k :: k in keys ==> k in h
  {
    ConcatMap(FieldText, Styled(FieldsOf(h, keys), compact))
  }

  lemma HeaderTextNone(h: Headers, compact: bool)
    ensures HeaderText(h, [], compact) == ""
  {
  }

  lemma HeaderTextTake(h: Headers, keys: seq<string>, i: nat, compact: bool)
    requires i < |keys| && forall k :: k in keys ==> k in h
    ensures HeaderText(h, keys[..i + 1], compact) == HeaderText(h, keys[..i], compact)
      + ConcatMap(FieldText, FieldsFor(if compact then CompactKey(keys[i]) else keys[i], h[keys[i]]))
    ensures |HeaderText(h, keys[..i + 1], compact)| <= |HeaderText(h, keys, compact)|
  {
    hide ConcatMap, FieldText, Styled, FieldsOf, FieldsFor, CompactKey;
    var k := keys[i];
    assert keys[..i + 1] == keys[..i] + [k];
    FieldsOfAppend(h, keys[..i], k);
    var a, b := FieldsOf(h, keys[..i]), FieldsFor(k, h[k]);
    StyledAppend(a, b, compact);
    ConcatMapAppend(FieldText, Styled(a, compact), Styled(b, compact));
    StyledFor(k, h[k], compact);
    HeaderTextGrows(h, keys, i + 1, compact);
  }

  lemma {:induction false} HeaderTextGrows(h: Headers, keys: seq<string>, i: nat, compact: bool)
    requires i <= |keys| && forall k :: k in keys ==> k in h
    ensures |HeaderText(h, keys[..i], compact)| <= |HeaderText(h, keys, compact)|
    decreases |keys| - i
  {
    hide ConcatMap, FieldText, Styled, FieldsOf, FieldsFor, CompactKey;
    if i == |keys| {
      assert keys[..i] == keys;
    } else {
      var k := keys[i];
      assert keys[..i + 1] == keys[..i] + [k];
      FieldsOfAppend(h, keys[..i], k);
      var a, b := FieldsOf(h, keys[..i]), FieldsFor(k, h[k]);
      StyledAppend(a, b, compact);
      ConcatMapAppend(FieldText, Styled(a, compact), Styled(b, compact));
      HeaderTextGrows(h, keys, i + 1, compact);
    }
  }

  lemma ConcatMapNone<T, U>(f: T -> seq<U>)
    ensures ConcatMap(f, []) == []
  {
  }

  function Least(a: nat, b: nat): nat { if a <= b then a else b }

  /** The head in the pieces in which it is written. */
  lemma HeadInParts(m: Message, compact: bool)
    requires m.start.Some?
    ensures HeadText(m, compact) == StartText(m.start.value) + CRLF
      + HeaderText(m.headers, SortedKeys(PrintedKeys(m.headers)), compact) + (Closing(m, compact) + CRLF)
  {
    hide ConcatMap, Styled, FieldsOf, StartText, Closing;
    FieldsInParts(m, compact);
    var keys := SortedKeys(PrintedKeys(m.headers));
    var a, b, c := StartText(m.start.value) + CRLF, HeaderText(m.headers, keys, compact), Closing(m, compact);
    assert a + (b + c) + CRLF == a + b + (c + CRLF);
  }

  method ClosingLines(m: Message, compact: bool) returns (s: string)
    ensures s == Closing(m, compact)
  {
    var clKey := if compact then CompactKey("Content-Length") else "Content-Length";
    s := "CSeq: " + (Dec(m.cseq.number) + " " + m.cseq.verb) + CRLF + clKey + ": " + Dec(|m.body|) + CRLF;
  }

  /**
    * marshalToImpl. The head is written with stores that panic past the end of the buffer;
    * the body is copied as far as it fits.
    */
  method MarshalToImpl(buf: array<char>, m: Message, compact: bool) returns (r: Outcome<nat>)
    modifies buf
    ensures m.start.None? ==> r == Ok(0) && buf[..] == old(buf[..])
    ensures m.start.Some? && buf.Length < |HeadText(m, compact)| ==> r == Panic
    ensures m.start.Some? && buf.Length >= |HeadText(m, compact)| ==>
      var n := Least(buf.Length, |Encoded(m, compact)|);
      r == Ok(n) && buf[..] == Splice(old(buf[..]), 0, Encoded(m, compact)[..n])
  {
    hide Splice, ConcatMap, Styled, FieldsOf, StartText, Closing, HeadText, HeaderText;
    if m.start.None? { return Ok(0); }
    ghost var before := buf[..];
    SpliceNothing(before, 0);
    ghost var a := StartText(m.start.value) + CRLF;
    HeadInParts(m, compact);
    assert [] + a == a;
    var p := Put(buf, before, [], 0, StartText(m.start.value) + CRLF);
    if p.None? { return Panic; }
    var keys := CollectKeys(m.headers);
    ghost var b := a + HeaderText(m.headers, keys, compact);
    assert forall k :: k in keys ==> k in Elements(keys);
    HeaderTextIs(m.headers, keys, compact);
    p := WriteHeaders(buf, before, a, p.value, m.headers, keys, compact);
    if p.None? { return Panic; }
    var closing := ClosingLines(m, compact);
    p := Put(buf, before, b, p.value, closing + CRLF);
    if p.None? { return Panic; }
    ghost var head := HeadText(m, compact);
    var room := Least(buf.Length - p.value, |m.body|);
    assert (head + m.body)[..|head| + room] == head + m.body[..room];
    var n := Append(buf, before, 0, head, p.value, m.body[..room]);
    r := Ok(n);
  }

  lemma HeaderTextIs(h: Headers, keys: seq<string>, compact: bool)
    requires forall k :: k in keys ==> k in h
    ensures HeaderText(h, keys, compact) == ConcatMap(FieldText, Styled(FieldsOf(h, keys), compact))
  {
  }

  predicate Complete(m: Message) {
    m.start.Some? && "Via" in m.headers && "From" in m.headers && "To" in m.headers && "Call-ID" in m.headers
  }

  /** validateRequiredHeaders. */
  method ValidateRequiredHeaders(m: Message) returns (ok: bool)
    ensures ok <==> Complete(m)
  {
    if m.start.None? { return false; }
    var required := ["Via", "From", "To", "Call-ID"];
    for i := 0 to |required|
      invariant forall j :: 0 <= j < i ==> required[j] in m.headers
    {
      if required[i] !in m.headers { return false; }
    }
    assert required[0] in m.headers && required[1] in m.headers && required[2] in m.headers && required[3] in m.headers;
    ok := true;
  }

  /** What a buffer of exactly the announced size ends up holding. */
  ghost function Printed(m: Message, compact: bool): (r: Outcome<string>)
    ensures m.start.Some? && m.cseq.number >= 0 ==> r == Ok(Encoded(m, compact))
  {
    if m.start.None? then Ok("")
    else
      SizeExact(m, compact);
      if Size(m, compact) < |HeadText(m, compact)| then Panic
      else
        assert m.cseq.number >= 0 ==> Encoded(m, compact)[..Size(m, compact)] == Encoded(m, compact);
        Ok(Encoded(m, compact)[..Size(m, compact)])
  }

  method Fill(m: Message, compact: bool) returns (r: Outcome<string>)
    requires |m.body| <= MAX_INT64
    ensures r == Printed(m, compact)
  {
    hide Size, Encoded, HeadText;
    var sz := MarshalSize(m, compact);
    var buf := new char[sz];
    var n := MarshalToImpl(buf, m, compact);
    SizeBounds(m, compact);
    if n.Panic? { return Panic; }
    if m.start.Some? { SpliceAll(buf[..], Encoded(m, compact)[..sz]); }
    r := Ok(buf[..]);
  }

  lemma SizeBounds(m: Message, compact: bool)
    ensures m.start.None? ==> Size(m, compact) == 0
    ensures m.start.Some? ==> Size(m, compact) <= |Encoded(m, compact)|
  {
    if m.start.Some? { SizeExact(m, compact); }
  }

  /** Marshal. */
  method Marshal(m: Message) returns (r: Outcome<string>)
    requires |m.body| <= MAX_INT64
    ensures !Complete(m) ==> r == Err(MissingHeader)
    ensures Complete(m) ==> r == Printed(m, false)
    ensures Complete(m) && m.cseq.number >= 0 ==> r == Ok(Encoded(m, false))
  {
    var ok := ValidateRequiredHeaders(m);
    if !ok { return Err(MissingHeader); }
    r := Fill(m, false);
  }

  /** MarshalCompact, which does not ask for the required headers. */
  method MarshalCompact(m: Message) returns (r: Outcome<string>)
    requires |m.body| <= MAX_INT64
    ensures r == Printed(m, true)
    ensures m.start.Some? && m.cseq.number >= 0 ==> r == Ok(Encoded(m, true))
  {
    r := Fill(m, true);
  }

  /**
    * MarshalTo: with no sign in the sequence number, a buffer of the announced size is never left; with one,
    * the head may run past its end, and the body may be cut short.
    */
  method MarshalTo(buf: array<char>, m: Message) returns (r: Outcome<nat>)
    requires |m.body| <= MAX_INT64
    modifies buf
    ensures !Complete(m) ==> r == Err(MissingHeader) && buf[..] == old(buf[..])
    ensures Complete(m) && buf.Length < Size(m, false) ==> r == Err(BufferTooSmall) && buf[..] == old(buf[..])
    ensures Complete(m) && m.cseq.number >= 0 && buf.Length >= Size(m, false) ==>
      && |Encoded(m, false)| == Size(m, false) && r == Ok(Size(m, false))
      && buf[..] == Splice(old(buf[..]), 0, Encoded(m, false))
    ensures Complete(m) && Size(m, false) <= buf.Length < |HeadText(m, false)| ==> r == Panic
    ensures Complete(m) && Size(m, false) <= buf.Length && |HeadText(m, false)| <= buf.Length ==>
      var n := Least(buf.Length, |Encoded(m, false)|);
      r == Ok(n) && buf[..] == Splice(old(buf[..]), 0, Encoded(m, false)[..n])
  {
    hide Size, Encoded, HeadText, Splice;
    var ok := ValidateRequiredHeaders(m);
    if !ok { return Err(MissingHeader); }
    var sz := MarshalSize(m, false);
    if buf.Length < sz { return Err(BufferTooSmall); }
    HeadWithin(m, false);
    r := MarshalToImpl(buf, m, false);
  }

  method MarshalCompactTo(buf: array<char>, m: Message) returns (r: Outcome<nat>)
    requires |m.body| <= MAX_INT64
    modifies buf
    ensures buf.Length < Size(m, true) ==> r == Err(BufferTooSmall) && buf[..] == old(buf[..])
    ensures m.start.None? ==> r == Ok(0) && buf[..] == old(buf[..])
    ensures m.start.Some? && m.cseq.number >= 0 && buf.Length >= Size(m, true) ==>
      && |Encoded(m, true)| == Size(m, true) && r == Ok(Size(m, true))
      && buf[..] == Splice(old(buf[..]), 0, Encoded(m, true))
    ensures m.start.Some? && Size(m, true) <= buf.Length < |HeadText(m, true)| ==> r == Panic
    ensures m.start.Some? && Size(m, true) <= buf.Length && |HeadText(m, true)| <= buf.Length ==>
      var n := Least(buf.Length, |Encoded(m, true)|);
      r == Ok(n) && buf[..] == Splice(old(buf[..]), 0, Encoded(m, true)[..n])
  {
    hide Size, Encoded, HeadText, Splice;
    HeadWithin(m, true);
    assert m.start.None? ==> Size(m, true) == 0 by { SizeBounds(m, true); }
    var sz := MarshalSize(m, true);
    if buf.Length < sz { return Err(BufferTooSmall); }
    r := MarshalToImpl(buf, m, true);
  }

  lemma HeadWithin(m: Message, compact: bool)
    ensures m.start.Some? ==> |HeadText(m, compact)| <= |Encoded(m, compact)|
    ensures Encoded(m, compact)[..|Encoded(m, compact)|] == Encoded(m, compact)
  {
    hide HeadText;
  }

  /** What Marshal returns parses back exactly when the sequence number carries no sign. */
  lemma MarshalledParsesBack(m: Message, compact: bool)
    requires WellFormed(m)
    ensures Printed(m, compact).Ok? && Decoded(Printed(m, compact).value, true) == Ok((Reparsed(m), ""))
      <==> m.cseq.number >= 0
  {
    hide WellFormed, Decoded, Reparsed, HeadText, Size;
    assert m.start.Some? by { StartKnown(m); }
    var e := Encoded(m, compact);
    assert e + "" == e;
    RoundTrip(m, compact, "");
    SizeExact(m, compact);
    if m.cseq.number < 0 && Printed(m, compact).Ok? {
      var n := Size(m, compact) - |HeadText(m, compact)|;
      assert e[..Size(m, compact)] == HeadText(m, compact) + m.body[..n];
      TruncatedBody(m, compact, m.body[..n]);
    }
  }

  lemma StartKnown(m: Message)
    requires WellFormed(m)
    ensures m.start.Some?
  {
  }
}
