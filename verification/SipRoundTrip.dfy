/** What a SIP message means to the parser after it was printed: framing, folding, compact names, sizes. */
module SipRoundTrip {
  import opened Octets
  import opened Text
  import opened Decimal
  import opened Sequences
  import opened Ordering
  import opened Sip

  // ---- Header names ----

  lemma CompactExpands(k: string)
    ensures CompactKey(k) != k ==> Expand(CompactKey(k)) == k
  {
  }

  lemma ExpandedCompacts(k: string)
    ensures Expand(k) != k ==> CompactKey(Expand(k)) == k
  {
    if |k| == 1 { assert k == [k[0]]; }
  }

  /** The two tables are inverse to each other. */
  lemma CompactInverse(k: string)
    ensures CompactKey(k) != k ==> Expand(CompactKey(k)) == k
    ensures Expand(k) != k ==> CompactKey(Expand(k)) == k
  {
    hide CompactKey, Expand;
    CompactExpands(k);
    ExpandedCompacts(k);
  }

  /** Canonicalisation never yields a compact name: a lone letter comes out as a capital. */
  lemma CanonicalNotCompact(k: string)
    ensures Expand(CanonicalKey(k)) == CanonicalKey(k)
  {
    var c := CanonicalKey(k);
    if |c| == 1 {
      assert |k| == 1 && c == MimeKey(k);
      if IsToken(k[0]) { assert c[0] == Recased(k, 0); }
    }
  }

  lemma CaseFacts(c: char)
    ensures Upper(Upper(c)) == Upper(c) && Lower(Lower(c)) == Lower(c)
    ensures (Upper(c) == '-' <==> c == '-') && (Lower(c) == '-' <==> c == '-')
    ensures IsToken(c) ==> IsToken(Upper(c)) && IsToken(Lower(c))
  {
  }

  lemma MimeKeyIdempotent(k: string)
    ensures MimeKey(MimeKey(k)) == MimeKey(k)
  {
    hide IsToken, Upper, Lower;
    var m := MimeKey(k);
    if forall i :: 0 <= i < |k| ==> IsToken(k[i]) {
      forall i | 0 <= i < |m| ensures IsToken(m[i]) && Recased(m, i) == m[i] {
        assert m[i] == Recased(k, i);
        CaseFacts(k[i]);
        if i > 0 {
          assert m[i - 1] == Recased(k, i - 1);
          CaseFacts(k[i - 1]);
        }
      }
    }
  }

  lemma MimeKeyIs(k: string, r: string)
    requires |k| == |r| && forall i :: 0 <= i < |k| ==> IsToken(k[i]) && Recased(k, i) == r[i]
    ensures MimeKey(k) == r
  {
    hide IsToken;
    assert forall i :: 0 <= i < |k| ==> IsToken(k[i]);
  }

  lemma OverriddenNames()
    ensures MimeKey("Call-ID") == "Call-Id" && MimeKey("CSeq") == "Cseq"
    ensures MimeKey("RAck") == "Rack" && MimeKey("RSeq") == "Rseq"
    ensures MimeKey("WWW-Authenticate") == "Www-Authenticate"
  {
    hide MimeKey;
    MimeKeyIs("Call-ID", "Call-Id");
    MimeKeyIs("CSeq", "Cseq");
    MimeKeyIs("RAck", "Rack");
    MimeKeyIs("RSeq", "Rseq");
    MimeKeyIs("WWW-Authenticate", "Www-Authenticate");
  }

  /** Keys made canonical once stay as they are, so every parsed header map can be looked up and printed. */
  lemma CanonicalKeyIdempotent(k: string)
    ensures CanonicalKey(CanonicalKey(k)) == CanonicalKey(k)
  {
    hide MimeKey;
    MimeKeyIdempotent(k);
    OverriddenNames();
  }

  predicate Canonical(k: string) {
    CanonicalKey(k) == k
  }

  /** Whichever form of a canonical name is printed, the parser files the value under that name. */
  lemma EitherFormResolves(k: string)
    requires Canonical(k)
    ensures CanonicalKey(Expand(k)) == k
    ensures CanonicalKey(Expand(CompactKey(k))) == k
  {
    hide CompactKey, Expand, CanonicalKey;
    CanonicalNotCompact(k);
    CompactExpands(k);
  }

  lemma RegeneratedNamesCanonical()
    ensures Canonical("CSeq") && Canonical("Content-Length")
  {
    hide MimeKey;
    MimeKeyIs("CSeq", "Cseq");
    MimeKeyIs("Content-Length", "Content-Length");
  }

  // ---- Start lines ----

  predicate StartOk(sl: StartLine) {
    match sl
    case Request(verb, uri, version) => IsMethod(verb) && uri != "" && ' ' !in uri && SIP_INDICATOR <= version
    case Response(version, statusCode, status) =>
      && SIP_INDICATOR <= version && ' ' !in version
      && |status| >= 5 && ' ' !in status[..3] && status[3] == ' '
      && Atoi(status[..3]) == Some(statusCode)
  }

  lemma PrefixStarts(p: string, s: string)
    requires |p| >= 2
    ensures p <= s ==> |s| >= 2 && s[0] == p[0] && s[1] == p[1]
  {
  }

  lemma MethodPlain(s: string)
    requires IsMethod(s)
    ensures ' ' !in s && '\n' !in s && !(SIP_INDICATOR <= s)
  {
    PrefixStarts(SIP_INDICATOR, s);
  }

  lemma RequestLineRoundTrip(verb: string, uri: string, version: string)
    ensures var sl := Request(verb, uri, version); DecodedStartLine(StartText(sl)) == Ok(sl) <==> StartOk(sl)
  {
    hide Atoi, IsMethod, Cut;
    var sl := Request(verb, uri, version);
    var s := StartText(sl);
    var rest := uri + " " + version;
    assert s == verb + [' '] + rest;
    if StartOk(sl) {
      MethodPlain(verb);
      CutAt(verb, ' ', rest);
      assert rest == uri + [' '] + version;
      CutAt(uri, ' ', version);
    }
  }

  lemma StatusLineRoundTrip(version: string, code: int, status: string)
    ensures var sl := Response(version, code, status); DecodedStartLine(StartText(sl)) == Ok(sl) <==> StartOk(sl)
  {
    hide Atoi, IsMethod, Cut;
    var sl := Response(version, code, status);
    var s := StartText(sl);
    if StartOk(sl) {
      assert s == version + [' '] + status;
      CutAt(version, ' ', status);
      assert status == status[..3] + [' '] + status[4..];
      CutAt(status[..3], ' ', status[4..]);
      assert status == status[..3] + " " + status[4..];
    }
    var b := Cut(Cut(s, ' ').after, ' ');
    assert DecodedStartLine(s) == Ok(sl) ==> status == b.before + " " + b.after && status[..3] == b.before;
  }

  /** A printed start line parses to itself exactly when its fields fit the grammar. */
  lemma StartLineRoundTrip(sl: StartLine)
    ensures DecodedStartLine(StartText(sl)) == Ok(sl) <==> StartOk(sl)
  {
    hide DecodedStartLine, StartText, StartOk;
    match sl
    case Request(verb, uri, version) => RequestLineRoundTrip(verb, uri, version);
    case Response(version, code, status) => StatusLineRoundTrip(version, code, status);
  }

  // ---- Header sections ----

  /** A header line the parser reads back as it is. */
  predicate FieldOk(f: Field) {
    ':' !in f.key && Foldable(f.key) && Foldable(f.value) && (f.value == "" || f.value[0] != ' ')
  }

  /** No name but the first starts with a blank, which would continue the line before it. */
  predicate BlankOnlyFirst(fs: seq<Field>) {
    forall i :: 1 <= i < |fs| ==> !Continues(fs[i].key)
  }

  function FieldLine(f: Field): (s: string) {
    f.key + ": " + f.value
  }

  lemma FieldLineFolds(f: Field)
    requires Foldable(f.key) && FeedsFold(f.value)
    ensures FeedsFold(FieldLine(f)) && (EndsInFeed(FieldLine(f)) <==> EndsInFeed(f.value))
  {
    hide Continues;
    var k, v, s := f.key, f.value, FieldLine(f);
    var n := |k| + 2;
    forall i | 0 <= i < |s| && s[i] == '\n'
      ensures (i + 1 < |s| ==> Continues(s[i + 1..])) && (i > 0 ==> s[i - 1] != '\r')
    {
      if i < |k| {
        assert k[i] == '\n' && s[i + 1..] == k[i + 1..] + (": " + v);
        StillContinues(k[i + 1..], ": " + v);
      } else {
        assert s[i..] == v[i - n..] && v[i - n] == '\n';
        assert i + 1 < |s| ==> s[i + 1..] == v[i - n + 1..];
      }
    }
  }

  function Fold(h: Headers, fs: seq<Field>): (r: Headers)
    decreases |fs|
  {
    if fs == [] then h else Fold(AddedField(h, fs[0]), fs[1..])
  }

  lemma {:induction false} FoldAppend(h: Headers, xs: seq<Field>, ys: seq<Field>)
    ensures Fold(h, xs + ys) == Fold(Fold(h, xs), ys)
    decreases |xs|
  {
    hide AddedField;
    if xs == [] {
      assert xs + ys == ys;
    } else {
      assert (xs + ys)[1..] == xs[1..] + ys;
      FoldAppend(AddedField(h, xs[0]), xs[1..], ys);
    }
  }

  lemma HeaderStep(s: string, h: Headers, line: string, rest: string, k: string, v: string)
    requires s != "" && ContinuedLine(s) == (line, rest) && line != ""
    requires Cut(line, ':') == Halves(k, v, true)
    ensures DecodedHeaders(s, h) == DecodedHeaders(rest, AddedField(h, Field(k, TrimLeft(v, " "))))
  {
  }

  lemma LeadingBlankDropped(v: string)
    requires v == "" || v[0] != ' '
    ensures TrimLeft(" " + v, " ") == v
  {
    assert (" " + v)[1..] == v;
  }

  lemma OneHeader(f: Field, tail: string, h: Headers)
    requires FieldOk(f) && !Continues(tail)
    ensures DecodedHeaders(FieldText(f) + tail, h) == DecodedHeaders(tail, AddedField(h, f))
  {
    hide AddedField, DecodedHeaders, ContinuedLine, Cut, TrimLeft, Continues, FeedsFold;
    var line := FieldLine(f);
    FieldLineFolds(f);
    assert line == f.key + [':'] + (" " + f.value);
    var s := line + CRLF + tail;
    assert s == FieldText(f) + tail;
    ContinuedLineReadsBack(line, tail);
    CutAt(f.key, ':', " " + f.value);
    LeadingBlankDropped(f.value);
    HeaderStep(s, h, line, tail, f.key, " " + f.value);
  }

  /** Printed fields followed by an empty line fold into the map; what follows is not looked at. */
  lemma {:induction false} HeadersReadBack(fs: seq<Field>, tail: string, h: Headers)
    requires (forall f :: f in fs ==> FieldOk(f)) && BlankOnlyFirst(fs)
    ensures DecodedHeaders(ConcatMap(FieldText, fs) + CRLF + tail, h) == Ok((Fold(h, fs), tail))
    decreases |fs|
  {
    hide AddedField, FieldOk, ContinuedLine, Continues;
    if fs == [] {
      var s := ConcatMap(FieldText, fs) + CRLF + tail;
      assert s == "" + CRLF + tail;
      ContinuedLineReadsBack("", tail);
    } else {
      var rest := ConcatMap(FieldText, fs[1..]) + CRLF + tail;
      assert ConcatMap(FieldText, fs) + CRLF + tail == FieldText(fs[0]) + rest;
      assert forall i :: 1 <= i < |fs[1..]| ==> fs[1..][i] == fs[i + 1];
      NextLineStarts(fs[1..], tail);
      OneHeader(fs[0], rest, h);
      HeadersReadBack(fs[1..], tail, AddedField(h, fs[0]));
    }
  }

  lemma NextLineStarts(fs: seq<Field>, tail: string)
    ensures Continues(ConcatMap(FieldText, fs) + CRLF + tail) <==> fs != [] && Continues(fs[0].key)
  {
    if fs != [] {
      var k := fs[0].key;
      var s := ConcatMap(FieldText, fs) + CRLF + tail;
      assert s[0] == (if k == "" then ':' else k[0]);
    }
  }

  // ---- The header map ----

  lemma {:induction false} FoldOneKey(h: Headers, k: string, vs: seq<string>)
    requires Canonical(k) && vs != []
    ensures Fold(h, FieldsFor(k, vs)) == h[k := (if k in h then h[k] else []) + vs]
    decreases |vs|
  {
    hide CanonicalKey, Expand, CompactKey;
    assert CanonicalKey(Expand(k)) == k by { EitherFormResolves(k); }
    var fs := FieldsFor(k, vs);
    var had := if k in h then h[k] else [];
    assert AddedField(h, fs[0]) == h[k := had + [vs[0]]];
    if |vs| > 1 {
      assert fs[1..] == FieldsFor(k, vs[1..]);
      FoldOneKey(h[k := had + [vs[0]]], k, vs[1..]);
      assert had + [vs[0]] + vs[1..] == had + vs;
    } else {
      assert fs[1..] == [];
      assert vs == [vs[0]];
    }
  }

  predicate KeysOk(h: Headers, keys: seq<string>) {
    forall k :: k in keys ==> k in h && Canonical(k) && h[k] != []
  }

  lemma RestrictionGrows(acc: Headers, h: Headers, keys: seq<string>)
    requires keys != [] && forall k :: k in keys ==> k in h
    requires keys[0] !in keys[1..]
    ensures acc[keys[0] := h[keys[0]]] + (map k | k in keys[1..] :: h[k]) == acc + (map k | k in keys :: h[k])
  {
    assert keys == [keys[0]] + keys[1..];
  }

  /** Distinct keys rebuild exactly their part of the map. */
  lemma {:induction false} FoldKeys(acc: Headers, h: Headers, keys: seq<string>)
    requires KeysOk(h, keys) && Increasing(keys)
    requires forall k :: k in keys ==> k !in acc
    ensures Fold(acc, FieldsOf(h, keys)) == acc + (map k | k in keys :: h[k])
    decreases |keys|
  {
    hide Canonical, Less, FieldsFor, Increasing, AddedField;
    if keys == [] {
    } else {
      var k := keys[0];
      IncreasingTail(keys);
      assert forall x :: x in keys[1..] <==> x in Elements(keys[1..]);
      FoldAppend(acc, FieldsFor(k, h[k]), FieldsOf(h, keys[1..]));
      FoldOneKey(acc, k, h[k]);
      assert [] + h[k] == h[k];
      FoldKeys(acc[k := h[k]], h, keys[1..]);
      RestrictionGrows(acc, h, keys);
    }
  }

  // ---- Messages ----

  predicate ValueOk(v: string) {
    Foldable(v) && (v == "" || v[0] != ' ')
  }

  predicate KeyOk(k: string) {
    Canonical(k) && ':' !in k && Foldable(k)
  }

  predicate HeaderOk(k: string, vs: seq<string>) {
    KeyOk(k) && vs != [] && forall v :: v in vs ==> ValueOk(v)
  }

  /** Fields that fit the grammar; what the map holds for CSeq and Content-Length does not matter. */
  ghost predicate WellFormed(m: Message) {
    && m.start.Some? && StartOk(m.start.value) && '\n' !in StartText(m.start.value)
    && (forall k :: k in PrintedKeys(m.headers) ==> HeaderOk(k, m.headers[k])) && BlankOnlyFirst(HeaderFields(m))
    && IsMethod(m.cseq.verb)
    && |m.body| <= MAX_INT64
  }

  /** m with the two regenerated headers in place. */
  function Reparsed(m: Message): (r: Message) {
    m.(headers := (map k | k in PrintedKeys(m.headers) :: m.headers[k])
                  ["CSeq" := [CSeqText(m.cseq)]]["Content-Length" := [Dec(|m.body|)]])
  }

  lemma CompactKeyOk(k: string)
    requires KeyOk(k)
    ensures ':' !in CompactKey(k) && Foldable(CompactKey(k))
  {
    hide CompactKey, CanonicalKey, Foldable;
    if CompactKey(k) != k { PlainFoldable(CompactKey(k)); }
  }

  lemma CompactKeyStarts(k: string)
    ensures Continues(CompactKey(k)) <==> Continues(k)
  {
  }

  lemma StyledBlank(m: Message, compact: bool)
    ensures BlankOnlyFirst(Styled(Fields(m), compact)) <==> BlankOnlyFirst(HeaderFields(m))
  {
    hide HeaderFields, Continues, CompactKey, CSeqText, Dec;
    var fs, gs, hs := Fields(m), Styled(Fields(m), compact), HeaderFields(m);
    assert fs == hs + [Field("CSeq", CSeqText(m.cseq)), Field("Content-Length", Dec(|m.body|))];
    assert !Continues("CSeq") && !Continues("Content-Length") by { PlainNamesStart(); }
    forall i | 0 <= i < |fs| ensures Continues(gs[i].key) <==> Continues(fs[i].key) {
      CompactKeyStarts(fs[i].key);
    }
    forall i | 0 <= i < |fs| ensures Continues(fs[i].key) <==> i < |hs| && Continues(hs[i].key) {
      if i >= |hs| { assert fs[i].key == "CSeq" || fs[i].key == "Content-Length"; }
    }
  }

  lemma PlainNamesStart()
    ensures !Continues("CSeq") && !Continues("Content-Length")
  {
  }

  lemma {:induction false} FieldsOfOk(h: Headers, keys: seq<string>, f: Field)
    requires forall k :: k in keys ==> k in h && HeaderOk(k, h[k])
    requires f in FieldsOf(h, keys)
    ensures KeyOk(f.key) && ValueOk(f.value)
  {
    hide KeyOk, ValueOk;
    if f in FieldsFor(keys[0], h[keys[0]]) {
      assert HeaderOk(keys[0], h[keys[0]]);
    } else {
      FieldsOfOk(h, keys[1..], f);
    }
  }

  lemma CSeqTextOk(c: CSeq)
    requires IsMethod(c.verb)
    ensures ValueOk(CSeqText(c))
    ensures DecodedCSeq([CSeqText(c)]) == Ok(c)
  {
    hide IsMethod, Atoi;
    MethodPlain(c.verb);
    var d := Dec(c.number);
    assert forall i :: 0 <= i < |d| ==> IsDigit(d[i]) || d[i] == '-';
    assert ' ' !in d && '\n' !in d;
    assert CSeqText(c) == d + [' '] + c.verb;
    PlainFoldable(CSeqText(c));
    CutAt(d, ' ', c.verb);
    DecReadsBack(c.number);
  }

  lemma LengthOk(n: int64)
    ensures ValueOk(Dec(n)) && Atoi(TrimSpace(Dec(n))) == Some(n)
  {
    var d := Dec(n);
    assert forall i :: 0 <= i < |d| ==> IsDigit(d[i]) || d[i] == '-';
    PlainFoldable(d);
    DecReadsBack(n);
  }

  /** Every printed field, under either style of names, is one the parser reads back. */
  lemma FieldsOk(m: Message, f: Field)
    requires WellFormed(m) && f in Fields(m)
    ensures KeyOk(f.key) && ValueOk(f.value)
  {
    hide KeyOk, ValueOk, HeaderOk, IsMethod;
    var keys := SortedKeys(PrintedKeys(m.headers));
    if f in HeaderFields(m) {
      assert forall k :: k in keys ==> k in Elements(keys);
      FieldsOfOk(m.headers, keys, f);
    } else {
      PlainNamesOk();
      CSeqTextOk(m.cseq);
      LengthOk(|m.body|);
    }
  }

  lemma PlainNamesOk()
    ensures KeyOk("CSeq") && KeyOk("Content-Length")
  {
    RegeneratedNamesCanonical();
    PlainFoldable("CSeq");
    PlainFoldable("Content-Length");
  }

  lemma StyledOk(m: Message, compact: bool, f: Field)
    requires WellFormed(m) && f in Styled(Fields(m), compact)
    ensures FieldOk(f)
  {
    hide WellFormed, CompactKey, Fields, CanonicalKey, Foldable;
    var fs := Fields(m);
    var i :| 0 <= i < |fs| && Styled(fs, compact)[i] == f;
    FieldsOk(m, fs[i]);
    CompactKeyOk(fs[i].key);
  }

  /** Compact names fold to the same map as long ones. */
  lemma {:induction false} FoldStyled(h: Headers, fs: seq<Field>, compact: bool)
    requires forall f :: f in fs ==> Canonical(f.key)
    ensures Fold(h, Styled(fs, compact)) == Fold(h, fs)
    decreases |fs|
  {
    hide Canonical, CanonicalKey, Expand, CompactKey;
    if fs == [] {
    } else {
      var gs := Styled(fs, compact);
      EitherFormResolves(fs[0].key);
      assert AddedField(h, gs[0]) == AddedField(h, fs[0]);
      assert gs[1..] == Styled(fs[1..], compact);
      FoldStyled(AddedField(h, fs[0]), fs[1..], compact);
    }
  }

  /** Enough for the printed names to rebuild the map. */
  ghost predicate Keyed(m: Message) {
    forall k :: k in PrintedKeys(m.headers) ==> Canonical(k) && m.headers[k] != []
  }

  lemma WellFormedKeyed(m: Message)
    requires WellFormed(m)
    ensures Keyed(m)
  {
    hide Canonical, Foldable, StartOk, StartText, IsMethod, HeaderFields;
    forall k | k in PrintedKeys(m.headers) ensures Canonical(k) && m.headers[k] != [] {
      assert HeaderOk(k, m.headers[k]);
    }
  }

  lemma FoldHeaderFields(m: Message)
    requires Keyed(m)
    ensures Fold(map[], HeaderFields(m)) == map k | k in PrintedKeys(m.headers) :: m.headers[k]
  {
    hide Canonical, Less, FieldsOf, Fold;
    var h := m.headers;
    var keys := SortedKeys(PrintedKeys(h));
    assert forall k :: k in keys <==> k in Elements(keys);
    assert forall k :: k in keys ==> k in PrintedKeys(h);
    FoldKeys(map[], h, keys);
  }

  /** A canonical name that is not there yet gets a list of its own. */
  lemma AddedFresh(h: Headers, k: string, v: string)
    requires Canonical(k) && k !in h
    ensures AddedField(h, Field(k, v)) == h[k := [v]]
  {
    hide CanonicalKey, Expand;
    EitherFormResolves(k);
    assert [] + [v] == [v];
  }

  lemma FoldTwo(h: Headers, f: Field, g: Field)
    ensures Fold(h, [f, g]) == AddedField(AddedField(h, f), g)
  {
    hide AddedField;
    assert [f, g][1..] == [g] && [g][1..] == [];
    assert Fold(h, [f, g]) == Fold(AddedField(h, f), [g]);
    assert Fold(AddedField(h, f), [g]) == Fold(AddedField(AddedField(h, f), g), []);
  }

  lemma FoldMessage(m: Message)
    requires Keyed(m)
    ensures Fold(map[], Fields(m)) == Reparsed(m).headers
  {
    hide Canonical, AddedField, CSeqText, Dec, Keyed, HeaderFields, Fold;
    FoldHeaderFields(m);
    RegeneratedNamesCanonical();
    var cs, cl := Field("CSeq", CSeqText(m.cseq)), Field("Content-Length", Dec(|m.body|));
    var printed := map k | k in PrintedKeys(m.headers) :: m.headers[k];
    FoldAppend(map[], HeaderFields(m), [cs, cl]);
    FoldTwo(printed, cs, cl);
    AddedFresh(printed, "CSeq", cs.value);
    AddedFresh(printed["CSeq" := [cs.value]], "Content-Length", cl.value);
    assert printed["CSeq" := [cs.value]]["Content-Length" := [cl.value]] == Reparsed(m).headers;
  }

  lemma HeaderSectionReadsBack(m: Message, compact: bool, tail: string)
    requires WellFormed(m)
    ensures DecodedHeaders(ConcatMap(FieldText, Styled(Fields(m), compact)) + CRLF + tail, map[])
         == Ok((Reparsed(m).headers, tail))
  {
    hide WellFormed, Fields, Fold, Reparsed, FieldOk, DecodedHeaders, ConcatMap, KeyOk, ValueOk, BlankOnlyFirst,
      HeaderFields, Keyed;
    forall f | f in Styled(Fields(m), compact) ensures FieldOk(f) {
      StyledOk(m, compact, f);
    }
    assert BlankOnlyFirst(HeaderFields(m)) by { WellFormedBlanks(m); }
    StyledBlank(m, compact);
    HeadersReadBack(Styled(Fields(m), compact), tail, map[]);
    forall f | f in Fields(m) ensures Canonical(f.key) {
      FieldsOk(m, f);
      CanonicalOfOk(f.key);
    }
    FoldStyled(map[], Fields(m), compact);
    WellFormedKeyed(m);
    FoldMessage(m);
  }

  lemma WellFormedBlanks(m: Message)
    requires WellFormed(m)
    ensures BlankOnlyFirst(HeaderFields(m))
  {
    hide HeaderOk, StartOk, StartText, IsMethod, BlankOnlyFirst, HeaderFields;
  }

  lemma CanonicalOfOk(k: string)
    requires KeyOk(k)
    ensures Canonical(k)
  {
  }

  lemma BodyReadsBack(m: Message, tail: string, streamed: bool)
    requires WellFormed(m)
    ensures var r := DecodedBody(Reparsed(m).headers, m.body + tail, streamed);
      r.Ok? && r.value.0 == m.body && (streamed ==> r.value.1 == tail)
    ensures CSeqOf(Reparsed(m).headers) == Ok(m.cseq)
  {
    hide Atoi, Dec, IsMethod, CSeqText, TrimSpace, DecodedCSeq, StartOk, HeaderOk, StartText;
    LengthOk(|m.body|);
    CSeqTextOk(m.cseq);
    assert (m.body + tail)[..|m.body|] == m.body && (m.body + tail)[|m.body|..] == tail;
  }

  /** Unfolds Decoded once its four parts are known. */
  lemma DecodedParts(s: string, streamed: bool, line: string, rest: string, sl: StartLine, h: Headers, tail: string,
                     c: CSeq, body: string, left: string)
    requires s != "" && Line(s) == (line, rest)
    requires DecodedStartLine(line) == Ok(sl)
    requires DecodedHeaders(rest, map[]) == Ok((h, tail))
    requires CSeqOf(h) == Ok(c)
    requires DecodedBody(h, tail, streamed) == Ok((body, left))
    ensures Decoded(s, streamed) == Ok((Message(Some(sl), h, c, body), left))
  {
  }

  /**
    * Streamed parsing of a printed message gives back its start line, headers, CSeq and body
    * and leaves exactly the octets that followed it, whatever they are and however the body begins;
    * a datagram gives back the same message.
    */
  lemma RoundTrip(m: Message, compact: bool, tail: string)
    requires WellFormed(m)
    ensures Decoded(Encoded(m, compact) + tail, true) == Ok((Reparsed(m), tail))
    ensures var r := Decoded(Encoded(m, compact) + tail, false);
      r.Ok? && r.value.0 == Reparsed(m)
  {
    hide Line, DecodedStartLine, DecodedHeaders, CSeqOf, DecodedBody, Decoded, StartOk, StartText, Fields, HeaderOk,
      Styled, ConcatMap, IsMethod;
    var line := StartText(m.start.value);
    var section := ConcatMap(FieldText, Styled(Fields(m), compact));
    var s := Encoded(m, compact) + tail;
    var rest := section + CRLF + (m.body + tail);
    assert s == line + CRLF + rest by { Framed(line, section, m.body, tail); }
    LineReadsBack(line, rest);
    StartLineRoundTrip(m.start.value);
    HeaderSectionReadsBack(m, compact, m.body + tail);
    var h := Reparsed(m).headers;
    BodyReadsBack(m, tail, true);
    DecodedParts(s, true, line, rest, m.start.value, h, m.body + tail, m.cseq, m.body, tail);
    BodyReadsBack(m, tail, false);
    var left := DecodedBody(h, m.body + tail, false).value.1;
    DecodedParts(s, false, line, rest, m.start.value, h, m.body + tail, m.cseq, m.body, left);
    assert Reparsed(m) == Message(Some(m.start.value), h, m.cseq, m.body);
  }

  lemma Framed(line: string, section: string, body: string, tail: string)
    ensures line + CRLF + section + CRLF + body + tail == line + CRLF + (section + CRLF + (body + tail))
  {
    assert section + CRLF + (body + tail) == section + CRLF + body + tail;
    Assoc5(line + CRLF, section, CRLF, body, tail);
  }

  /** Compact marshalling preserves meaning. */
  lemma CompactPreservesMeaning(m: Message, tail: string, streamed: bool)
    requires WellFormed(m)
    ensures Decoded(Encoded(m, true) + tail, streamed).Ok?
    ensures Decoded(Encoded(m, false) + tail, streamed).Ok?
    ensures Decoded(Encoded(m, true) + tail, streamed).value.0 == Decoded(Encoded(m, false) + tail, streamed).value.0
  {
    hide Decoded, Encoded, WellFormed;
    RoundTrip(m, true, tail);
    RoundTrip(m, false, tail);
  }

  /** A body cut short is noticed: the length was printed from the whole body. */
  lemma TruncatedBody(m: Message, compact: bool, part: string)
    requires WellFormed(m) && |part| < |m.body|
    ensures Decoded(HeadText(m, compact) + part, true) == Err(ShortBody)
  {
    hide Line, DecodedStartLine, DecodedHeaders, CSeqOf, StartOk, StartText, Fields, HeaderOk, Styled, ConcatMap,
      IsMethod, Atoi, Dec, TrimSpace, CSeqText;
    var line := StartText(m.start.value);
    var section := ConcatMap(FieldText, Styled(Fields(m), compact));
    var rest := section + CRLF + part;
    assert HeadText(m, compact) + part == line + CRLF + rest by {
      Framed(line, section, part, "");
      assert part + "" == part;
      assert HeadText(m, compact) + part + "" == HeadText(m, compact) + part;
    }
    LineReadsBack(line, rest);
    StartLineRoundTrip(m.start.value);
    HeaderSectionReadsBack(m, compact, part);
    BodyReadsBack(m, "", true);
    LengthOk(|m.body|);
  }

  // ---- Streams ----

  datatype Sent = Sent(message: Message, compact: bool)

  ghost function Stream(xs: seq<Sent>): (s: string) {
    if xs == [] then "" else Encoded(xs[0].message, xs[0].compact) + Stream(xs[1..])
  }

  /** n messages read one after the other from the same reader. */
  function DecodedMany(s: string, n: nat): (r: Outcome<(seq<Message>, string)>)
    decreases n
  {
    if n == 0 then Ok(([], s))
    else
      match Decoded(s, true)
      case Err(e) => Err(e)
      case Panic => Panic
      case Ok(first) =>
        match DecodedMany(first.1, n - 1)
        case Err(e) => Err(e)
        case Panic => Panic
        case Ok(more) => Ok(([first.0] + more.0, more.1))
  }

  function AllReparsed(xs: seq<Sent>): (ms: seq<Message>)
    ensures |ms| == |xs|
  {
    seq(|xs|, i requires 0 <= i < |xs| => Reparsed(xs[i].message))
  }

  /** Any concatenation of printed messages parses back to the same sequence. */
  lemma {:induction false} StreamRoundTrip(xs: seq<Sent>, tail: string)
    requires forall x :: x in xs ==> WellFormed(x.message)
    ensures DecodedMany(Stream(xs) + tail, |xs|) == Ok((AllReparsed(xs), tail))
    decreases |xs|
  {
    hide Decoded, Encoded, WellFormed, Reparsed;
    if xs == [] {
      assert Stream(xs) + tail == tail;
    } else {
      var m := xs[0].message;
      var rest := Stream(xs[1..]) + tail;
      assert Stream(xs) + tail == Encoded(m, xs[0].compact) + rest;
      RoundTrip(m, xs[0].compact, rest);
      StreamRoundTrip(xs[1..], tail);
      assert [Reparsed(m)] + AllReparsed(xs[1..]) == AllReparsed(xs);
    }
  }

  lemma {:induction false} FieldsOfAgree(g: Headers, h: Headers, keys: seq<string>)
    requires forall k :: k in keys ==> k in g && k in h && g[k] == h[k]
    ensures FieldsOf(g, keys) == FieldsOf(h, keys)
  {
    if keys == [] {
    } else {
      FieldsOfAgree(g, h, keys[1..]);
    }
  }

  lemma ReparsedHeaders(m: Message)
    ensures PrintedKeys(Reparsed(m).headers) == PrintedKeys(m.headers)
    ensures forall k :: k in PrintedKeys(m.headers) ==> Reparsed(m).headers[k] == m.headers[k]
  {
    hide Dec, CSeqText;
  }

  lemma ReparsedFields(m: Message)
    ensures HeaderFields(Reparsed(m)) == HeaderFields(m) && Fields(Reparsed(m)) == Fields(m)
  {
    hide Dec, CSeqText, FieldsOf;
    ReparsedHeaders(m);
    var keys := SortedKeys(PrintedKeys(m.headers));
    assert forall k :: k in keys ==> k in Elements(keys);
    FieldsOfAgree(Reparsed(m).headers, m.headers, keys);
  }

  /** Printing what was parsed back changes nothing more. */
  lemma ReparsedStable(m: Message)
    requires WellFormed(m)
    ensures WellFormed(Reparsed(m)) && Reparsed(Reparsed(m)) == Reparsed(m)
    ensures forall compact :: Encoded(Reparsed(m), compact) == Encoded(m, compact)
  {
    hide Dec, CSeqText, HeaderOk, StartOk, StartText, IsMethod, Styled, ConcatMap, Fields, HeaderFields, PrintedKeys,
      BlankOnlyFirst;
    ReparsedHeaders(m);
    ReparsedFields(m);
  }

  // ---- Sizes ----

  lemma FieldTextLength(f: Field)
    ensures |FieldText(f)| == |f.key| + 2 + |f.value| + 2
  {
  }

  lemma {:induction false} ValuesSizeExact(k: string, vs: seq<string>, compact: bool)
    ensures ValuesSize(KeyWidth(k, compact), vs) == |ConcatMap(FieldText, Styled(FieldsFor(k, vs), compact))|
    decreases |vs|
  {
    hide CompactKey;
    if vs == [] {
    } else {
      var fs := FieldsFor(k, vs);
      assert fs[1..] == FieldsFor(k, vs[1..]);
      assert Styled(fs, compact)[1..] == Styled(fs[1..], compact);
      FieldTextLength(Styled(fs, compact)[0]);
      ValuesSizeExact(k, vs[1..], compact);
    }
  }

  lemma StyledAppend(xs: seq<Field>, ys: seq<Field>, compact: bool)
    ensures Styled(xs + ys, compact) == Styled(xs, compact) + Styled(ys, compact)
  {
  }

  lemma {:induction false} KeysSizeExact(h: Headers, keys: seq<string>, compact: bool)
    requires forall k :: k in keys ==> k in h
    ensures KeysSize(h, keys, compact) == |ConcatMap(FieldText, Styled(FieldsOf(h, keys), compact))|
  {
    hide Styled, KeyWidth, ValuesSize, FieldText, FieldsFor;
    if keys == [] {
    } else {
      var fs := FieldsFor(keys[0], h[keys[0]]);
      ValuesSizeExact(keys[0], h[keys[0]], compact);
      KeysSizeExact(h, keys[1..], compact);
      StyledAppend(fs, FieldsOf(h, keys[1..]), compact);
      ConcatMapAppend(FieldText, Styled(fs, compact), Styled(FieldsOf(h, keys[1..]), compact));
    }
  }

  /** The printed fields in the two parts that marshalToImpl writes. */
  ghost function Closing(m: Message, compact: bool): (s: string) {
    "CSeq: " + CSeqText(m.cseq) + CRLF
    + (if compact then CompactKey("Content-Length") else "Content-Length") + ": " + Dec(|m.body|) + CRLF
  }

  lemma StyledTwo(f: Field, g: Field, compact: bool)
    ensures Styled([f, g], compact) == if compact then [Compacted(f), Compacted(g)] else [f, g]
  {
  }

  lemma FieldsInParts(m: Message, compact: bool)
    ensures ConcatMap(FieldText, Styled(Fields(m), compact))
         == ConcatMap(FieldText, Styled(HeaderFields(m), compact)) + Closing(m, compact)
  {
    hide CSeqText, Dec, HeaderFields, ConcatMap, Styled, CompactKey;
    var cs, cl := Field("CSeq", CSeqText(m.cseq)), Field("Content-Length", Dec(|m.body|));
    StyledAppend(HeaderFields(m), [cs, cl], compact);
    ConcatMapAppend(FieldText, Styled(HeaderFields(m), compact), Styled([cs, cl], compact));
    StyledTwo(cs, cl, compact);
    CSeqHasNoCompactForm();
    var last := if compact then Compacted(cl) else cl;
    ConcatMapTwo(FieldText, cs, last);
    assert FieldText(cs) + FieldText(last) == Closing(m, compact);
  }

  lemma CSeqHasNoCompactForm()
    ensures CompactKey("CSeq") == "CSeq"
  {
  }

  /** The announced size is the printed one exactly when the sequence number carries no sign. */
  lemma SizeExact(m: Message, compact: bool)
    requires m.start.Some?
    ensures Size(m, compact) + (if m.cseq.number < 0 then |Dec(m.cseq.number)| else 0) == |Encoded(m, compact)|
    ensures Size(m, compact) == |Encoded(m, compact)| <==> m.cseq.number >= 0
  {
    hide ConcatMap, Styled, KeysSize, StartText, Dec, HeaderFields, DigitCount;
    FieldsInParts(m, compact);
    var keys := SortedKeys(PrintedKeys(m.headers));
    assert HeaderFields(m) == FieldsOf(m.headers, keys) by { HeaderFieldsAre(m); }
    KeysSizeExact(m.headers, keys, compact);
    WidthOf(m.cseq.number);
    WidthOf(|m.body|);
  }

  lemma HeaderFieldsAre(m: Message)
    ensures HeaderFields(m) == FieldsOf(m.headers, SortedKeys(PrintedKeys(m.headers)))
  {
  }

  lemma WidthOf(n: int)
    ensures DigitCount(n) == if n < 0 then 0 else |Dec(n)|
  {
  }
}
