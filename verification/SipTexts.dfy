/** SIP texts as others may write them: spacing, folding, spelling of names, and how the body is delimited. */
module SipTexts {
  import opened Octets
  import opened Text
  import opened Decimal
  import opened Sequences
  import opened Sip
  import opened SipRoundTrip
  import opened SipReparse

  // ---- Start lines and methods ----

  const METHODS: set<string> :=
    {"INVITE", "ACK", "CANCEL", "OPTIONS", "BYE", "REGISTER", "PRACK", "SUBSCRIBE", "NOTIFY", "PUBLISH", "INFO",
     "REFER", "MESSAGE", "UPDATE"}

  /** A line is a request line if and only if it is one of the methods, a URI and a version that starts with SIP/. */
  lemma RequestLineExactly(verb: string, uri: string, version: string)
    requires ' ' !in verb && ' ' !in uri && uri != "" && version != "" && !("SIP/" <= verb)
    ensures DecodedStartLine(verb + " " + uri + " " + version) ==
      if verb !in METHODS then Err(BadMethod)
      else if !("SIP/" <= version) then Err(BadVersion)
      else Ok(Request(verb, uri, version))
  {
    hide Cut, IsMethod;
    MethodsExactly(verb);
    var rest := uri + " " + version;
    assert verb + " " + uri + " " + version == verb + [' '] + rest && rest == uri + [' '] + version;
    CutAt(verb, ' ', rest);
    CutAt(uri, ' ', version);
  }

  /** A status line has a version that starts with SIP/, three octets that are a number, and a reason. */
  lemma StatusLineExactly(version: string, code: string, reason: string)
    requires ' ' !in version && "SIP/" <= version && ' ' !in code && code != "" && reason != ""
    ensures DecodedStartLine(version + " " + code + " " + reason) ==
      if |code| != 3 || Atoi(code).None? then Err(BadStatusCode)
      else Ok(Response(version, Atoi(code).value, code + " " + reason))
  {
    hide Cut, Atoi;
    var rest := code + " " + reason;
    assert version + " " + code + " " + reason == version + [' '] + rest && rest == code + [' '] + reason;
    CutAt(version, ' ', rest);
    CutAt(code, ' ', reason);
  }

  // ---- Spelling of names ----

  /** The octets of a header name whose case is put in order. */
  lemma TokensExactly(c: char)
    ensures IsToken(c) <==> 'a' <= c <= 'z' || 'A' <= c <= 'Z' || '0' <= c <= '9' || c in "!#$%&'*+-.^_`|~"
  {
    var s := "!#$%&'*+-.^_`|~";
    assert c in s <==>
      || c == s[0] || c == s[1] || c == s[2] || c == s[3] || c == s[4] || c == s[5] || c == s[6] || c == s[7]
      || c == s[8] || c == s[9] || c == s[10] || c == s[11] || c == s[12] || c == s[13] || c == s[14];
  }

  predicate SameLetters(k: string, l: string) {
    |k| == |l| && forall i :: 0 <= i < |k| ==> Lower(k[i]) == Lower(l[i])
  }

  lemma LowerFacts(c: char, d: char)
    requires Lower(c) == Lower(d)
    ensures Upper(c) == Upper(d) && (IsToken(c) <==> IsToken(d)) && (c == '-' <==> d == '-')
  {
  }

  /** Names are the same whatever the case of their letters. */
  lemma CaseIgnored(k: string, l: string)
    requires SameLetters(k, l) && forall i :: 0 <= i < |k| ==> IsToken(k[i])
    ensures CanonicalKey(k) == CanonicalKey(l)
  {
    hide IsToken, Upper, Lower;
    forall i | 0 <= i < |k| ensures IsToken(l[i]) && Recased(k, i) == Recased(l, i) {
      LowerFacts(k[i], l[i]);
      if i > 0 { LowerFacts(k[i - 1], l[i - 1]); }
    }
    assert MimeKey(k) == MimeKey(l);
  }

  /** The compact forms of section 7.3.3 of RFC 3261. */
  lemma CompactForms()
    ensures Expand("i") == "Call-ID" && Expand("m") == "Contact" && Expand("e") == "Content-Encoding"
    ensures Expand("l") == "Content-Length" && Expand("c") == "Content-Type" && Expand("f") == "From"
    ensures Expand("s") == "Subject" && Expand("k") == "Supported" && Expand("t") == "To" && Expand("v") == "Via"
  {
  }

  /** Those of the extensions. */
  lemma MoreCompactForms()
    ensures Expand("a") == "Accept-Contact" && Expand("b") == "Referred-By" && Expand("d") == "Request-Disposition"
    ensures Expand("j") == "Reject-Contact" && Expand("n") == "RSeq" && Expand("o") == "Event"
    ensures Expand("r") == "Refer-To" && Expand("u") == "Allow-Events"
  {
  }

  // ---- Spacing and folding ----

  /** Any number of spaces may stand after the colon of a header. */
  lemma SpacingIgnored(k: string, n: nat, v: string, tail: string, h: Headers)
    requires ':' !in k && '\n' !in k && '\n' !in v && (v == "" || v[0] != ' ') && !Continues(tail)
    ensures DecodedHeaders(k + ":" + Blanks(n) + v + CRLF + tail, h) == DecodedHeaders(tail, AddedField(h, Field(k, v)))
  {
    hide DecodedHeaders, AddedField, ContinuedLine, Cut, TrimLeft, Continues, Foldable;
    var line := k + ":" + Blanks(n) + v;
    assert line == k + [':'] + (Blanks(n) + v);
    PlainFoldable(line);
    ContinuedLineReadsBack(line, tail);
    CutAt(k, ':', Blanks(n) + v);
    BlanksDropped(n, v);
    HeaderStep(line + CRLF + tail, h, line, tail, k, Blanks(n) + v);
  }

  lemma {:induction false} TrailingDropped(a: string, w: string)
    requires a == "" || (a[|a| - 1] != ' ' && a[|a| - 1] != '\t' && a[|a| - 1] != '\r')
    requires forall c :: c in w ==> c == ' ' || c == '\t' || c == '\r'
    ensures TrimRight(a + w, " \t\r") == a
    decreases |w|
  {
    if w == "" {
      assert a + w == a;
    } else {
      var n := |w| - 1;
      assert w[n] in w && (a + w)[..|a| + n] == a + w[..n];
      assert forall c :: c in w[..n] ==> c in w;
      TrailingDropped(a, w[..n]);
    }
  }

  /**
    * A line that starts with a space or a tab continues the one before: it is joined to it, with the blanks at the
    * end of the first line left out.
    */
  lemma FoldJoins(a: string, w: string, b: string, tail: string)
    requires a == "" || (a[|a| - 1] != ' ' && a[|a| - 1] != '\t' && a[|a| - 1] != '\r')
    requires forall c :: c in w ==> c == ' ' || c == '\t' || c == '\r'
    requires '\n' !in b && b != "" && (b[0] == ' ' || b[0] == '\t')
    ensures Folded(a + w, b + CRLF + tail) == Folded(a + b, tail)
    ensures '\n' !in a && a + w != "" ==> ContinuedLine(a + w + CRLF + (b + CRLF + tail)) == Folded(a + b, tail)
  {
    hide Line, TrimRight;
    LineReadsBack(b, tail);
    TrailingDropped(a, w);
    assert Continues(b + CRLF + tail);
    if '\n' !in a && a + w != "" { LineReadsBack(a + w, b + CRLF + tail); }
  }

  // ---- How the body is delimited ----

  /** What was filed under a name. */
  function Filed(fs: seq<Field>, k: string): (vs: seq<string>) {
    if fs == [] then []
    else (if CanonicalKey(Expand(fs[0].key)) == k then [fs[0].value] else []) + Filed(fs[1..], k)
  }

  function Has(h: Headers, k: string): (vs: seq<string>) {
    if k in h then h[k] else []
  }

  lemma AddedHas(h: Headers, f: Field, k: string)
    ensures var r := AddedField(h, f); var same := CanonicalKey(Expand(f.key)) == k;
      Has(r, k) == Has(h, k) + (if same then [f.value] else []) && (k in r <==> k in h || same)
  {
    hide CanonicalKey, Expand;
    assert Has(h, k) + [] == Has(h, k);
  }

  lemma {:induction false} FoldFiles(h: Headers, fs: seq<Field>, k: string)
    ensures Has(Fold(h, fs), k) == Has(h, k) + Filed(fs, k)
    ensures k in Fold(h, fs) <==> k in h || Filed(fs, k) != []
    decreases |fs|
  {
    hide CanonicalKey, Expand, AddedField, Has;
    if fs == [] {
      assert Has(h, k) + [] == Has(h, k);
    } else {
      AddedHas(h, fs[0], k);
      FoldFiles(AddedField(h, fs[0]), fs[1..], k);
      var first := if CanonicalKey(Expand(fs[0].key)) == k then [fs[0].value] else [];
      assert Has(h, k) + first + Filed(fs[1..], k) == Has(h, k) + (first + Filed(fs[1..], k));
    }
  }

  /** What a whole section files. */
  lemma SectionFiles(fs: seq<Field>, k: string)
    ensures var h := Fold(map[], fs); if k in h then h[k] == Filed(fs, k) != [] else Filed(fs, k) == []
  {
    hide Fold, Filed;
    FoldFiles(map[], fs, k);
    assert [] + Filed(fs, k) == Filed(fs, k);
  }

  /** A start line, header fields, an empty line and whatever follows. */
  function MessageText(sl: StartLine, fs: seq<Field>, rest: string): (s: string) {
    StartText(sl) + CRLF + ConcatMap(FieldText, fs) + CRLF + rest
  }

  predicate SectionOk(sl: StartLine, fs: seq<Field>) {
    StartOk(sl) && '\n' !in StartText(sl) && (forall f :: f in fs ==> FieldOk(f)) && BlankOnlyFirst(fs)
  }

  /** The sequence number a list of CSeq values stands for; without any it is 0 without a method. */
  predicate CSeqSays(vs: seq<string>, c: CSeq) {
    if vs == [] then c == CSeq(0, "")
    else
      && |vs| == 1 && c.verb in METHODS
      && var n := |vs[0]| - |c.verb| - 1;
      n >= 0 && vs[0][n..] == " " + c.verb && ' ' !in vs[0][..n] && Atoi(vs[0][..n]) == Some(c.number)
  }

  lemma CSeqValueExactly(v: string, c: CSeq)
    ensures DecodedCSeq([v]) == Ok(c) <==> CSeqSays([v], c)
  {
    hide Atoi, Cut, IsMethod;
    var k := Cut(v, ' ');
    if k.found {
      var i := |k.before|;
      assert v[..i] == k.before && v[i..] == " " + k.after;
      MethodsExactly(k.after);
    }
    MethodsExactly(c.verb);
    var n := |v| - |c.verb| - 1;
    if n >= 0 && v[n..] == " " + c.verb && ' ' !in v[..n] {
      assert v == v[..n] + v[n..] == v[..n] + [' '] + c.verb;
      CutAt(v[..n], ' ', c.verb);
    }
  }

  /** The methods that are known. */
  lemma MethodsExactly(s: string)
    ensures IsMethod(s) <==> s in METHODS
  {
  }

  lemma CSeqExactly(h: Headers, vs: seq<string>, c: CSeq)
    requires if "CSeq" in h then h["CSeq"] == vs != [] else vs == []
    ensures CSeqOf(h) == Ok(c) <==> CSeqSays(vs, c)
    ensures CSeqOf(h).Err? ==> CSeqOf(h) == Err(BadCSeq)
  {
    hide Atoi, Cut, IsMethod;
    if |vs| == 1 {
      assert vs == [vs[0]];
      CSeqValueExactly(vs[0], c);
    }
  }

  /** What a Content-Length value asks for. */
  function Announced(v: string): (n: Option<int64>) {
    Atoi(TrimSpace(v))
  }

  function Beyond(s: string, n: nat): (r: string) {
    if |s| <= n then "" else s[n..]
  }

  /**
    * The outcome of a parse, from the values of Content-Length. Without one a datagram is all body, and a stream is
    * refused. With one it decides, a stream keeps what follows for the next message, and a datagram drops it, up to
    * 2^20 octets.
    */
  predicate Delimited(values: seq<string>, rest: string, streamed: bool, r: Outcome<(string, string)>) {
    if values == [] then r == if streamed then Err(NoContentLength) else Ok((rest, ""))
    else
      match Announced(values[0])
      case None => r == Err(BadContentLength)
      case Some(n) =>
        if n < 0 then r == Err(NegativeContentLength)
        else if n > |rest| then r == Err(ShortBody)
        else r == Ok((rest[..n], if streamed then rest[n..] else Beyond(rest[n..], 1048576)))
  }

  lemma BodyDelimited(h: Headers, vs: seq<string>, rest: string, streamed: bool)
    requires if "Content-Length" in h then h["Content-Length"] == vs != [] else vs == []
    ensures Delimited(vs, rest, streamed, DecodedBody(h, rest, streamed))
  {
    hide Atoi, TrimSpace;
  }

  /** Every text with a well-formed start line and header section: which message it is, and where it ends. */
  lemma TextReads(sl: StartLine, fs: seq<Field>, rest: string, streamed: bool, c: CSeq, body: string, left: string)
    requires SectionOk(sl, fs)
    ensures Decoded(MessageText(sl, fs, rest), streamed) == Ok((Message(Some(sl), Fold(map[], fs), c, body), left)) <==>
      CSeqSays(Filed(fs, "CSeq"), c) && Delimited(Filed(fs, "Content-Length"), rest, streamed, Ok((body, left)))
  {
    hide Line, DecodedStartLine, DecodedHeaders, CSeqOf, DecodedBody, StartOk, StartText, ConcatMap, FieldOk, Fold,
      Delimited, CSeqSays, Filed;
    SectionReads(sl, fs, rest);
    var h := Fold(map[], fs);
    SectionFiles(fs, "CSeq");
    SectionFiles(fs, "Content-Length");
    var cs, cl := Filed(fs, "CSeq"), Filed(fs, "Content-Length");
    CSeqExactly(h, cs, c);
    BodyDelimited(h, cl, rest, streamed);
    DelimitedOnce(cl, rest, streamed, DecodedBody(h, rest, streamed), Ok((body, left)));
  }

  lemma DelimitedOnce(vs: seq<string>, rest: string, streamed: bool, a: Outcome<(string, string)>,
                      b: Outcome<(string, string)>)
    requires Delimited(vs, rest, streamed, a)
    ensures Delimited(vs, rest, streamed, b) <==> a == b
  {
    hide Announced;
  }

  lemma SectionReads(sl: StartLine, fs: seq<Field>, rest: string)
    requires SectionOk(sl, fs)
    ensures var s := MessageText(sl, fs, rest);
      && s != "" && DecodedStartLine(Line(s).0) == Ok(sl)
      && DecodedHeaders(Line(s).1, map[]) == Ok((Fold(map[], fs), rest))
  {
    hide Line, DecodedStartLine, DecodedHeaders, StartOk, StartText, ConcatMap, FieldOk, Fold, BlankOnlyFirst;
    var line, section := StartText(sl), ConcatMap(FieldText, fs);
    var after := section + CRLF + rest;
    assert MessageText(sl, fs, rest) == line + CRLF + after;
    LineReadsBack(line, after);
    StartLineRoundTrip(sl);
    HeadersReadBack(fs, rest, map[]);
  }

  /** Which error refuses such a text: the CSeq is looked at first. */
  lemma TextRefused(sl: StartLine, fs: seq<Field>, rest: string, streamed: bool, e: SipError)
    requires SectionOk(sl, fs)
    ensures Decoded(MessageText(sl, fs, rest), streamed) == Err(e) <==>
      if forall c :: !CSeqSays(Filed(fs, "CSeq"), c) then e == BadCSeq
      else Delimited(Filed(fs, "Content-Length"), rest, streamed, Err(e))
  {
    hide Line, DecodedStartLine, DecodedHeaders, CSeqOf, DecodedBody, StartOk, StartText, ConcatMap, FieldOk, Fold,
      Delimited, CSeqSays, Filed;
    SectionReads(sl, fs, rest);
    var h := Fold(map[], fs);
    SectionFiles(fs, "CSeq");
    SectionFiles(fs, "Content-Length");
    var cs, cl := Filed(fs, "CSeq"), Filed(fs, "Content-Length");
    forall c ensures CSeqOf(h) == Ok(c) <==> CSeqSays(cs, c) {
      CSeqExactly(h, cs, c);
    }
    CSeqExactly(h, cs, CSeq(0, ""));
    assert CSeqOf(h).Ok? ==> CSeqSays(cs, CSeqOf(h).value);
    BodyDelimited(h, cl, rest, streamed);
    DelimitedOnce(cl, rest, streamed, DecodedBody(h, rest, streamed), Err(e));
  }

  /** A datagram without Content-Length is body to its end, and the same text on a stream is refused. */
  lemma WithoutLength(sl: StartLine, fs: seq<Field>, body: string, c: CSeq)
    requires SectionOk(sl, fs) && Filed(fs, "Content-Length") == [] && CSeqSays(Filed(fs, "CSeq"), c)
    ensures Decoded(MessageText(sl, fs, body), false) == Ok((Message(Some(sl), Fold(map[], fs), c, body), ""))
    ensures Decoded(MessageText(sl, fs, body), true) == Err(NoContentLength)
  {
    hide Decoded, MessageText, SectionOk, CSeqSays, Filed, Fold;
    TextReads(sl, fs, body, false, c, body, "");
    TextRefused(sl, fs, body, true, NoContentLength);
  }
}
