/** Every octet string that parses as a streamed SIP message, and when printing the message loses nothing. */
module SipReparse {
  import opened Octets
  import opened Text
  import opened Decimal
  import opened Sequences
  import opened Ordering
  import opened Sip
  import opened SipRoundTrip

  // ---- What a header section can yield ----

  lemma FeedsPrefix(s: string, n: nat)
    requires FeedsFold(s) && n <= |s|
    ensures FeedsFold(s[..n])
  {
    hide Continues;
    var p := s[..n];
    forall i | 0 <= i < |p| && p[i] == '\n'
      ensures (i + 1 < |p| ==> Continues(p[i + 1..])) && (i > 0 ==> p[i - 1] != '\r')
    {
      assert s[i] == '\n';
      if i + 1 < n { StartsSame(s[i + 1..], p[i + 1..]); }
    }
  }

  lemma StartsSame(s: string, p: string)
    requires s != "" && p != "" && s[0] == p[0]
    ensures Continues(s) <==> Continues(p)
  {
  }

  lemma FeedsSuffix(s: string, n: nat)
    requires FeedsFold(s) && n <= |s|
    ensures FeedsFold(s[n..])
  {
    hide Continues;
    var p := s[n..];
    forall i | 0 <= i < |p| && p[i] == '\n'
      ensures (i + 1 < |p| ==> Continues(p[i + 1..])) && (i > 0 ==> p[i - 1] != '\r')
    {
      assert s[n + i] == '\n' && p[i + 1..] == s[n + i + 1..];
    }
  }

  lemma FeedsJoin(a: string, b: string)
    requires FeedsFold(a) && FeedsFold(b) && Continues(b)
    ensures FeedsFold(a + b)
  {
    var s := a + b;
    forall i | 0 <= i < |s| && s[i] == '\n'
      ensures (i + 1 < |s| ==> Continues(s[i + 1..])) && (i > 0 ==> s[i - 1] != '\r')
    {
      if i + 1 < |a| {
        assert a[i] == '\n' && Continues(a[i + 1..]);
        assert s[i + 1..][0] == a[i + 1..][0];
      } else if i < |a| {
        assert s[i + 1..] == b;
      } else {
        var k := i - |a|;
        assert b[k] == '\n' && s[i + 1..] == b[k + 1..];
      }
    }
  }

  lemma {:induction false} TrimRightPrefix(s: string, cs: string)
    ensures TrimRight(s, cs) <= s
    decreases |s|
  {
    if s == "" || s[|s| - 1] !in cs {
    } else {
      TrimRightPrefix(s[..|s| - 1], cs);
    }
  }

  lemma {:induction false} TrimLeftSuffix(s: string, cs: string)
    ensures TrimLeft(s, cs) == s[|s| - |TrimLeft(s, cs)|..]
    decreases |s|
  {
    if s == "" || s[0] !in cs {
    } else {
      TrimLeftSuffix(s[1..], cs);
    }
  }

  lemma LineFeeds(s: string)
    requires s != ""
    ensures FeedsFold(Line(s).0) && (Continues(s) ==> Continues(Line(s).0))
  {
    var i := IndexOf(s, '\n');
    var raw, line := s[..RawLine(s)], Line(s).0;
    assert line <= raw;
    assert forall k :: 0 <= k < |raw| && raw[k] == '\n' ==> k == i;
    assert i < |s| && i > 0 && raw[i - 1] == '\r' ==> raw[|raw| - 2..] == "\r\n";
  }

  lemma {:induction false} FoldedFeeds(line: string, s: string)
    requires FeedsFold(line)
    ensures FeedsFold(Folded(line, s).0)
    decreases |s|
  {
    hide FeedsFold, Line, Continues;
    if !Continues(s) {
    } else {
      assert s != "" by { ContinuesSome(s); }
      var (cont, rest) := Line(s);
      var trimmed := TrimRight(line, " \t\r");
      TrimRightPrefix(line, " \t\r");
      assert trimmed == line[..|trimmed|];
      FeedsPrefix(line, |trimmed|);
      LineFeeds(s);
      FeedsJoin(trimmed, cont);
      FoldedFeeds(trimmed + cont, rest);
    }
  }

  lemma ContinuesSome(s: string)
    requires Continues(s)
    ensures s != ""
  {
  }

  lemma ContinuedLineFeeds(s: string)
    requires s != ""
    ensures FeedsFold(ContinuedLine(s).0)
  {
    hide Line, Folded;
    LineFeeds(s);
    FoldedFeeds(Line(s).0, Line(s).1);
  }

  predicate ValueParsed(v: string) {
    FeedsFold(v) && (v == "" || v[0] != ' ')
  }

  predicate NameParsed(k: string) {
    ':' !in k && Foldable(k)
  }

  lemma NameCut(line: string, n: nat)
    requires FeedsFold(line) && n < |line| && line[n] == ':'
    ensures Foldable(line[..n])
  {
    FeedsPrefix(line, n);
    assert n > 0 && line[n - 1] == '\n' ==> Continues(line[n..]);
  }

  lemma CutParsed(line: string)
    requires FeedsFold(line) && Cut(line, ':').found
    ensures NameParsed(Cut(line, ':').before) && ValueParsed(TrimLeft(Cut(line, ':').after, " "))
  {
    hide FeedsFold, Cut;
    var c := Cut(line, ':');
    var n := |c.before|;
    assert line[..n] == c.before && line[n] == ':' && line[n + 1..] == c.after;
    NameCut(line, n);
    FeedsSuffix(line, n + 1);
    TrimLeftSuffix(c.after, " ");
    FeedsSuffix(c.after, |c.after| - |TrimLeft(c.after, " ")|);
  }

  predicate HeaderParsed(k: string, vs: seq<string>) {
    Canonical(k) && NameParsed(k) && vs != [] && forall v :: v in vs ==> ValueParsed(v)
  }

  predicate HeadersParsed(h: Headers) {
    forall k :: k in h ==> HeaderParsed(k, h[k])
  }

  lemma PlainName(k: string)
    requires ':' !in k && '\n' !in k
    ensures NameParsed(k)
  {
    PlainFoldable(k);
  }

  predicate PlainText(s: string) {
    ':' !in s && '\n' !in s
  }

  lemma LongFormEarly(c: char)
    requires c != ':' && c != '\n' && c < 'f'
    ensures PlainText(LongForm(c))
  {
  }

  lemma LongFormMiddle(c: char)
    requires 'f' <= c < 'm'
    ensures PlainText(LongForm(c))
  {
  }

  lemma LongFormLate(c: char)
    requires c >= 'm'
    ensures PlainText(LongForm(c))
  {
  }

  lemma ExpandPlain(k: string)
    requires NameParsed(k)
    ensures NameParsed(Expand(k))
  {
    hide LongForm;
    if |k| == 1 {
      assert k == [k[0]];
      if k[0] < 'f' { LongFormEarly(k[0]); } else if k[0] < 'm' { LongFormMiddle(k[0]); } else { LongFormLate(k[0]); }
      PlainName(LongForm(k[0]));
    }
  }

  lemma MimeKeyPlain(k: string)
    requires NameParsed(k)
    ensures NameParsed(MimeKey(k))
  {
    hide NameParsed;
    var m := MimeKey(k);
    if m != k {
      forall i | 0 <= i < |m| ensures m[i] != ':' && m[i] != '\n' {
        assert m[i] == Recased(k, i) && IsToken(k[i]);
      }
      PlainName(m);
    }
  }

  lemma CanonicalPlain(k: string)
    requires NameParsed(k)
    ensures NameParsed(CanonicalKey(k))
  {
    hide MimeKey, NameParsed;
    MimeKeyPlain(k);
    if CanonicalKey(k) != MimeKey(k) { PlainName(CanonicalKey(k)); }
  }

  lemma AddedParsed(h: Headers, k: string, v: string)
    requires HeadersParsed(h) && NameParsed(k) && ValueParsed(v)
    ensures HeadersParsed(AddedField(h, Field(k, v)))
  {
    hide CanonicalKey, Expand, NameParsed, ValueParsed;
    ExpandPlain(k);
    CanonicalPlain(Expand(k));
    CanonicalKeyIdempotent(Expand(k));
    var r := AddedField(h, Field(k, v));
    var key := CanonicalKey(Expand(k));
    forall x | x in r ensures HeaderParsed(x, r[x]) {
      if x != key { assert HeaderParsed(x, h[x]); } else if key in h { assert HeaderParsed(key, h[key]); }
    }
  }

  lemma {:induction false} HeadersAreParsed(s: string, h: Headers)
    requires HeadersParsed(h) && DecodedHeaders(s, h).Ok?
    ensures HeadersParsed(DecodedHeaders(s, h).value.0)
    decreases |s|
  {
    hide HeadersParsed, AddedField, ContinuedLine, NameParsed, ValueParsed, FeedsFold;
    var (line, rest) := ContinuedLine(s);
    if line == "" {
    } else {
      var kv := Cut(line, ':');
      ContinuedLineFeeds(s);
      CutParsed(line);
      var v := TrimLeft(kv.after, " ");
      AddedParsed(h, kv.before, v);
      HeadersAreParsed(rest, AddedField(h, Field(kv.before, v)));
    }
  }

  // ---- A line that swallows the next one ----

  function Colons(s: string): (n: nat) {
    multiset(s)[':']
  }

  lemma ColonsOf(a: string, b: string)
    ensures Colons(a + b) == Colons(a) + Colons(b)
  {
  }

  lemma {:induction false} TrimRightColons(s: string, cs: string)
    requires ':' !in cs
    ensures Colons(TrimRight(s, cs)) == Colons(s)
    decreases |s|
  {
    if s == "" || s[|s| - 1] !in cs {
    } else {
      var n := |s| - 1;
      assert s == s[..n] + [s[n]];
      TrimRightColons(s[..n], cs);
    }
  }

  lemma {:induction false} TrimLeftColons(s: string, cs: string)
    requires ':' !in cs
    ensures Colons(TrimLeft(s, cs)) == Colons(s)
    decreases |s|
  {
    if s == "" || s[0] !in cs {
    } else {
      assert s == [s[0]] + s[1..];
      TrimLeftColons(s[1..], cs);
    }
  }

  lemma {:induction false} FoldedColons(line: string, s: string)
    ensures Colons(Folded(line, s).0) >= Colons(line)
    decreases |s|
  {
    hide Line, Continues, Colons;
    if !Continues(s) {
    } else {
      assert s != "" by { ContinuesSome(s); }
      var (cont, rest) := Line(s);
      TrimRightColons(line, " \t\r");
      ColonsOf(TrimRight(line, " \t\r"), cont);
      FoldedColons(TrimRight(line, " \t\r") + cont, rest);
    }
  }

  lemma LineTakes(a: string, b: string)
    requires '\n' !in a
    ensures Colons(Line(a + [':'] + b).0) >= 1
  {
    var s := a + [':'] + b;
    var n := RawLine(s);
    assert s[|a|] == ':';
    assert forall i :: 0 <= i <= |a| ==> s[i] != '\n';
    assert n > |a|;
    var raw, line := s[..n], Line(s).0;
    assert raw[|a|] == ':';
    assert line < raw ==> raw[|raw| - 2..] == "\r\n" && raw[|raw| - 2..][0] == raw[|raw| - 2]
                          && raw[|raw| - 2..][1] == raw[|raw| - 1];
    assert |a| < |line|;
    assert line[|a|] == ':';
    assert ':' in line;
  }

  lemma FoldedStep(line: string, s: string)
    requires Continues(s)
    ensures s != "" && Folded(line, s) == Folded(TrimRight(line, " \t\r") + Line(s).0, Line(s).1)
    ensures Colons(TrimRight(line, " \t\r") + Line(s).0) == Colons(line) + Colons(Line(s).0)
  {
    hide Line, Colons;
    TrimRightColons(line, " \t\r");
    ColonsOf(TrimRight(line, " \t\r"), Line(s).0);
  }

  /** The part of a name after its first line feed, and the line before it. */
  lemma NamePiece(a: string, x: string)
    requires Foldable(a) && '\n' in a
    ensures var n := FirstPiece(a);
      n < |a| && Foldable(a[n..]) && Continues(a[n..]) && Line(a + x) == (a[..n], a[n..] + x)
  {
    hide Line, Continues;
    var i := IndexOf(a, '\n');
    var c := a[i + 1..];
    assert a[i] == '\n' && i + 1 < |a|;
    assert a[..i + 1] == a[..i] + ['\n'] && a + x == a[..i] + ['\n'] + (c + x);
    FeedLine(a[..i], c + x);
    FeedsSuffix(a, i + 1);
  }

  /** A next line that continues this one adds its colon. */
  lemma {:induction false} FoldedTakes(line: string, a: string, b: string)
    requires Foldable(a) && Continues(a)
    ensures Colons(Folded(line, a + ([':'] + b)).0) >= Colons(line) + 1
    decreases |a|
  {
    hide Line, Continues, Colons, Folded, Foldable, FirstPiece;
    var s := a + ([':'] + b);
    StillContinues(a, [':'] + b);
    FoldedStep(line, s);
    var more := TrimRight(line, " \t\r") + Line(s).0;
    if '\n' !in a {
      assert s == a + [':'] + b;
      LineTakes(a, b);
      FoldedColons(more, Line(s).1);
    } else {
      NamePiece(a, [':'] + b);
      FoldedTakes(more, a[FirstPiece(a)..], b);
    }
  }

  lemma {:induction false} TrimRightKeeps(p: string, s: string, cs: string)
    requires p <= s && p != "" && p[|p| - 1] !in cs
    ensures p <= TrimRight(s, cs)
    decreases |s|
  {
    if s[|s| - 1] !in cs {
    } else {
      TrimRightKeeps(p, s[..|s| - 1], cs);
    }
  }

  lemma {:induction false} FoldedKeeps(p: string, line: string, s: string)
    requires p <= line && p != "" && p[|p| - 1] !in " \t\r"
    ensures p <= Folded(line, s).0
    decreases |s|
  {
    hide Line, Continues;
    if !Continues(s) {
    } else {
      assert s != "" by { ContinuesSome(s); }
      TrimRightKeeps(p, line, " \t\r");
      FoldedKeeps(p, TrimRight(line, " \t\r") + Line(s).0, Line(s).1);
    }
  }

  /** Values are only ever added at the end. */
  predicate Extends(g: Headers, h: Headers) {
    forall k :: k in g ==> k in h && g[k] <= h[k]
  }

  lemma AddedExtends(h: Headers, f: Field)
    ensures Extends(h, AddedField(h, f))
  {
    hide CanonicalKey, Expand;
  }

  lemma ExtendsTrans(a: Headers, b: Headers, c: Headers)
    requires Extends(a, b) && Extends(b, c)
    ensures Extends(a, c)
  {
  }

  lemma {:induction false} DecodedExtends(s: string, h: Headers)
    requires DecodedHeaders(s, h).Ok?
    ensures Extends(h, DecodedHeaders(s, h).value.0)
    decreases |s|
  {
    hide AddedField, ContinuedLine, Extends, Cut;
    var (line, rest) := ContinuedLine(s);
    if line == "" {
      assert Extends(h, h) by { ExtendsSelf(h); }
    } else {
      var kv := Cut(line, ':');
      var f := Field(kv.before, TrimLeft(kv.after, " "));
      DecodedExtends(rest, AddedField(h, f));
      AddedExtends(h, f);
      ExtendsTrans(h, AddedField(h, f), DecodedHeaders(s, h).value.0);
    }
  }

  lemma ExtendsSelf(h: Headers)
    ensures Extends(h, h)
  {
  }

  lemma {:induction false} FoldExtends(h: Headers, fs: seq<Field>)
    ensures Extends(h, Fold(h, fs))
    decreases |fs|
  {
    hide AddedField, Extends;
    if fs == [] {
      ExtendsSelf(h);
    } else {
      FoldExtends(AddedField(h, fs[0]), fs[1..]);
      AddedExtends(h, fs[0]);
      ExtendsTrans(h, AddedField(h, fs[0]), Fold(h, fs));
    }
  }

  lemma OneValue(h: Headers, k: string, v: string, w: string, r: Headers)
    requires Extends(AddedField(h, Field(k, v)), r) && Extends(AddedField(h, Field(k, w)), r)
    ensures v == w
  {
    hide CanonicalKey, Expand;
    var key := CanonicalKey(Expand(k));
    var had := if key in h then h[key] else [];
    assert (had + [v])[|had|] == v && (had + [w])[|had|] == w;
    assert r[key][|had|] == v && r[key][|had|] == w;
  }

  /** What is read for f when a name that starts with a blank follows: more colons than the value of f has. */
  lemma MergedValue(f: Field, a: string, b: string) returns (v: string, rest: string)
    requires ':' !in f.key && Foldable(f.key) && Foldable(f.value) && Foldable(a) && Continues(a)
    ensures Colons(v) > Colons(f.value)
    ensures forall h ::
      DecodedHeaders(FieldText(f) + (a + ([':'] + b)), h) == DecodedHeaders(rest, AddedField(h, Field(f.key, v)))
  {
    hide Folded, ContinuedLine, DecodedHeaders, AddedField, FeedsFold, Continues, Colons, Cut, TrimLeft;
    var line, tail := FieldLine(f), a + ([':'] + b);
    FieldLineFolds(f);
    ContinuedLineEnds(line, CRLF, tail);
    var (merged, left) := Folded(line, tail);
    var p := f.key + [':'];
    assert line == p + (" " + f.value);
    FoldedKeeps(p, line, tail);
    var w := merged[|p|..];
    assert merged == f.key + [':'] + w;
    CutAt(f.key, ':', w);
    v, rest := TrimLeft(w, " "), left;
    assert Colons(v) > Colons(f.value) by {
      FoldedTakes(line, a, b);
      TrimLeftColons(w, " ");
      ColonsOf(p, w);
      ColonsOf(p, " " + f.value);
      ColonsOf(" ", f.value);
    }
    var s := FieldText(f) + tail;
    assert s == line + CRLF + tail;
    forall h ensures DecodedHeaders(s, h) == DecodedHeaders(left, AddedField(h, Field(f.key, v))) {
      HeaderStep(s, h, merged, left, f.key, w);
    }
  }

  lemma MergedDiffers(f: Field, a: string, b: string, h: Headers)
    requires ':' !in f.key && Foldable(f.key) && Foldable(f.value) && Foldable(a) && Continues(a)
    ensures var r := DecodedHeaders(FieldText(f) + (a + ([':'] + b)), h);
      r.Ok? ==> !Extends(AddedField(h, f), r.value.0)
  {
    hide DecodedHeaders, AddedField, Foldable, Continues, Extends, FieldText;
    var v, rest := MergedValue(f, a, b);
    var r := DecodedHeaders(FieldText(f) + (a + ([':'] + b)), h);
    if r.Ok? && Extends(AddedField(h, f), r.value.0) {
      DecodedExtends(rest, AddedField(h, Field(f.key, v)));
      OneValue(h, f.key, v, f.value, r.value.0);
    }
  }

  // ---- Printed header sections, exactly ----

  predicate FieldParsed(f: Field) {
    NameParsed(f.key) && ValueParsed(f.value)
  }

  predicate NoFeedAtEnd(fs: seq<Field>) {
    forall f :: f in fs ==> !EndsInFeed(f.value)
  }

  /** A header line that ends with a bare line feed keeps it in its value. */
  lemma BareHeader(f: Field, tail: string, h: Headers)
    requires FieldParsed(f) && EndsInFeed(f.value) && !Continues(tail)
    ensures DecodedHeaders(FieldLine(f) + tail, h) == DecodedHeaders(tail, AddedField(h, f))
  {
    hide AddedField, ContinuedLine, Cut, TrimLeft, FeedsFold, DecodedHeaders, Continues;
    var line := FieldLine(f);
    FieldLineFolds(f);
    assert line + tail == line + "" + tail;
    ContinuedLineEnds(line, "", tail);
    FoldedNot(line, tail);
    assert line == f.key + [':'] + (" " + f.value);
    CutAt(f.key, ':', " " + f.value);
    LeadingBlankDropped(f.value);
    HeaderStep(line + tail, h, line, tail, f.key, " " + f.value);
  }

  lemma NoHeadersYet(x: string, h: Headers)
    ensures DecodedHeaders(CRLF + x, h) == Ok((h, x))
  {
    hide ContinuedLine;
    assert Ended("", CRLF) by { PlainFoldable(""); }
    ContinuedLineEnds("", CRLF, x);
    assert "" + CRLF + x == CRLF + x;
  }

  /** Printed, such a value leaves its CRLF as an empty line, which ends the section. */
  lemma FeedEnds(f: Field, tail: string, h: Headers)
    requires FieldParsed(f) && EndsInFeed(f.value)
    ensures DecodedHeaders(FieldText(f) + tail, h) == Ok((AddedField(h, f), tail))
  {
    hide AddedField, DecodedHeaders, FieldParsed, EndsInFeed;
    assert FieldText(f) + tail == FieldLine(f) + (CRLF + tail);
    BareHeader(f, CRLF + tail, h);
    NoHeadersYet(tail, AddedField(h, f));
  }

  lemma SectionStep(fs: seq<Field>, tail: string)
    requires fs != []
    ensures ConcatMap(FieldText, fs) + CRLF + tail == FieldText(fs[0]) + (ConcatMap(FieldText, fs[1..]) + CRLF + tail)
  {
    hide FieldText;
  }

  /**
    * Fields as a parser yields them, printed one after the other, are read back as they are if and only if no
    * value ends in a line feed and no name but the first starts with a blank.
    */
  lemma {:induction false} SectionExactly(fs: seq<Field>, tail: string, h: Headers)
    requires forall f :: f in fs ==> FieldParsed(f)
    ensures DecodedHeaders(ConcatMap(FieldText, fs) + CRLF + tail, h) == Ok((Fold(h, fs), tail))
      <==> NoFeedAtEnd(fs) && BlankOnlyFirst(fs)
    decreases |fs|
  {
    hide AddedField, ContinuedLine, ConcatMap, FieldText, DecodedHeaders, Continues, NameParsed, ValueParsed, Extends;
    var s := ConcatMap(FieldText, fs) + CRLF + tail;
    if fs == [] {
      HeadersReadBack(fs, tail, h);
    } else {
      var f := fs[0];
      var rest := ConcatMap(FieldText, fs[1..]) + CRLF + tail;
      SectionStep(fs, tail);
      assert f in fs && FieldParsed(f);
      if EndsInFeed(f.value) {
        FeedEnds(f, rest, h);
        assert |rest| > |tail|;
      } else {
        NextLineStarts(fs[1..], tail);
        if Continues(rest) {
          assert fs[1] in fs && FieldParsed(fs[1]);
          SectionStep(fs[1..], tail);
          var more := ConcatMap(FieldText, fs[2..]) + CRLF + tail;
          NextColon(fs[1], more);
          Named(f);
          Named(fs[1]);
          MergedDiffers(f, fs[1].key, " " + fs[1].value + CRLF + more, h);
          FoldExtends(AddedField(h, f), fs[1..]);
          assert !BlankOnlyFirst(fs);
        } else {
          Named(f);
          OneHeader(f, rest, h);
          assert forall i :: 0 <= i < |fs[1..]| ==> fs[1..][i] == fs[i + 1];
          SectionExactly(fs[1..], tail, AddedField(h, f));
          assert BlankOnlyFirst(fs) <==> BlankOnlyFirst(fs[1..]);
          assert NoFeedAtEnd(fs) <==> NoFeedAtEnd(fs[1..]);
        }
      }
    }
  }

  lemma Named(f: Field)
    requires FieldParsed(f)
    ensures ':' !in f.key && Foldable(f.key) && FeedsFold(f.value)
    ensures !EndsInFeed(f.value) ==> FieldOk(f)
  {
    hide FeedsFold;
  }

  lemma NextColon(g: Field, more: string)
    ensures FieldText(g) + more == g.key + ([':'] + (" " + g.value + CRLF + more))
  {
  }

  // ---- Messages ----

  /** A parsed start line is one that prints to the line it came from. */
  lemma StartLineParsed(line: string)
    requires DecodedStartLine(line).Ok?
    ensures StartOk(DecodedStartLine(line).value) && StartText(DecodedStartLine(line).value) == line
  {
    hide Atoi, IsMethod, Cut, StartOk;
    var sl := DecodedStartLine(line).value;
    var a := Cut(line, ' ');
    var b := Cut(a.after, ' ');
    assert line == a.before + " " + (b.before + " " + b.after);
    assert StartText(sl) == line;
    StartLineRoundTrip(sl);
  }

  lemma BodyBound(h: Headers, s: string)
    requires DecodedBody(h, s, true).Ok?
    ensures |DecodedBody(h, s, true).value.0| <= MAX_INT64
  {
    hide Atoi, TrimSpace;
  }

  lemma CSeqParsed(h: Headers)
    requires "CSeq" in h && CSeqOf(h).Ok?
    ensures IsMethod(CSeqOf(h).value.verb)
  {
    hide Atoi, Cut, IsMethod;
  }

  lemma PartsParsed(s: string)
    requires Decoded(s, true).Ok?
    ensures var m := Decoded(s, true).value.0;
      && m.start.Some? && StartOk(m.start.value) && HeadersParsed(m.headers) && |m.body| <= MAX_INT64
      && ("CSeq" in m.headers ==> IsMethod(m.cseq.verb))
  {
    hide DecodedStartLine, DecodedHeaders, CSeqOf, DecodedBody, Line, HeadersParsed, StartOk, IsMethod;
    var (line, rest) := Line(s);
    StartLineParsed(line);
    assert HeadersParsed(map[]) by { NoHeaders(); }
    HeadersAreParsed(rest, map[]);
    var (h, tail) := DecodedHeaders(rest, map[]).value;
    BodyBound(h, tail);
    if "CSeq" in h { CSeqParsed(h); }
  }

  lemma NoHeaders()
    ensures HeadersParsed(map[])
  {
  }

  // ---- Printed messages, exactly ----

  ghost predicate PrintedParsed(m: Message) {
    forall k :: k in PrintedKeys(m.headers) ==> HeaderParsed(k, m.headers[k])
  }

  lemma {:induction false} FieldsOfParsed(h: Headers, keys: seq<string>, f: Field)
    requires forall k :: k in keys ==> k in h && HeaderParsed(k, h[k])
    requires f in FieldsOf(h, keys)
    ensures Canonical(f.key) && FieldParsed(f) && f.key in keys && f.value in h[f.key]
  {
    hide Canonical, NameParsed, ValueParsed;
    if f in FieldsFor(keys[0], h[keys[0]]) {
      assert HeaderParsed(keys[0], h[keys[0]]);
    } else {
      FieldsOfParsed(h, keys[1..], f);
    }
  }

  lemma {:induction false} FieldsOfHas(h: Headers, keys: seq<string>, k: string, v: string)
    requires (forall x :: x in keys ==> x in h) && k in keys && v in h[k]
    ensures Field(k, v) in FieldsOf(h, keys)
  {
    if k == keys[0] {
      var i :| 0 <= i < |h[k]| && h[k][i] == v;
      assert FieldsFor(k, h[k])[i] == Field(k, v);
    } else {
      FieldsOfHas(h, keys[1..], k, v);
    }
  }

  lemma ValueOkParsed(k: string, v: string)
    requires KeyOk(k) && ValueOk(v)
    ensures FieldParsed(Field(k, v)) && !EndsInFeed(v)
  {
    hide Canonical, FeedsFold;
  }

  lemma FieldOfMessage(m: Message, f: Field)
    requires PrintedParsed(m) && IsMethod(m.cseq.verb) && |m.body| <= MAX_INT64 && f in Fields(m)
    ensures Canonical(f.key) && FieldParsed(f)
    ensures f !in HeaderFields(m) ==> !EndsInFeed(f.value)
  {
    hide Canonical, FieldParsed, IsMethod, KeyOk, ValueOk, FieldsOf, HeaderParsed;
    var keys := SortedKeys(PrintedKeys(m.headers));
    assert forall k :: k in keys ==> k in Elements(keys);
    if f in HeaderFields(m) {
      FieldsOfParsed(m.headers, keys, f);
    } else {
      PlainNamesOk();
      RegeneratedNamesCanonical();
      CSeqTextOk(m.cseq);
      LengthOk(|m.body|);
      ValueOkParsed(f.key, f.value);
    }
  }

  lemma StyledParsed(f: Field, compact: bool)
    requires FieldParsed(f)
    ensures FieldParsed(if compact then Compacted(f) else f)
  {
    hide CompactKey, NameParsed, ValueParsed;
    var k := CompactKey(f.key);
    if k != f.key { PlainName(k); }
  }

  predicate NoneEndsInFeed(m: Message) {
    forall k :: k in PrintedKeys(m.headers) ==> forall v :: v in m.headers[k] ==> !EndsInFeed(v)
  }

  lemma FeedsOfFields(m: Message)
    requires PrintedParsed(m)
    ensures NoFeedAtEnd(HeaderFields(m)) <==> NoneEndsInFeed(m)
  {
    hide HeaderParsed, EndsInFeed, FieldsOf, FieldParsed, Canonical;
    var h := m.headers;
    var keys := SortedKeys(PrintedKeys(h));
    assert forall k :: k in keys <==> k in Elements(keys);
    if NoFeedAtEnd(HeaderFields(m)) {
      forall k, v | k in PrintedKeys(h) && v in h[k] ensures !EndsInFeed(v) {
        FieldsOfHas(h, keys, k, v);
        assert Field(k, v) in HeaderFields(m);
      }
    }
    if NoneEndsInFeed(m) {
      forall f | f in HeaderFields(m) ensures !EndsInFeed(f.value) {
        FieldsOfParsed(h, keys, f);
      }
    }
  }

  lemma FeedsOfStyled(m: Message, compact: bool)
    requires PrintedParsed(m) && IsMethod(m.cseq.verb) && |m.body| <= MAX_INT64
    ensures NoFeedAtEnd(Styled(Fields(m), compact)) <==> NoFeedAtEnd(HeaderFields(m))
  {
    hide PrintedParsed, IsMethod, EndsInFeed, FieldParsed, Canonical, CompactKey, HeaderFields, CSeqText, Dec;
    var fs, gs := Fields(m), Styled(Fields(m), compact);
    assert forall i :: 0 <= i < |fs| ==> gs[i].value == fs[i].value;
    assert forall f :: f in HeaderFields(m) ==> f in fs;
    forall f | f in fs && f !in HeaderFields(m) ensures !EndsInFeed(f.value) {
      FieldOfMessage(m, f);
    }
    if NoFeedAtEnd(gs) {
      forall f | f in HeaderFields(m) ensures !EndsInFeed(f.value) {
        var i :| 0 <= i < |fs| && fs[i] == f;
        assert gs[i] in gs;
      }
    }
  }

  /** The header section of a message with names and values as a parser yields them. */
  lemma SectionOfMessage(m: Message, compact: bool, tail: string)
    requires PrintedParsed(m) && IsMethod(m.cseq.verb) && |m.body| <= MAX_INT64
    ensures DecodedHeaders(ConcatMap(FieldText, Styled(Fields(m), compact)) + CRLF + tail, map[])
         == Ok((Reparsed(m).headers, tail))
      <==> NoneEndsInFeed(m) && BlankOnlyFirst(HeaderFields(m))
  {
    hide DecodedHeaders, ConcatMap, Fields, HeaderFields, Fold, Reparsed, PrintedParsed, IsMethod, FieldParsed,
      Canonical, BlankOnlyFirst, NoFeedAtEnd, NoneEndsInFeed, Compacted, Keyed;
    var fs, gs := Fields(m), Styled(Fields(m), compact);
    forall f | f in fs ensures Canonical(f.key) && FieldParsed(f) {
      FieldOfMessage(m, f);
    }
    forall f | f in gs ensures FieldParsed(f) {
      var i :| 0 <= i < |gs| && gs[i] == f;
      assert fs[i] in fs;
      StyledParsed(fs[i], compact);
    }
    SectionExactly(gs, tail, map[]);
    FoldStyled(map[], fs, compact);
    ParsedKeyed(m);
    FoldMessage(m);
    FeedsOfStyled(m, compact);
    FeedsOfFields(m);
    StyledBlank(m, compact);
  }

  lemma ParsedKeyed(m: Message)
    requires PrintedParsed(m)
    ensures Keyed(m)
  {
    hide Canonical, NameParsed, ValueParsed;
    forall k | k in PrintedKeys(m.headers) ensures Canonical(k) && m.headers[k] != [] {
      assert HeaderParsed(k, m.headers[k]);
    }
  }

  /** With such names and values, this much is left of fitting the grammar. */
  lemma ParsedWellFormed(m: Message)
    requires m.start.Some? && PrintedParsed(m)
    ensures WellFormed(m) <==>
      && StartOk(m.start.value) && '\n' !in StartText(m.start.value) && NoneEndsInFeed(m)
      && BlankOnlyFirst(HeaderFields(m)) && IsMethod(m.cseq.verb) && |m.body| <= MAX_INT64
  {
    hide StartOk, StartText, IsMethod, Canonical, BlankOnlyFirst, HeaderFields, FeedsFold;
    forall k | k in PrintedKeys(m.headers)
      ensures HeaderOk(k, m.headers[k]) <==> forall v :: v in m.headers[k] ==> !EndsInFeed(v)
    {
      assert HeaderParsed(k, m.headers[k]);
      var vs := m.headers[k];
      assert forall v :: v in vs ==> ValueParsed(v);
      assert forall v :: v in vs ==> (ValueOk(v) <==> !EndsInFeed(v));
    }
  }

  lemma LineKeeps(a: string, x: string)
    requires Line(a + CRLF + x).0 == a
    ensures Line(a + CRLF + x).1 == if '\n' in a then CRLF + x else x
  {
    var s := a + CRLF + x;
    if '\n' in a {
      var i := IndexOf(a, '\n');
      assert s == a[..i] + ['\n'] + (a[i + 1..] + CRLF + x);
      IndexOfAt(a[..i], '\n', a[i + 1..] + CRLF + x);
      assert s[|a|..] == CRLF + x;
    } else {
      LineReadsBack(a, x);
    }
  }

  lemma WholeBody(h: Headers, s: string, body: string, tail: string)
    requires DecodedBody(h, s, true) == Ok((body, tail))
    ensures s == body + tail && |body| <= MAX_INT64
  {
    hide Atoi, TrimSpace;
  }

  lemma CSeqRegenerated(m: Message)
    requires CSeqOf(Reparsed(m).headers) == Ok(m.cseq)
    ensures IsMethod(m.cseq.verb)
  {
    hide Atoi, Cut, IsMethod, CSeqText, Dec;
  }

  lemma ReparsedParsed(m: Message)
    requires HeadersParsed(Reparsed(m).headers)
    ensures PrintedParsed(m)
  {
    hide HeaderParsed;
    ReparsedHeaders(m);
    forall k | k in PrintedKeys(m.headers) ensures HeaderParsed(k, m.headers[k]) {
      assert k in Reparsed(m).headers;
    }
  }

  /** What reading a printed message back as it is takes apart into. */
  lemma ReadBackParts(m: Message, s: string, tail: string)
    requires Decoded(s, true) == Ok((Reparsed(m), tail))
    ensures s != "" && m.start.Some? && DecodedStartLine(Line(s).0) == Ok(m.start.value)
    ensures DecodedHeaders(Line(s).1, map[]) == Ok((Reparsed(m).headers, m.body + tail))
    ensures IsMethod(m.cseq.verb) && |m.body| <= MAX_INT64 && PrintedParsed(m)
  {
    hide DecodedStartLine, DecodedHeaders, CSeqOf, DecodedBody, Line, HeadersParsed, IsMethod, PrintedParsed;
    var (h, left) := DecodedHeaders(Line(s).1, map[]).value;
    assert h == Reparsed(m).headers;
    CSeqRegenerated(m);
    WholeBody(h, left, m.body, tail);
    assert HeadersParsed(map[]) by { NoHeaders(); }
    HeadersAreParsed(Line(s).1, map[]);
    ReparsedParsed(m);
  }

  lemma ReadBackWellFormed(m: Message, compact: bool, tail: string)
    requires Decoded(Encoded(m, compact) + tail, true) == Ok((Reparsed(m), tail))
    ensures WellFormed(m)
  {
    hide Decoded, DecodedStartLine, DecodedHeaders, Line, StartOk, StartText, Fields, Styled, ConcatMap, IsMethod,
      PrintedParsed, Reparsed, WellFormed, NoneEndsInFeed, BlankOnlyFirst;
    var s := Encoded(m, compact) + tail;
    ReadBackParts(m, s, tail);
    var line := StartText(m.start.value);
    var section := ConcatMap(FieldText, Styled(Fields(m), compact));
    var rest := section + CRLF + (m.body + tail);
    assert s == line + CRLF + rest by { Framed(line, section, m.body, tail); }
    StartLineParsed(Line(s).0);
    LineKeeps(line, rest);
    if '\n' in line {
      NoHeadersYet(rest, map[]);
      assert false;
    }
    SectionOfMessage(m, compact, m.body + tail);
    ParsedWellFormed(m);
  }

  /**
    * The round trip, exactly: whatever follows it, a printed message reads back, with its two regenerated
    * headers, if and only if it fits the grammar.
    */
  lemma RoundTripExactly(m: Message, compact: bool, tail: string)
    ensures Decoded(Encoded(m, compact) + tail, true) == Ok((Reparsed(m), tail)) <==> WellFormed(m)
  {
    hide Decoded, Encoded, WellFormed, Reparsed;
    if WellFormed(m) { RoundTrip(m, compact, tail); }
    if Decoded(Encoded(m, compact) + tail, true) == Ok((Reparsed(m), tail)) { ReadBackWellFormed(m, compact, tail); }
  }

  // ---- Parsing, printing, parsing ----

  /**
    * The start line kept no line feed, CSeq was there, no value kept a line feed at its end, and no name but the first
    * starts with a blank.
    */
  ghost predicate Repeatable(m: Message) {
    && m.start.Some? && '\n' !in StartText(m.start.value) && "CSeq" in m.headers
    && NoneEndsInFeed(m) && BlankOnlyFirst(HeaderFields(m))
  }

  lemma NoVerb()
    ensures !IsMethod("")
  {
  }

  lemma CSeqThere(s: string)
    requires Decoded(s, true).Ok?
    ensures var m := Decoded(s, true).value.0; IsMethod(m.cseq.verb) <==> "CSeq" in m.headers
  {
    hide DecodedStartLine, DecodedHeaders, DecodedBody, Line, IsMethod, DecodedCSeq;
    NoVerb();
    var h := Decoded(s, true).value.0.headers;
    if "CSeq" in h { CSeqParsed(h); }
  }

  /**
    * Whatever octets a message was parsed from, printing it in either style and parsing it again loses nothing
    * if and only if it is repeatable.
    */
  lemma ParsePrintParse(s: string, compact: bool, tail: string)
    requires Decoded(s, true).Ok?
    ensures var m := Decoded(s, true).value.0;
      Decoded(Encoded(m, compact) + tail, true) == Ok((Reparsed(m), tail)) <==> Repeatable(m)
  {
    hide Decoded, Encoded, WellFormed, Dec, CSeqText, StartOk, StartText, IsMethod, HeadersParsed, NoneEndsInFeed,
      BlankOnlyFirst, Reparsed, HeaderFields;
    var m := Decoded(s, true).value.0;
    PartsParsed(s);
    assert PrintedParsed(m) by { AllParsed(m); }
    CSeqThere(s);
    ParsedWellFormed(m);
    RoundTripExactly(m, compact, tail);
  }

  lemma AllParsed(m: Message)
    requires HeadersParsed(m.headers)
    ensures PrintedParsed(m)
  {
    hide HeaderParsed;
  }

  /** Only the two regenerated headers can differ. */
  lemma ReparsedKeeps(m: Message)
    ensures Reparsed(m).start == m.start && Reparsed(m).cseq == m.cseq && Reparsed(m).body == m.body
    ensures forall k :: k != "CSeq" && k != "Content-Length" ==>
      (k in m.headers <==> k in Reparsed(m).headers) && (k in m.headers ==> m.headers[k] == Reparsed(m).headers[k])
  {
    hide Dec, CSeqText;
  }

  // ---- Texts that do not survive ----

  const START := Request("ACK", "u", "SIP/2.0")
  const CLOSING := Field("Content-Length", "0")

  lemma StartReads()
    ensures StartText(START) == "ACK u SIP/2.0" && DecodedStartLine("ACK u SIP/2.0") == Ok(START)
  {
    hide DecodedStartLine;
    assert StartText(START) == "ACK u SIP/2.0";
    StartLineRoundTrip(START);
  }

  lemma OneDigit()
    ensures Dec(0) == "0" && Dec(1) == "1"
  {
  }

  lemma PlainField(k: string, v: string)
    requires ':' !in k && '\n' !in k && '\n' !in v && (v == "" || v[0] != ' ')
    ensures FieldOk(Field(k, v))
  {
    hide Foldable;
    PlainFoldable(k);
    PlainFoldable(v);
  }

  lemma BareField()
    ensures Canonical("X") && FieldParsed(Field("X", "a\n")) && EndsInFeed("a\n")
  {
    hide MimeKey;
    MimeKeyIs("X", "X");
    PlainFoldable("X");
  }

  lemma ClosingReads(h: Headers)
    requires "Content-Length" !in h
    ensures DecodedHeaders(FieldText(CLOSING) + CRLF, h) == Ok((h["Content-Length" := ["0"]], ""))
    ensures DecodedBody(h["Content-Length" := ["0"]], "", true) == Ok(("", ""))
  {
    hide DecodedHeaders, FieldOk, Dec, Atoi, TrimSpace, Canonical, AddedField;
    OneDigit();
    PlainField("Content-Length", "0");
    OneHeader(CLOSING, CRLF, h);
    RegeneratedNamesCanonical();
    AddedFresh(h, "Content-Length", "0");
    assert CRLF + "" == CRLF;
    NoHeadersYet("", h["Content-Length" := ["0"]]);
    LengthOk(0);
  }

  /** A request without CSeq parses, and prints a CSeq line that does not. */
  lemma NoCSeqWitness(compact: bool, tail: string)
    ensures var r := Decoded("ACK u SIP/2.0\r\n" + (FieldText(CLOSING) + CRLF), true);
      && r == Ok((Message(Some(START), map["Content-Length" := ["0"]], CSeq(0, ""), ""), ""))
      && Decoded(Encoded(r.value.0, compact) + tail, true) != Ok((Reparsed(r.value.0), tail))
  {
    hide Decoded, Encoded, DecodedHeaders, DecodedStartLine, DecodedBody, Line, FieldText, Reparsed, NoneEndsInFeed,
      HeaderFields, BlankOnlyFirst;
    StartReads();
    var rest := FieldText(CLOSING) + CRLF;
    var s := "ACK u SIP/2.0" + CRLF + rest;
    LineReadsBack("ACK u SIP/2.0", rest);
    ClosingReads(map[]);
    DecodedParts(s, true, "ACK u SIP/2.0", rest, START, map["Content-Length" := ["0"]], "", CSeq(0, ""), "", "");
    assert s == "ACK u SIP/2.0\r\n" + rest;
    ParsePrintParse(s, compact, tail);
  }

  const CSEQ_LINE := Field("CSeq", "1 ACK")
  const BARE_LINE := Field("X", "a\n")
  const BARE_HEADERS: Headers := map["CSeq" := ["1 ACK"], "X" := ["a\n"], "Content-Length" := ["0"]]

  lemma BareSection()
    ensures DecodedHeaders(FieldText(CSEQ_LINE) + (FieldLine(BARE_LINE) + (FieldText(CLOSING) + CRLF)), map[])
         == Ok((BARE_HEADERS, ""))
    ensures DecodedBody(BARE_HEADERS, "", true) == Ok(("", ""))
  {
    hide DecodedHeaders, DecodedBody, FieldOk, FieldParsed, Canonical, AddedField;
    var last := FieldText(CLOSING) + CRLF;
    PlainField("CSeq", "1 ACK");
    OneHeader(CSEQ_LINE, FieldLine(BARE_LINE) + last, map[]);
    RegeneratedNamesCanonical();
    AddedFresh(map[], "CSeq", "1 ACK");
    var h1: Headers := map["CSeq" := ["1 ACK"]];
    BareField();
    BareHeader(BARE_LINE, last, h1);
    AddedFresh(h1, "X", "a\n");
    var h2 := h1["X" := ["a\n"]];
    ClosingReads(h2);
    assert h2["Content-Length" := ["0"]] == BARE_HEADERS;
  }

  lemma BareCSeq()
    ensures CSeqOf(BARE_HEADERS) == Ok(CSeq(1, "ACK"))
  {
    hide DecodedCSeq, Dec;
    OneDigit();
    assert CSeqText(CSeq(1, "ACK")) == "1 ACK";
    CSeqTextOk(CSeq(1, "ACK"));
  }

  /** A header line that ends with a bare line feed parses, and its value then ends the printed section early. */
  lemma BareFeedWitness(compact: bool, tail: string)
    ensures var r := Decoded("ACK u SIP/2.0\r\nCSeq: 1 ACK\r\nX: a\n" + (FieldText(CLOSING) + CRLF), true);
      && r == Ok((Message(Some(START), BARE_HEADERS, CSeq(1, "ACK"), ""), ""))
      && Decoded(Encoded(r.value.0, compact) + tail, true) != Ok((Reparsed(r.value.0), tail))
  {
    hide Decoded, Encoded, DecodedHeaders, DecodedStartLine, DecodedBody, Line, FieldText, FieldLine, Reparsed, CSeqOf,
      HeaderFields, BlankOnlyFirst, PrintedKeys;
    var last := FieldText(CLOSING) + CRLF;
    var rest := FieldText(CSEQ_LINE) + (FieldLine(BARE_LINE) + last);
    var s := "ACK u SIP/2.0" + CRLF + rest;
    StartReads();
    LineReadsBack("ACK u SIP/2.0", rest);
    BareSection();
    BareCSeq();
    DecodedParts(s, true, "ACK u SIP/2.0", rest, START, BARE_HEADERS, "", CSeq(1, "ACK"), "", "");
    assert s == "ACK u SIP/2.0\r\nCSeq: 1 ACK\r\nX: a\n" + last by { BareText(last); }
    assert !NoneEndsInFeed(Message(Some(START), BARE_HEADERS, CSeq(1, "ACK"), "")) by { BareEnds(); }
    ParsePrintParse(s, compact, tail);
  }

  lemma BareText(last: string)
    ensures "ACK u SIP/2.0" + CRLF + (FieldText(CSEQ_LINE) + (FieldLine(BARE_LINE) + last))
         == "ACK u SIP/2.0\r\nCSeq: 1 ACK\r\nX: a\n" + last
  {
    var a, b, c := "ACK u SIP/2.0\r\n", FieldText(CSEQ_LINE), FieldLine(BARE_LINE);
    assert a == "ACK u SIP/2.0" + CRLF && b == "CSeq: 1 ACK\r\n" && c == "X: a\n";
    AssocTail(a, b, c, last);
    assert a + b + c == "ACK u SIP/2.0\r\nCSeq: 1 ACK\r\nX: a\n";
  }

  lemma BareEnds()
    ensures !NoneEndsInFeed(Message(Some(START), BARE_HEADERS, CSeq(1, "ACK"), ""))
  {
    assert "X" in PrintedKeys(BARE_HEADERS) && "a\n" in BARE_HEADERS["X"] && EndsInFeed("a\n");
  }
}
