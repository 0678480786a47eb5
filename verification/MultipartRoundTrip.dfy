/**
  Parsing undoes printing: bodies laid out per section 5.1.1 of RFC 2046 and section 4.2 of RFC 7578
  come back as the parts they were printed from.
 */
module MultipartRoundTrip {
  import opened Decimal
  import opened TextSearch
  import opened Multipart

  /** A header value in quotes or without. */
  datatype Value = Quoted(text: string) | Plain(text: string)

  /** `more` is the text of further header lines, such as CRLF and a Content-Type line. */
  datatype Part = Part(name: Value, filename: Option<Value>, more: string, data: string)

  const LEAD := "Content-Disposition: form-data; "

  function Quote(v: Value): string {
    if v.Quoted? then "\"" else ""
  }

  function Spell(v: Value): string {
    Quote(v) + v.text + Quote(v)
  }

  function FilenameParameter(p: Part): string {
    if p.filename.Some? then "; filename=" + Spell(p.filename.value) else ""
  }

  function HeaderOf(p: Part): string {
    LEAD + "name=" + Spell(p.name) + FilenameParameter(p) + p.more
  }

  /** A quoted value has no quote in it; one without quotes has no separator and does not start with one. */
  predicate ValueOk(v: Value) {
    match v
    case Quoted(t) => '"' !in t && '\r' !in t
    case Plain(t) => (forall i :: 0 <= i < |t| ==> t[i] !in SEPARATORS) && (t != "" ==> t[0] != '"')
  }

  predicate Separated(rest: string) {
    rest == "" || rest[0] in SEPARATORS
  }

  /** The last value of the first header line. */
  function LastValue(p: Part): Value {
    if p.filename.Some? then p.filename.value else p.name
  }

  /** What may be printed: well-formed values, the last one set off from what follows; nothing before the
      real file name that reads as one; no blank line inside the header; no delimiter inside the data. */
  ghost predicate Printable(p: Part, delim: string) {
    && ValueOk(p.name) && (p.filename.Some? ==> ValueOk(p.filename.value))
    && (LastValue(p).Plain? ==> Separated(p.more))
    && (p.filename.Some? ==> Find(p.name.text, "filename", 0).None?)
    && (p.filename.None? ==> Find(p.name.text, "filename=", 0).None? && Find(p.more, "filename", 0).None?)
    && Find(p.more + BLANK, BLANK, 0) == Some(|p.more|)
    && Find(p.data, delim, 0).None?
  }

  function Print(parts: seq<Part>, delim: string, epilogue: string): string {
    if parts == [] then delim + "--" + epilogue
    else delim + CRLF + HeaderOf(parts[0]) + BLANK + parts[0].data + CRLF + Print(parts[1..], delim, epilogue)
  }

  // ----- header values -----

  lemma QuotedRead(a: string, key: string, v: string, rest: string)
    requires '"' !in v
    requires Find(a + key + "=\"" + v + "\"" + rest, key, 0) == Some(|a|)
    ensures ExtractValue(a + key + "=\"" + v + "\"" + rest, key) == v
  {
    hide Find, At;
    var pre := a + key + "=\"";
    var s := v + ['"'] + rest;
    var h := a + key + "=\"" + v + "\"" + rest;
    assert h == pre + s;
    assert h[|a| + |key|] == pre[|a| + |key|] == '=' && h[|a| + |key| + 1] == pre[|a| + |key| + 1] == '"';
    FindShift(pre, s, ['"'], 0);
    FindChar(v, '"', rest);
    assert Find(h, "\"", |pre|) == Some(|pre| + |v|) by { assert "\"" == ['"']; }
    assert h[|pre|..|pre| + |v|] == v;
  }

  /** A value without quotes is read up to the first separator or the end. */
  lemma PlainRead(a: string, key: string, v: string, rest: string)
    requires ValueOk(Plain(v)) && Separated(rest)
    requires Find(a + key + "=" + v + rest, key, 0) == Some(|a|)
    ensures ExtractValue(a + key + "=" + v + rest, key) == v
  {
    hide Find, At, FindFirstOf;
    var h, start := a + key + "=" + v + rest, |a| + |key| + 1;
    assert h[|a| + |key|] == '=';
    assert forall i :: 0 <= i < |v| ==> h[start + i] == v[i];
    assert rest != "" ==> h[start + |v|] == rest[0];
    match FindFirstOf(h, SEPARATORS, start) {
      case None => assert h[start..] == v;
      case Some(end) => assert h[start..start + |v|] == v;
    }
  }

  lemma ValueRead(a: string, key: string, v: Value, rest: string)
    requires ValueOk(v) && (v.Plain? ==> Separated(rest))
    requires Find(a + key + "=" + Spell(v) + rest, key, 0) == Some(|a|)
    ensures ExtractValue(a + key + "=" + Spell(v) + rest, key) == v.text
  {
    hide Find, ExtractValue, ValueOk;
    match v
    case Quoted(t) =>
      assert ValueOk(v);
      NoQuoteInside(v);
      assert a + key + "=" + Spell(v) + rest == a + key + "=\"" + t + "\"" + rest;
      QuotedRead(a, key, t, rest);
    case Plain(t) =>
      assert Spell(v) == t;
      PlainRead(a, key, t, rest);
  }

  lemma NoQuoteInside(v: Value)
    requires ValueOk(v) && v.Quoted?
    ensures '"' !in v.text
  {
  }

  /** Nothing is read when the key does not occur, when its first occurrence is not followed by an equals
      sign, and when a quote is not closed. */
  lemma NothingRead(header: string, key: string, i: nat)
    ensures (forall j: nat :: !At(header, key, j)) ==> ExtractValue(header, key) == ""
    ensures Find(header, key, 0) == Some(i) && (i + |key| == |header| || header[i + |key|] != '=') ==>
              ExtractValue(header, key) == ""
    ensures Find(header, key, 0) == Some(i) && i + |key| + 2 <= |header| && header[i + |key|] == '=' &&
            header[i + |key| + 1] == '"' && '"' !in header[i + |key| + 2..] ==>
              ExtractValue(header, key) == ""
  {
    hide Find, FindFirstOf, At;
    if Find(header, key, 0) == Some(i) && i + |key| + 2 <= |header| && '"' !in header[i + |key| + 2..] {
      NoQuoteFound(header, i + |key| + 2);
    }
  }

  lemma NoQuoteFound(s: string, from: nat)
    requires from <= |s| && '"' !in s[from..]
    ensures Find(s, "\"", from) == None
  {
    forall j: nat | j >= from ensures !At(s, "\"", j) {
      if j < |s| { assert s[from..][j - from] == s[j]; }
    }
  }

  /** Neither word starts inside the fixed text. */
  lemma LeadClean(j: nat)
    requires j < |LEAD| + 5
    ensures var a := LEAD + "name=";
            && (a[j] == 'n' && j < |LEAD| ==> a[j + 1] != 'a')
            && (a[j] == 'f' ==> j + 1 < |a| && a[j + 1] != 'i')
  {
  }

  lemma NameFound(p: Part)
    ensures Find(HeaderOf(p), "name", 0) == Some(|LEAD|)
  {
    var h, a := HeaderOf(p), LEAD + "name=";
    var rest := Spell(p.name) + FilenameParameter(p) + p.more;
    assert h == a + rest;
    hide HeaderOf;
    assert h[|LEAD|..|LEAD| + 4] == a[|LEAD|..|LEAD| + 4] == "name";
    forall j: nat | j < |LEAD| ensures !At(h, "name", j) {
      LeadClean(j);
      assert h[j] == a[j] && h[j + 1] == a[j + 1];
      if At(h, "name", j) { AtChar(h, "name", j, 0); AtChar(h, "name", j, 1); }
    }
    FindIs(h, "name", 0, |LEAD|);
  }

  lemma NameExtracted(p: Part, delim: string)
    requires Printable(p, delim)
    ensures ExtractValue(HeaderOf(p), "name") == p.name.text
  {
    NameFound(p);
    hide LEAD, Find, Spell, ValueOk;
    var rest := FilenameParameter(p) + p.more;
    NameHeader(LEAD, Spell(p.name), FilenameParameter(p), p.more);
    if p.filename.Some? { assert rest[0] == ';'; } else { assert rest == p.more; }
    ValueRead(LEAD, "name", p.name, rest);
  }

  lemma NameHeader(a: string, b: string, c: string, d: string)
    ensures a + "name=" + b + c + d == a + "name" + "=" + b + (c + d)
  {
    assert "name" + "=" == "name=";
    assert a + "name=" + b + c + d == a + "name=" + b + (c + d);
    assert a + "name" + "=" == a + "name=";
  }

  /** Everything up to the text of the name, and everything after it. */
  function Front(p: Part): string {
    LEAD + "name=" + Quote(p.name)
  }

  function Rest(p: Part): string {
    Quote(p.name) + FilenameParameter(p) + p.more
  }

  lemma HeaderSplit(p: Part)
    ensures HeaderOf(p) == Front(p) + p.name.text + Rest(p)
  {
    hide LEAD, FilenameParameter;
    Regrouped(LEAD + "name=", Quote(p.name), p.name.text, FilenameParameter(p), p.more);
  }

  lemma Regrouped(a: string, q: string, t: string, c: string, d: string)
    ensures a + (q + t + q) + c + d == a + q + t + (q + c + d)
  {
  }

  /** Characters that end a name; none of them is a letter. */
  predicate Ends(rest: string) {
    rest == "" || rest[0] in "\"; \r\n"
  }

  lemma NameEnds(p: Part, delim: string)
    requires Printable(p, delim)
    ensures Ends(Rest(p))
  {
    hide Find, LEAD;
    match p.name
    case Quoted(_) => assert Rest(p)[0] == '"';
    case Plain(_) => if p.filename.Some? { assert Rest(p)[0] == ';'; } else { assert Rest(p) == p.more; }
  }

  lemma FirstLetters(h: string, j: nat)
    requires At(h, "filename", j)
    ensures j + 1 < |h| && h[j] == 'f' && h[j + 1] == 'i'
  {
    AtChar(h, "filename", j, 0);
    AtChar(h, "filename", j, 1);
  }

  lemma NotInFront(a: string, t: string, j: nat)
    requires a == LEAD + "name=" || a == LEAD + "name=" + "\""
    requires j < |a|
    ensures !At(a + t, "filename", j)
  {
    hide At;
    var h, lead := a + t, LEAD + "name=";
    assert h[j] == a[j] && (j + 1 < |a| ==> h[j + 1] == a[j + 1]);
    if j < |lead| {
      LeadClean(j);
      assert a[j] == lead[j] && (j + 1 < |lead| ==> a[j + 1] == lead[j + 1]);
    }
    if At(h, "filename", j) { FirstLetters(h, j); }
  }

  lemma NotAcross(name: string, rest: string, i: nat)
    requires Ends(rest) && i <= |name| && At(name + rest, "filename", i)
    ensures At(name, "filename", i)
  {
    var h, q := name + rest, |name|;
    if rest != "" {
      assert h[q] == rest[0];
      if i <= q < i + 8 { AtChar(h, "filename", i, q - i); }
    }
    AtAppend(name, rest, "filename", i);
  }

  /** The word "filename" occurs before the end of the name only inside the name. */
  lemma FilenameBefore(a: string, name: string, rest: string, j: nat)
    requires a == LEAD + "name=" || a == LEAD + "name=" + "\""
    requires Ends(rest) && j <= |a| + |name| && At(a + name + rest, "filename", j)
    ensures |a| <= j && At(name, "filename", j - |a|)
  {
    hide At, Ends, LEAD;
    assert a + name + rest == a + (name + rest);
    if j < |a| { NotInFront(a, name + rest, j); }
    AtShift(a, name + rest, "filename", j - |a|);
    NotAcross(name, rest, j - |a|);
  }

  lemma FrontIs(p: Part)
    ensures Front(p) == LEAD + "name=" || Front(p) == LEAD + "name=" + "\""
  {
    assert LEAD + "name=" + "" == LEAD + "name=";
  }

  lemma FilenameExtracted(p: Part, delim: string)
    requires Printable(p, delim)
    ensures ExtractValue(HeaderOf(p), "filename") == if p.filename.Some? then p.filename.value.text else ""
  {
    if p.filename.Some? {
      RealFilename(p, delim);
    } else {
      NoFilename(p, delim);
    }
  }

  /** What precedes the file name parameter. */
  function BeforeFilename(p: Part): string {
    LEAD + "name=" + Spell(p.name) + "; "
  }

  lemma FilenameFound(p: Part, delim: string)
    requires Printable(p, delim) && p.filename.Some?
    ensures HeaderOf(p) == BeforeFilename(p) + "filename" + "=" + Spell(p.filename.value) + p.more
    ensures Find(HeaderOf(p), "filename", 0) == Some(|BeforeFilename(p)|)
  {
    FilenameHeader(p);
    hide Find, At, HeaderOf, BeforeFilename, Printable;
    forall j: nat | j < |BeforeFilename(p)| ensures !At(HeaderOf(p), "filename", j) { NotBefore(p, delim, j); }
    FindIs(HeaderOf(p), "filename", 0, |BeforeFilename(p)|);
  }

  lemma FilenameHeader(p: Part)
    requires p.filename.Some?
    ensures HeaderOf(p) == BeforeFilename(p) + "filename" + "=" + Spell(p.filename.value) + p.more
    ensures At(HeaderOf(p), "filename", |BeforeFilename(p)|)
  {
    hide LEAD, At, Spell;
    var a, v := BeforeFilename(p), Spell(p.filename.value);
    SplitAtFilename(LEAD + "name=" + Spell(p.name), v, p.more);
    WordAt(a, "filename", "=" + v + p.more);
    assert a + "filename" + ("=" + v + p.more) == a + "filename" + "=" + v + p.more;
  }

  lemma SplitAtFilename(a: string, v: string, more: string)
    ensures a + ("; filename=" + v) + more == a + "; " + "filename" + "=" + v + more
  {
    assert "; filename=" == "; " + "filename" + "=";
    assert a + ("; filename=" + v) + more == a + "; filename=" + (v + more);
    assert a + "; " + "filename" + "=" + v + more == a + ("; " + "filename" + "=") + (v + more);
  }

  lemma WordAt(a: string, w: string, b: string)
    ensures At(a + w + b, w, |a|)
  {
    assert (a + w + b)[|a|..|a| + |w|] == w;
  }

  lemma NotBefore(p: Part, delim: string, j: nat)
    requires Printable(p, delim) && p.filename.Some? && j < |BeforeFilename(p)|
    ensures !At(HeaderOf(p), "filename", j)
  {
    hide Find, At, HeaderOf, LEAD, Spell, Rest, Ends, ValueOk;
    HeaderSplit(p);
    NameEnds(p, delim);
    FrontIs(p);
    if At(HeaderOf(p), "filename", j) {
      if j <= |Front(p)| + |p.name.text| {
        FilenameBefore(Front(p), p.name.text, Rest(p), j);
      } else {
        AtChar(HeaderOf(p), "filename", j, 0);
        SeparatorBefore(p, j);
      }
    }
  }

  lemma SeparatorBefore(p: Part, j: nat)
    requires p.filename.Some? && |Front(p)| + |p.name.text| < j < |BeforeFilename(p)|
    ensures j < |HeaderOf(p)| && HeaderOf(p)[j] != 'f'
  {
    hide LEAD, HeaderOf, At;
    FilenameHeader(p);
    var a := BeforeFilename(p);
    assert a == Front(p) + p.name.text + Quote(p.name) + "; ";
    assert a[|a| - 2] == ';' && a[|a| - 1] == ' ';
    assert HeaderOf(p)[j] == a[j];
  }

  lemma RealFilename(p: Part, delim: string)
    requires Printable(p, delim) && p.filename.Some?
    ensures ExtractValue(HeaderOf(p), "filename") == p.filename.value.text
  {
    FilenameFound(p, delim);
    hide HeaderOf, BeforeFilename, Find, Spell, ValueOk;
    ValueRead(BeforeFilename(p), "filename", p.filename.value, p.more);
  }

  lemma NoFilename(p: Part, delim: string)
    requires Printable(p, delim) && p.filename.None?
    ensures ExtractValue(HeaderOf(p), "filename") == ""
  {
    hide HeaderOf, Find, At, Printable;
    match Find(HeaderOf(p), "filename", 0) {
      case None =>
      case Some(j) =>
        OnlyInName(p, delim, j);
        NotFollowed(p, delim, j);
    }
  }

  /** In a part without a file name, the word occurs inside the name only. */
  lemma OnlyInName(p: Part, delim: string, j: nat)
    requires Printable(p, delim) && p.filename.None? && At(HeaderOf(p), "filename", j)
    ensures |Front(p)| <= j && At(p.name.text, "filename", j - |Front(p)|)
  {
    hide HeaderOf, Find, At, LEAD, Ends, ValueOk, Front;
    HeaderSplit(p);
    NameEnds(p, delim);
    FrontIs(p);
    if j <= |Front(p)| + |p.name.text| {
      FilenameBefore(Front(p), p.name.text, Rest(p), j);
    } else {
      var b := Front(p) + p.name.text + Quote(p.name);
      assert HeaderOf(p) == b + p.more;
      AtShift(b, p.more, "filename", j - |b|);
      assert false;
    }
  }

  lemma NotFollowed(p: Part, delim: string, j: nat)
    requires Printable(p, delim) && p.filename.None?
    requires |Front(p)| <= j && At(p.name.text, "filename", j - |Front(p)|)
    ensures j + 8 >= |HeaderOf(p)| || HeaderOf(p)[j + 8] != '='
  {
    hide Find, LEAD, HeaderOf, ValueOk, Front;
    var i := j - |Front(p)|;
    HeaderSplit(p);
    NameEnds(p, delim);
    InHeader(Front(p), p.name.text, Rest(p), i + 8);
    if i + 8 < |p.name.text| { NoEqualsAfter(p.name.text, i); }
  }

  lemma InHeader(a: string, name: string, rest: string, k: nat)
    requires k <= |name|
    ensures |a| + k < |a + name + rest| ==>
              (a + name + rest)[|a| + k] == (if k < |name| then name[k] else (name + rest)[k])
    ensures k == |name| && |a| + k < |a + name + rest| ==> rest != "" && (a + name + rest)[|a| + k] == rest[0]
  {
  }

  lemma NoEqualsAfter(s: string, i: nat)
    requires At(s, "filename", i) && i + 8 < |s| && !At(s, "filename=", i)
    ensures s[i + 8] != '='
  {
    assert s[i..i + 9] == s[i..i + 8] + [s[i + 8]];
    assert "filename" + ['='] == "filename=";
  }

  // ----- finding the pieces -----

  /** The header's first line. */
  function FirstLine(p: Part): string {
    LEAD + "name=" + Spell(p.name) + FilenameParameter(p)
  }

  lemma FirstLineStarts(p: Part)
    ensures HeaderOf(p) == FirstLine(p) + p.more
  {
  }

  lemma FirstLineClean(p: Part, delim: string)
    requires Printable(p, delim)
    ensures '\r' !in FirstLine(p)
  {
    hide Find, LEAD, At, BLANK, Spell, ValueOk;
    LiteralsClean();
    SpelledClean(p.name);
    if p.filename.Some? { SpelledClean(p.filename.value); }
    CleanJoin(LEAD + "name=", Spell(p.name), "");
    assert '\r' !in FilenameParameter(p) by {
      if p.filename.Some? { CleanJoin("; filename=", Spell(p.filename.value), ""); }
    }
    CleanJoin(LEAD + "name=" + Spell(p.name), FilenameParameter(p), "");
  }

  lemma SpelledClean(v: Value)
    requires ValueOk(v)
    ensures '\r' !in Spell(v)
  {
    assert '\r' in SEPARATORS;
    if v.Plain? { forall i | 0 <= i < |v.text| ensures v.text[i] != '\r' { assert v.text[i] !in SEPARATORS; } }
  }

  lemma CleanJoin(a: string, b: string, c: string)
    requires '\r' !in a && '\r' !in b && '\r' !in c
    ensures '\r' !in a + b + c && '\r' !in a + b
  {
  }

  lemma LiteralsClean()
    ensures '\r' !in LEAD + "name=" && '\r' !in "; filename="
  {
  }

  lemma BlankFound(p: Part, delim: string, rest: string)
    requires Printable(p, delim)
    ensures Find(HeaderOf(p) + BLANK + rest, BLANK, 0) == Some(|HeaderOf(p)|)
  {
    hide HeaderOf, Find, FirstLine;
    FirstLineClean(p, delim);
    FirstLineStarts(p);
    var line, t := FirstLine(p), p.more + BLANK;
    var s := HeaderOf(p) + BLANK + rest;
    assert s == line + (t + rest);
    forall i: nat | i <= |p.more| ensures At(s, BLANK, |line| + i) <==> At(t, BLANK, i) {
      AtShift(line, t + rest, BLANK, i);
      AtAppend(t, rest, BLANK, i);
    }
    forall j: nat | j < |HeaderOf(p)| ensures !At(s, BLANK, j) {
      if j < |line| {
        assert s[j] == line[j];
        if At(s, BLANK, j) { AtChar(s, BLANK, j, 0); }
      } else {
        assert !At(t, BLANK, j - |line|);
      }
    }
    FindIs(s, BLANK, 0, |HeaderOf(p)|);
  }

  /** A delimiter without line breaks is next met after the data and its line break. */
  lemma DelimiterFound(data: string, delim: string, rest: string)
    requires delim != [] && '\r' !in delim && '\n' !in delim
    requires Find(data, delim, 0).None? && delim <= rest
    ensures Find(data + CRLF + rest, delim, 0) == Some(|data| + 2)
  {
    hide Find;
    var s := data + CRLF + rest;
    assert s[|data|] == '\r' && s[|data| + 1] == '\n';
    assert s[|data| + 2..|data| + 2 + |delim|] == rest[..|delim|] == delim;
    forall j: nat | j < |data| + 2 ensures !At(s, delim, j) {
      if At(s, delim, j) {
        if j + |delim| <= |data| {
          assert s == data + (CRLF + rest);
          AtAppend(data, CRLF + rest, delim, j);
        } else if j <= |data| {
          AtChar(s, delim, j, |data| - j);
        } else {
          AtChar(s, delim, j, 0);
        }
      }
    }
    FindIs(s, delim, 0, |data| + 2);
  }

  lemma PrintStarts(parts: seq<Part>, delim: string, epilogue: string)
    ensures delim <= Print(parts, delim, epilogue)
  {
  }

  /** The hop over one printed part. */
  lemma HopPrinted(pre: string, p: Part, delim: string, rest: string)
    requires delim != [] && '\r' !in delim && '\n' !in delim && Printable(p, delim) && delim <= rest
    ensures var body := pre + (delim + CRLF + HeaderOf(p) + BLANK + p.data + CRLF + rest);
            var start := |pre| + |delim| + 2 + |HeaderOf(p)| + 4;
            && HopFrom(body, delim, |pre|) == Found(RawPart(HeaderOf(p), start, start + |p.data| + 2))
            && DataOf(body, start, start + |p.data| + 2) == p.data
  {
    hide HeaderOf, Printable, Find, At, HopFrom;
    var h, d := HeaderOf(p), p.data;
    var headerStart := |pre| + |delim| + 2;
    Slices(pre, delim, h, d, rest);
    BlankInBody(pre, p, delim, rest);
    DelimiterInBody(pre, p, delim, rest);
    HopIs(pre + (delim + CRLF + h + BLANK + d + CRLF + rest), delim, |pre|, headerStart + |h|,
          headerStart + |h| + 4 + |d| + 2);
  }

  lemma BlankInBody(pre: string, p: Part, delim: string, rest: string)
    requires Printable(p, delim)
    ensures var h := HeaderOf(p);
            var headerStart := |pre| + |delim| + 2;
            Find(pre + (delim + CRLF + h + BLANK + p.data + CRLF + rest), BLANK, headerStart) == Some(headerStart + |h|)
  {
    hide HeaderOf, Printable, Find, At;
    var h, d := HeaderOf(p), p.data;
    BlankFound(p, delim, d + CRLF + rest);
    FindShift(pre + delim + CRLF, h + BLANK + (d + CRLF + rest), BLANK, 0);
    Slices(pre, delim, h, d, rest);
  }

  lemma DelimiterInBody(pre: string, p: Part, delim: string, rest: string)
    requires delim != [] && '\r' !in delim && '\n' !in delim && Printable(p, delim) && delim <= rest
    ensures var h := HeaderOf(p);
            var start := |pre| + |delim| + 2 + |h| + 4;
            Find(pre + (delim + CRLF + h + BLANK + p.data + CRLF + rest), delim, start) == Some(start + |p.data| + 2)
  {
    hide HeaderOf, Printable, Find, At, CRLF, BLANK;
    NoDelimiter(p, delim);
    DelimiterFound(p.data, delim, rest);
    FindShift(pre + delim + CRLF + HeaderOf(p) + BLANK, p.data + CRLF + rest, delim, 0);
    Regroup(pre, delim, HeaderOf(p), p.data, rest);
  }

  lemma Regroup(pre: string, delim: string, h: string, d: string, rest: string)
    ensures pre + (delim + CRLF + h + BLANK + d + CRLF + rest) == (pre + delim + CRLF + h + BLANK) + (d + CRLF + rest)
    ensures |pre + delim + CRLF + h + BLANK| == |pre| + |delim| + 2 + |h| + 4
  {
  }

  lemma HopIs(body: string, delim: string, pos: nat, headerEnd: nat, next: nat)
    requires delim != [] && At(body, delim, pos) && pos + |delim| + 2 <= |body|
    requires body[pos + |delim|] == '\r' && body[pos + |delim| + 1] == '\n'
    requires Find(body, BLANK, pos + |delim| + 2) == Some(headerEnd)
    requires Find(body, delim, headerEnd + 4) == Some(next)
    ensures HopFrom(body, delim, pos) == Found(RawPart(body[pos + |delim| + 2..headerEnd], headerEnd + 4, next))
  {
    hide Find, At;
    FindIs(body, delim, pos, pos);
    NotEnd(body, delim, pos);
  }

  lemma NotEnd(body: string, delim: string, pos: nat)
    requires pos + |delim| < |body| && body[pos + |delim|] == '\r'
    ensures !At(body, delim + "--", pos)
  {
    if At(body, delim + "--", pos) { AtChar(body, delim + "--", pos, |delim|); }
  }

  lemma NoDelimiter(p: Part, delim: string)
    requires Printable(p, delim)
    ensures Find(p.data, delim, 0).None?
  {
  }

  lemma Slices(pre: string, delim: string, h: string, d: string, rest: string)
    ensures var body := pre + (delim + CRLF + h + BLANK + d + CRLF + rest);
            var headerStart := |pre| + |delim| + 2;
            var start := headerStart + |h| + 4;
            && body == (pre + delim + CRLF) + (h + BLANK + (d + CRLF + rest))
            && body == (pre + delim + CRLF + h + BLANK) + (d + CRLF + rest)
            && body == (pre + delim + CRLF + h + BLANK + d + CRLF) + rest
            && At(body, delim, |pre|)
            && body[|pre| + |delim|] == '\r' && body[|pre| + |delim| + 1] == '\n'
            && body[headerStart..headerStart + |h|] == h
            && body[start..start + |d|] == d
            && body[start + |d|] == '\r' && body[start + |d| + 1] == '\n'
  {
    var body := pre + (delim + CRLF + h + BLANK + d + CRLF + rest);
    assert body[|pre|..|pre| + |delim|] == delim;
  }

  // ----- whole bodies -----

  /** The form that the parts describe, one after the other. */
  function Described(parts: seq<Part>, form: Form): Form {
    if parts == [] then form else Described(parts[1..], Describe(parts[0], form))
  }

  function Describe(p: Part, form: Form): Form {
    if IsFile(p) then form.(filename := p.filename.value.text, content := p.data)
    else if p.name.text != "" then form.(params := form.params[p.name.text := p.data])
    else form
  }

  predicate IsFile(p: Part) {
    p.filename.Some? && p.filename.value.text != ""
  }

  ghost predicate AllPrintable(parts: seq<Part>, delim: string) {
    forall i :: 0 <= i < |parts| ==> Printable(parts[i], delim)
  }

  lemma AddPrinted(p: Part, delim: string, form: Form)
    requires Printable(p, delim)
    ensures AddPart(form, HeaderOf(p), p.data) == Describe(p, form)
  {
    NameExtracted(p, delim);
    FilenameExtracted(p, delim);
    hide ExtractValue, HeaderOf, Find;
  }

  lemma {:induction false} FormPrinted(pre: string, parts: seq<Part>, delim: string, epilogue: string, form: Form)
    requires delim != [] && '\r' !in delim && '\n' !in delim && AllPrintable(parts, delim)
    ensures FormFrom(pre + Print(parts, delim, epilogue), delim, |pre|, form) == Described(parts, form)
    decreases |parts|
  {
    hide FormFrom, HeaderOf, Printable, DataOf, HopFrom, Describe, AddPart;
    var body := pre + Print(parts, delim, epilogue);
    FormStep(body, delim, |pre|, form);
    if parts == [] {
      HopEnd(pre, delim, epilogue);
    } else {
      var p, rest := parts[0], Print(parts[1..], delim, epilogue);
      PrintStarts(parts[1..], delim, epilogue);
      HopPrinted(pre, p, delim, rest);
      var pre' := pre + delim + CRLF + HeaderOf(p) + BLANK + p.data + CRLF;
      assert body == pre' + rest;
      AddPrinted(p, delim, form);
      FormPrinted(pre', parts[1..], delim, epilogue, Describe(p, form));
    }
  }

  lemma HopEnd(pre: string, delim: string, epilogue: string)
    requires delim != []
    ensures HopFrom(pre + (delim + "--" + epilogue), delim, |pre|) == Stop
  {
    var body := pre + (delim + "--" + epilogue);
    assert At(body, delim, |pre|) by { assert body[|pre|..|pre| + |delim|] == delim; }
    assert At(body, delim + "--", |pre|) by { assert body[|pre|..|pre| + |delim| + 2] == delim + "--"; }
  }

  /** What the description means: the file is the last part with a non-empty file name, and each
      parameter has the data of the last other part of that name. */
  lemma {:induction false} DescribedMeans(parts: seq<Part>, form: Form, i: nat)
    requires i < |parts|
    ensures IsFile(parts[i]) && (forall j :: i < j < |parts| ==> !IsFile(parts[j])) ==>
              && Described(parts, form).filename == parts[i].filename.value.text
              && Described(parts, form).content == parts[i].data
    ensures !IsFile(parts[i]) && parts[i].name.text != "" &&
            (forall j :: i < j < |parts| ==> IsFile(parts[j]) || parts[j].name.text != parts[i].name.text) ==>
              && parts[i].name.text in Described(parts, form).params
              && Described(parts, form).params[parts[i].name.text] == parts[i].data
    decreases |parts|
  {
    if i > 0 {
      assert forall j :: i - 1 < j < |parts| - 1 ==> parts[1..][j] == parts[j + 1];
      DescribedMeans(parts[1..], Describe(parts[0], form), i - 1);
    } else {
      assert forall j :: 0 <= j < |parts| - 1 ==> parts[1..][j] == parts[j + 1];
      DescribedKeeps(parts[1..], Describe(parts[0], form), parts[0].name.text);
    }
  }

  lemma {:induction false} DescribedKeeps(parts: seq<Part>, form: Form, key: string)
    ensures (forall j :: 0 <= j < |parts| ==> !IsFile(parts[j])) ==>
              Described(parts, form).filename == form.filename && Described(parts, form).content == form.content
    ensures (forall j :: 0 <= j < |parts| ==> IsFile(parts[j]) || parts[j].name.text != key || key == "") ==>
              (key in Described(parts, form).params <==> key in form.params) &&
              (key in form.params ==> Described(parts, form).params[key] == form.params[key])
    decreases |parts|
  {
    if parts != [] {
      assert forall j :: 0 <= j < |parts| - 1 ==> parts[1..][j] == parts[j + 1];
      DescribedKeeps(parts[1..], Describe(parts[0], form), key);
    }
  }

  /** Parsing from two positions with the same next delimiter is the same. */
  lemma FormSkips(body: string, delim: string, a: nat, b: nat, form: Form)
    requires delim != [] && Find(body, delim, a) == Find(body, delim, b)
    ensures FormFrom(body, delim, a, form) == FormFrom(body, delim, b, form)
  {
    hide FormFrom, Find, At, AddPart, DataOf;
    assert HopFrom(body, delim, a) == HopFrom(body, delim, b);
    FormStep(body, delim, a, form);
    FormStep(body, delim, b, form);
  }

  /** Text before the first delimiter, ended by a line break; it must not contain the delimiter. */
  function Preamble(text: Option<string>): string {
    match text
    case None => ""
    case Some(t) => t + CRLF
  }

  /** Delimiters before the first part that are not followed by a line break, with the text before each. */
  function Strays(texts: seq<string>, delim: string): string {
    if texts == [] then "" else texts[0] + delim + Strays(texts[1..], delim)
  }

  /** What follows a stray delimiter is neither a line break nor the end mark. */
  predicate NoPartHere(rest: string) {
    |rest| >= 2 && rest[..2] != CRLF && rest[..2] != "--"
  }

  ghost predicate StraysOk(texts: seq<string>, delim: string, rest: string) {
    texts != [] ==>
      && Find(texts[0] + delim, delim, 0) == Some(|texts[0]|)
      && NoPartHere(Strays(texts[1..], delim) + rest) && StraysOk(texts[1..], delim, rest)
  }

  lemma HopStray(pre: string, text: string, delim: string, rest: string)
    requires delim != [] && Find(text + delim, delim, 0) == Some(|text|) && NoPartHere(rest)
    ensures HopFrom(pre + (text + delim + rest), delim, |pre|) == Skip(|pre| + |text| + |delim|)
  {
    hide Find, At, HopFrom, NoPartHere, CRLF;
    var body, at := pre + (text + delim + rest), |pre| + |text|;
    StrayAt(pre, text, delim, rest);
    TwoNext(rest);
    AfterStray(pre, text, delim, rest);
    HopSkips(body, delim, |pre|, at);
  }

  lemma StrayAt(pre: string, text: string, delim: string, rest: string)
    requires delim != [] && Find(text + delim, delim, 0) == Some(|text|)
    ensures Find(pre + (text + delim + rest), delim, |pre|) == Some(|pre| + |text|)
  {
    hide Find, At;
    StrayFound(text, delim, rest);
    FindShift(pre, text + delim + rest, delim, 0);
  }

  lemma TwoNext(rest: string)
    requires NoPartHere(rest)
    ensures |rest| >= 2 && [rest[0], rest[1]] != CRLF && [rest[0], rest[1]] != "--"
  {
    assert rest[..2] == [rest[0], rest[1]];
  }

  lemma AfterStray(pre: string, text: string, delim: string, rest: string)
    requires |rest| >= 2
    ensures var body, at := pre + (text + delim + rest), |pre| + |text| + |delim|;
            at + 1 < |body| && body[at] == rest[0] && body[at + 1] == rest[1]
  {
  }

  lemma HopSkips(body: string, delim: string, pos: nat, at: nat)
    requires delim != [] && Find(body, delim, pos) == Some(at) && at + |delim| + 1 < |body|
    requires [body[at + |delim|], body[at + |delim| + 1]] != CRLF
    requires [body[at + |delim|], body[at + |delim| + 1]] != "--"
    ensures HopFrom(body, delim, pos) == Skip(at + |delim|)
  {
    hide Find, At;
    NotEndMark(body, delim, at);
  }

  lemma NotEndMark(body: string, delim: string, at: nat)
    requires at + |delim| + 1 < |body| && [body[at + |delim|], body[at + |delim| + 1]] != "--"
    ensures !At(body, delim + "--", at)
  {
    if At(body, delim + "--", at) {
      AtChar(body, delim + "--", at, |delim|);
      AtChar(body, delim + "--", at, |delim| + 1);
    }
  }

  lemma StrayFound(text: string, delim: string, rest: string)
    requires delim != [] && Find(text + delim, delim, 0) == Some(|text|)
    ensures Find(text + delim + rest, delim, 0) == Some(|text|)
  {
    hide Find, At;
    forall j: nat | j <= |text| ensures At(text + delim + rest, delim, j) <==> At(text + delim, delim, j) {
      AtAppend(text + delim, rest, delim, j);
    }
    FindIs(text + delim + rest, delim, 0, |text|);
  }

  lemma StrayGroups(pre: string, t: string, delim: string, more: string, rest: string)
    ensures pre + (t + delim + more + rest) == pre + (t + delim + (more + rest)) == pre + t + delim + (more + rest)
  {
  }

  lemma {:induction false} StraysSkipped(pre: string, texts: seq<string>, delim: string, rest: string, form: Form)
    requires delim != [] && StraysOk(texts, delim, rest)
    ensures FormFrom(pre + (Strays(texts, delim) + rest), delim, |pre|, form) ==
            FormFrom(pre + (Strays(texts, delim) + rest), delim, |pre| + |Strays(texts, delim)|, form)
    decreases |texts|
  {
    hide FormFrom, Find, HopFrom, NoPartHere;
    if texts != [] {
      var t, more := texts[0], Strays(texts[1..], delim);
      var pre' := pre + t + delim;
      StrayGroups(pre, t, delim, more, rest);
      HopStray(pre, t, delim, more + rest);
      FormStep(pre + (Strays(texts, delim) + rest), delim, |pre|, form);
      StraysSkipped(pre', texts[1..], delim, rest, form);
    }
  }

  /** The round trip: for every list of printable parts, with or without preamble, with stray delimiters in
      front and with any epilogue, the parsed form is the one that the parts describe. */
  lemma ParseUndoesPrint(boundary: string, strays: seq<string>, text: Option<string>, parts: seq<Part>,
                         epilogue: string)
    requires '\r' !in boundary && '\n' !in boundary && AllPrintable(parts, "--" + boundary)
    requires text.Some? ==> Find(text.value, "--" + boundary, 0).None?
    requires StraysOk(strays, "--" + boundary, Preamble(text) + Print(parts, "--" + boundary, epilogue))
    ensures var delim := "--" + boundary;
            FormFrom(Strays(strays, delim) + (Preamble(text) + Print(parts, delim, epilogue)), delim, 0, NOTHING) ==
            Described(parts, NOTHING)
  {
    hide FormFrom, Print, Described, AllPrintable, Find, Strays, StraysOk, Preamble;
    var delim := "--" + boundary;
    assert '\r' !in delim && '\n' !in delim;
    var junk, pre, rest := Strays(strays, delim), Preamble(text), Print(parts, delim, epilogue);
    StraysSkipped("", strays, delim, pre + rest, NOTHING);
    assert "" + (junk + (pre + rest)) == junk + (pre + rest) == junk + pre + rest;
    FormPrinted(junk + pre, parts, delim, epilogue, NOTHING);
    PrintStarts(parts, delim, epilogue);
    PreambleSkipped(junk, text, delim, rest, NOTHING);
  }

  lemma PreambleSkipped(junk: string, text: Option<string>, delim: string, rest: string, form: Form)
    requires delim != [] && '\r' !in delim && '\n' !in delim && delim <= rest
    requires text.Some? ==> Find(text.value, delim, 0).None?
    ensures FormFrom(junk + Preamble(text) + rest, delim, |junk|, form) ==
            FormFrom(junk + Preamble(text) + rest, delim, |junk + Preamble(text)|, form)
  {
    hide FormFrom, Find, At;
    var pre := Preamble(text);
    if text.Some? {
      DelimiterFound(text.value, delim, rest);
      FindShift(junk, pre + rest, delim, 0);
      assert junk + (pre + rest) == junk + pre + rest;
      AtStart(junk + pre, delim, rest);
      FindIs(junk + pre + rest, delim, |junk + pre|, |junk + pre|);
      FormSkips(junk + pre + rest, delim, |junk|, |junk + pre|, form);
    }
  }

  lemma AtStart(pre: string, delim: string, rest: string)
    requires delim <= rest
    ensures At(pre + rest, delim, |pre|)
  {
    assert (pre + rest)[|pre|..|pre| + |delim|] == rest[..|delim|];
  }

  /** The first `boundary=` in the Content-Type is the one after c. */
  ghost predicate LeadsToBoundary(c: string) {
    Find(c + "boundary=", "boundary=", 0) == Some(|c|)
  }

  /** Both spellings of the boundary parameter are read, whatever leads to it; an unquoted one must not
      look quoted. */
  lemma BoundaryRead(c: string, boundary: string)
    requires LeadsToBoundary(c)
    ensures BoundaryOf(c + "boundary=\"" + boundary + "\"") == Some(boundary)
    ensures !(|boundary| >= 2 && boundary[0] == '"' && boundary[|boundary| - 1] == '"') ==>
              BoundaryOf(c + "boundary=" + boundary) == Some(boundary)
  {
    hide BoundaryOf, Find;
    var q := "\"" + boundary + "\"";
    BoundaryStripped(c, boundary);
    BoundaryStripped(c, q);
    assert q[1..|q| - 1] == boundary;
    assert c + "boundary=\"" + boundary + "\"" == c + "boundary=" + q;
  }

  lemma BoundaryStripped(c: string, b: string)
    requires LeadsToBoundary(c)
    ensures BoundaryOf(c + "boundary=" + b) ==
            Some(if |b| >= 2 && b[0] == '"' && b[|b| - 1] == '"' then b[1..|b| - 1] else b)
  {
    hide Find;
    BoundaryFound(c, b);
    assert (c + "boundary=" + b)[|c| + 9..] == b;
  }

  lemma BoundaryFound(c: string, b: string)
    requires LeadsToBoundary(c)
    ensures Find(c + "boundary=" + b, "boundary=", 0) == Some(|c|)
  {
    hide Find, At;
    var s := c + "boundary=";
    forall j: nat | j <= |c| ensures At(s + b, "boundary=", j) <==> At(s, "boundary=", j) {
      AtAppend(s, b, "boundary=", j);
    }
    FindIs(s + b, "boundary=", 0, |c|);
  }

  /** The usual Content-Type leads to its boundary. */
  lemma UsualType()
    ensures LeadsToBoundary("multipart/form-data; ")
  {
    var c := "multipart/form-data; ";
    var s := c + "boundary=";
    assert |c| == 21 && 'b' !in c;
    assert s[21..30] == "boundary=";
    forall j: nat | j < 21 ensures !At(s, "boundary=", j) {
      assert s[j] == c[j];
      if At(s, "boundary=", j) { AtChar(s, "boundary=", j, 0); }
    }
    FindIs(s, "boundary=", 0, 21);
  }
}
