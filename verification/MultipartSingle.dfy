/**
  The older single-part parser kept in the request context, and its agreement with the full parser.
 */
module MultipartSingle {
  import opened Decimal
  import opened TextSearch
  import opened Multipart
  import opened MultipartRoundTrip

  /** The return value and the two output parameters. */
  datatype Single = Single(ok: bool, filename: string, content: string)

  /** Straight-line search for the first part's file; the outputs keep their values until assigned. */
  function ParseSingle(contentType: string, body: string, filename: string, content: string): Single {
    match Find(contentType, "boundary=", 0)
    case None => Single(false, filename, content)
    case Some(pos) => SingleIn(body, "--" + contentType[pos + 9..], filename, content)
  }

  function SingleIn(body: string, delim: string, filename: string, content: string): Single {
    var failed := Single(false, filename, content);
    match Find(body, delim, 0)
    case None => failed
    case Some(start) =>
      match Find(body, BLANK, start)
      case None => failed
      case Some(headerEnd) =>
        match SingleName(body[start..headerEnd])
        case None => failed
        case Some(name) =>
          match Find(body, delim, headerEnd + 4)
          case None => Single(false, name, content)
          case Some(next) => Single(true, name, DataOf(body, headerEnd + 4, next))
  }

  function SingleName(header: string): Option<string> {
    match Find(header, "filename=\"", 0)
    case None => None
    case Some(pos) =>
      match Find(header, "\"", pos + 10)
      case None => None
      case Some(end) => Some(header[pos + 10..end])
  }

  /** No quoted file name, or one that is not closed, is no file name. */
  lemma NameMissing(header: string, i: nat)
    ensures (forall j: nat :: !At(header, "filename=\"", j)) ==> SingleName(header) == None
    ensures Find(header, "filename=\"", 0) == Some(i) && '"' !in header[i + 10..] ==> SingleName(header) == None
  {
    hide Find;
    if Find(header, "filename=\"", 0) == Some(i) {
      match Find(header, "\"", i + 10) {
        case None =>
        case Some(end) =>
          AtChar(header, "\"", end, 0);
          assert header[i + 10..][end - i - 10] == header[end];
      }
    }
  }

  /** The first `filename="` of a printed part, delimiter line included. */
  lemma SingleWordFound(delim: string, p: Part)
    requires Find(delim, "filename=\"", 0).None?
    requires Printable(p, delim) && p.filename.Some? && p.filename.value.Quoted?
    ensures Find(delim + CRLF + HeaderOf(p), "filename=\"", 0) == Some(|delim| + 2 + |BeforeFilename(p)|)
  {
    hide HeaderOf, BeforeFilename, Find, At, Printable;
    FilenameFound(p, delim);
    var a, h := BeforeFilename(p), HeaderOf(p);
    var pre, w := delim + CRLF, "filename=\"";
    QuotedTail(a, p.filename.value, p.more);
    AtShift(pre, h, w, |a|);
    forall j: nat | j < |pre| + |a| ensures !At(pre + h, w, j) { NoWordBefore(delim, h, |a|, j); }
    FindIs(pre + h, w, 0, |pre| + |a|);
  }

  lemma QuotedTail(a: string, v: Value, more: string)
    requires v.Quoted?
    ensures var h := a + "filename" + "=" + Spell(v) + more;
            h == a + "filename=\"" + (v.text + "\"" + more) && At(h, "filename=\"", |a|)
  {
    var h := a + "filename" + "=" + Spell(v) + more;
    assert "filename" + "=" + "\"" == "filename=\"";
    assert h == a + ("filename" + "=" + "\"") + (v.text + "\"" + more);
    WordAt(a, "filename=\"", v.text + "\"" + more);
  }

  lemma NoWordBefore(delim: string, h: string, n: nat, j: nat)
    requires Find(delim, "filename=\"", 0).None? && Find(h, "filename", 0) == Some(n) && j < |delim| + 2 + n
    ensures !At(delim + CRLF + h, "filename=\"", j)
  {
    hide Find, At;
    var pre := delim + CRLF;
    if At(pre + h, "filename=\"", j) {
      NotInDelimiter(delim, h, j);
      ShorterAt(pre + h, j);
      AtShift(pre, h, "filename", j - |pre|);
    }
  }

  lemma SingleNameFound(delim: string, p: Part)
    requires Find(delim, "filename=\"", 0).None?
    requires Printable(p, delim) && p.filename.Some? && p.filename.value.Quoted?
    ensures SingleName(delim + CRLF + HeaderOf(p)) == Some(p.filename.value.text)
  {
    hide HeaderOf, BeforeFilename, Find, At, Spell;
    SingleWordFound(delim, p);
    FilenameFound(p, delim);
    var v := p.filename.value;
    QuotedTail(BeforeFilename(p), v, p.more);
    NoQuoteInside(v);
    var q, s := delim + CRLF + BeforeFilename(p) + "filename=\"", delim + CRLF + HeaderOf(p);
    var t := v.text + ['"'] + p.more;
    assert s == q + t;
    FindShift(q, t, ['"'], 0);
    FindChar(v.text, '"', p.more);
    assert Find(s, "\"", |q|) == Some(|q| + |v.text|) by { assert "\"" == ['"']; }
    assert s[|q|..|q| + |v.text|] == v.text;
  }

  /** A file name without quotes is not found by this parser. */
  lemma PlainNameMissed(delim: string, p: Part)
    requires Find(delim, "filename=\"", 0).None?
    requires Printable(p, delim) && p.filename.Some? && p.filename.value.Plain?
    requires Find(p.filename.value.text + p.more, "filename=\"", 0).None?
    ensures SingleName(delim + CRLF + HeaderOf(p)) == None
  {
    hide HeaderOf, BeforeFilename, Find, At, Printable;
    FilenameFound(p, delim);
    var a, h, tail := BeforeFilename(p), HeaderOf(p), p.filename.value.text + p.more;
    PlainTail(a, p, delim);
    forall j: nat ensures !At(delim + CRLF + h, "filename=\"", j) {
      if j < |delim| + 2 + |a| {
        NoWordBefore(delim, h, |a|, j);
      } else {
        AtShift(delim + CRLF, h, "filename=\"", j - |delim| - 2);
        NoWordAfter(a, tail, j - |delim| - 2);
      }
    }
  }

  lemma PlainTail(a: string, p: Part, delim: string)
    requires Printable(p, delim) && p.filename.Some? && p.filename.value.Plain?
    ensures var tail := p.filename.value.text + p.more;
            && a + "filename" + "=" + Spell(p.filename.value) + p.more == a + "filename=" + tail
            && (tail != "" ==> tail[0] != '"')
  {
    hide Find;
    assert "filename" + "=" == "filename=" && Spell(p.filename.value) == p.filename.value.text;
    assert a + "filename" + "=" == a + "filename=";
  }

  lemma NoWordAfter(a: string, tail: string, k: nat)
    requires k >= |a| && (tail != "" ==> tail[0] != '"') && Find(tail, "filename=\"", 0).None?
    ensures !At(a + "filename=" + tail, "filename=\"", k)
  {
    hide Find, At;
    var h, w := a + "filename=" + tail, "filename=\"";
    if k < |a| + 9 {
      assert h[k] == "filename="[k - |a|];
      assert k > |a| ==> h[k] != 'f';
      assert tail != "" ==> h[|a| + 9] == tail[0];
      if At(h, w, k) { EndLetters(h, k); }
    } else {
      AtShift(a + "filename=", tail, w, k - |a| - 9);
    }
  }

  lemma EndLetters(h: string, k: nat)
    requires At(h, "filename=\"", k)
    ensures k + 9 < |h| && h[k] == 'f' && h[k + 9] == '"'
  {
    AtChar(h, "filename=\"", k, 0);
    AtChar(h, "filename=\"", k, 9);
  }

  lemma ShorterAt(s: string, j: nat)
    requires At(s, "filename=\"", j)
    ensures At(s, "filename", j)
  {
    assert s[j..j + 8] == s[j..j + 10][..8] == "filename=\""[..8];
  }

  lemma NotInDelimiter(delim: string, h: string, j: nat)
    requires Find(delim, "filename=\"", 0).None? && At(delim + CRLF + h, "filename=\"", j)
    ensures j >= |delim| + 2
  {
    hide Find, At;
    var w, s := "filename=\"", delim + CRLF + h;
    assert s[|delim|] == '\r' && s[|delim| + 1] == '\n';
    if j + 10 <= |delim| {
      assert s == delim + (CRLF + h);
      AtAppend(delim, CRLF + h, w, j);
    } else if j <= |delim| {
      AtChar(s, w, j, |delim| - j);
    } else if j == |delim| + 1 {
      AtChar(s, w, j, 0);
    }
  }

  /** The search for the blank line may start at the delimiter. */
  lemma BlankFromStart(delim: string, p: Part, rest: string)
    requires '\r' !in delim && Printable(p, delim)
    ensures Find(delim + CRLF + (HeaderOf(p) + BLANK + rest), BLANK, 0) == Some(|delim| + 2 + |HeaderOf(p)|)
  {
    hide HeaderOf, Find, Printable, At;
    var h := HeaderOf(p);
    HeaderStarts(p);
    BlankFound(p, delim, rest);
    var pre, t := delim + CRLF, h + BLANK + rest;
    FindShift(pre, t, BLANK, 0);
    forall j: nat | j < |pre| ensures !At(pre + t, BLANK, j) { NoBlankInFirstLine(delim, t, j); }
    FindIs(pre + t, BLANK, 0, |pre| + |h|);
  }

  lemma HeaderStarts(p: Part)
    ensures HeaderOf(p) != [] && HeaderOf(p)[0] == 'C'
  {
  }

  lemma NoBlankInFirstLine(delim: string, t: string, j: nat)
    requires '\r' !in delim && t != [] && t[0] == 'C' && j < |delim| + 2
    ensures !At(delim + CRLF + t, BLANK, j)
  {
    hide At;
    var s := delim + CRLF + t;
    assert s[|delim| + 2] == 'C' && s[|delim| + 1] == '\n' && (j < |delim| ==> s[j] == delim[j]);
    if At(s, BLANK, j) { AtChar(s, BLANK, j, 0); AtChar(s, BLANK, j, 2); }
  }

  /** The main result: on every printed body with an unquoted boundary whose first part is its only file
      part, with or without preamble and with any epilogue, the two parsers return the same file name and
      content if the file name is in quotes; otherwise the older one finds nothing. */
  lemma ParsersAgree(c: string, boundary: string, text: Option<string>, parts: seq<Part>, epilogue: string,
                     filename: string, content: string)
    requires LeadsToBoundary(c) && '\r' !in boundary && '\n' !in boundary && '"' !in boundary
    requires AllPrintable(parts, "--" + boundary)
    requires text.Some? ==> Find(text.value, "--" + boundary, 0).None?
    requires parts != [] && IsFile(parts[0]) && forall i :: 0 < i < |parts| ==> !IsFile(parts[i])
    ensures var contentType := c + "boundary=" + boundary;
            var body := Preamble(text) + Print(parts, "--" + boundary, epilogue);
            var form := FormFrom(body, "--" + boundary, 0, NOTHING);
            && BoundaryOf(contentType) == Some(boundary)
            && form.filename == parts[0].filename.value.text && form.content == parts[0].data
            && (parts[0].filename.value.Quoted? ==>
                  ParseSingle(contentType, body, filename, content) == Single(true, form.filename, form.content))
            && (NoQuotedName(parts[0]) ==>
                  ParseSingle(contentType, body, filename, content) == Single(false, filename, content))
  {
    hide FormFrom, BoundaryOf, SingleIn, Find, Print, Described, Printable, Preamble, NoQuotedName;
    var contentType := c + "boundary=" + boundary;
    var body := Preamble(text) + Print(parts, "--" + boundary, epilogue);
    BoundaryRead(c, boundary);
    BoundaryFound(c, boundary);
    assert contentType[|c| + 9..] == boundary;
    ParseUndoesPrint(boundary, [], text, parts, epilogue);
    assert Strays([], "--" + boundary) + body == body;
    DescribedMeans(parts, NOTHING, 0);
    SingleOnPrinted(boundary, text, parts, epilogue, filename, content);
  }

  /** The file name is without quotes, and nothing in or after it reads as a quoted one. */
  ghost predicate NoQuotedName(p: Part) {
    && p.filename.Some? && p.filename.value.Plain?
    && Find(p.filename.value.text + p.more, "filename=\"", 0).None?
  }

  lemma SingleOnPrinted(boundary: string, text: Option<string>, parts: seq<Part>, epilogue: string,
                        filename: string, content: string)
    requires '\r' !in boundary && '\n' !in boundary && '"' !in boundary
    requires AllPrintable(parts, "--" + boundary) && parts != [] && IsFile(parts[0])
    requires text.Some? ==> Find(text.value, "--" + boundary, 0).None?
    ensures var body, p := Preamble(text) + Print(parts, "--" + boundary, epilogue), parts[0];
            var r := SingleIn(body, "--" + boundary, filename, content);
            && (p.filename.value.Quoted? ==> r == Single(true, p.filename.value.text, p.data))
            && (NoQuotedName(p) ==> r == Single(false, filename, content))
  {
    hide Printable, Find, At, HeaderOf, DataOf, HopFrom, SingleName, SingleIn, Preamble, NoQuotedName;
    var delim := "--" + boundary;
    var p, rest := parts[0], Print(parts[1..], delim, epilogue);
    PrintStarts(parts[1..], delim, epilogue);
    PrintStarts(parts, delim, epilogue);
    FirstDelimiter(text, delim, Print(parts, delim, epilogue));
    assert Printable(p, delim);
    SingleOnPart(Preamble(text), delim, p, rest, filename, content);
  }

  /** The first delimiter follows the preamble. */
  lemma FirstDelimiter(text: Option<string>, delim: string, rest: string)
    requires delim != [] && '\r' !in delim && '\n' !in delim && delim <= rest
    requires text.Some? ==> Find(text.value, delim, 0).None?
    ensures Find(Preamble(text) + rest, delim, 0) == Some(|Preamble(text)|)
  {
    hide Find;
    if text.Some? {
      DelimiterFound(text.value, delim, rest);
    } else {
      AtStart("", delim, rest);
      FindIs("" + rest, delim, 0, 0);
    }
  }

  function Printed(delim: string, p: Part, rest: string): string {
    delim + CRLF + HeaderOf(p) + BLANK + p.data + CRLF + rest
  }

  lemma BlankInPart(delim: string, p: Part, rest: string)
    requires '\r' !in delim && Printable(p, delim)
    ensures |delim| + 2 + |HeaderOf(p)| <= |Printed(delim, p, rest)|
    ensures Find(Printed(delim, p, rest), BLANK, 0) == Some(|delim| + 2 + |HeaderOf(p)|)
    ensures Printed(delim, p, rest)[0..|delim| + 2 + |HeaderOf(p)|] == delim + CRLF + HeaderOf(p)
  {
    hide HeaderOf, Find, At, Printable;
    var h, d, body := HeaderOf(p), p.data, Printed(delim, p, rest);
    BlankFromStart(delim, p, d + CRLF + rest);
    assert body == delim + CRLF + (h + BLANK + (d + CRLF + rest));
  }

  lemma DataInPart(pre: string, delim: string, p: Part, rest: string)
    requires delim != [] && '\r' !in delim && '\n' !in delim && Printable(p, delim) && delim <= rest
    ensures var body := pre + Printed(delim, p, rest);
            var start := |pre| + |delim| + 2 + |HeaderOf(p)| + 4;
            && Find(body, delim, start) == Some(start + |p.data| + 2)
            && DataOf(body, start, start + |p.data| + 2) == p.data
  {
    hide HeaderOf, Find, At, Printable, HopFrom, DataOf;
    var body, start := pre + Printed(delim, p, rest), |pre| + |delim| + 2 + |HeaderOf(p)| + 4;
    HopPrinted(pre, p, delim, rest);
    HopNext(body, delim, |pre|, start, start + |p.data| + 2, HeaderOf(p));
  }

  lemma SingleOnPart(pre: string, delim: string, p: Part, rest: string, filename: string, content: string)
    requires delim != [] && '\r' !in delim && '\n' !in delim && '"' !in delim
    requires Printable(p, delim) && IsFile(p) && delim <= rest
    requires Find(pre + Printed(delim, p, rest), delim, 0) == Some(|pre|)
    ensures var r := SingleIn(pre + Printed(delim, p, rest), delim, filename, content);
            && (p.filename.value.Quoted? ==> r == Single(true, p.filename.value.text, p.data))
            && (NoQuotedName(p) ==> r == Single(false, filename, content))
  {
    hide HeaderOf, Find, At, Printable, DataOf, SingleName, SingleIn, Printed;
    var part, n := Printed(delim, p, rest), |delim| + 2 + |HeaderOf(p)|;
    var body, start := pre + part, |pre| + n + 4;
    BlankInPart(delim, p, rest);
    FindShift(pre, part, BLANK, 0);
    assert body[|pre|..|pre| + n] == part[0..n];
    DataInPart(pre, delim, p, rest);
    NoWordInDelimiter(delim);
    if p.filename.value.Quoted? {
      SingleNameFound(delim, p);
    } else if NoQuotedName(p) {
      PlainNameMissed(delim, p);
    }
    SingleIs(body, delim, |pre|, start - 4, start + |p.data| + 2, filename, content);
  }

  lemma SingleIs(body: string, delim: string, start: nat, headerEnd: nat, next: nat, filename: string, content: string)
    requires Find(body, delim, 0) == Some(start) && Find(body, BLANK, start) == Some(headerEnd)
    requires Find(body, delim, headerEnd + 4) == Some(next)
    ensures SingleIn(body, delim, filename, content) ==
            match SingleName(body[start..headerEnd]) {
              case None => Single(false, filename, content)
              case Some(name) => Single(true, name, DataOf(body, headerEnd + 4, next))
            }
  {
    hide Find, SingleName, DataOf;
  }

  lemma NoWordInDelimiter(delim: string)
    requires '"' !in delim
    ensures Find(delim, "filename=\"", 0).None?
  {
    var w := "filename=\"";
    forall j: nat ensures !At(delim, w, j) {
      if At(delim, w, j) { AtChar(delim, w, j, 9); }
    }
  }

  lemma HopNext(body: string, delim: string, pos: nat, start: nat, next: nat, header: string)
    requires delim != [] && HopFrom(body, delim, pos) == Found(RawPart(header, start, next))
    ensures Find(body, delim, start) == Some(next)
  {
    FindIs(body, delim, start, next);
  }

  /** A body cut off inside its first part: neither parser returns its data, and the older one has already
      set the file name. */
  lemma TruncatedBody(delim: string, p: Part, filename: string, content: string)
    requires delim != [] && '\r' !in delim && '\n' !in delim && '"' !in delim
    requires Printable(p, delim) && p.filename.Some? && p.filename.value.Quoted?
    ensures var body := delim + CRLF + HeaderOf(p) + BLANK + p.data;
            && FormFrom(body, delim, 0, NOTHING) == NOTHING
            && SingleIn(body, delim, filename, content) == Single(false, p.filename.value.text, content)
  {
    hide HeaderOf, Find, At, Printable, SingleName, FormFrom, SingleIn, HopFrom;
    var h, d := HeaderOf(p), p.data;
    var body, n := delim + CRLF + h + BLANK + d, |delim| + 2 + |h|;
    BlankFromStart(delim, p, d);
    assert body == delim + CRLF + (h + BLANK + d);
    WordAt("", delim, CRLF + h + BLANK + d);
    assert body == "" + delim + (CRLF + h + BLANK + d);
    FindIs(body, delim, 0, 0);
    NoDelimiter(p, delim);
    FindShift(delim + CRLF + h + BLANK, d, delim, 0);
    assert body[0..n] == delim + CRLF + h;
    NoWordInDelimiter(delim);
    SingleNameFound(delim, p);
    SingleCut(body, delim, n, filename, content);
    FormStep(body, delim, 0, NOTHING);
    NoBlankBefore(body, delim, n);
    HopCut(body, delim, n);
  }

  lemma SingleCut(body: string, delim: string, headerEnd: nat, filename: string, content: string)
    requires Find(body, delim, 0) == Some(0) && Find(body, BLANK, 0) == Some(headerEnd)
    requires SingleName(body[0..headerEnd]).Some? && Find(body, delim, headerEnd + 4).None?
    ensures SingleIn(body, delim, filename, content) == Single(false, SingleName(body[0..headerEnd]).value, content)
  {
    hide Find, SingleName, DataOf;
  }

  /** Searching on from behind the first line finds the same blank line. */
  lemma NoBlankBefore(body: string, delim: string, headerEnd: nat)
    requires Find(body, BLANK, 0) == Some(headerEnd) && |delim| + 2 <= headerEnd
    ensures Find(body, BLANK, |delim| + 2) == Some(headerEnd)
  {
    FindIs(body, BLANK, |delim| + 2, headerEnd);
  }

  lemma HopCut(body: string, delim: string, headerEnd: nat)
    requires delim != [] && Find(body, delim, 0) == Some(0) && Find(body, BLANK, |delim| + 2) == Some(headerEnd)
    requires |delim| + 2 <= |body| && body[|delim|] == '\r' && body[|delim| + 1] == '\n'
    requires Find(body, delim, headerEnd + 4).None?
    ensures HopFrom(body, delim, 0) == Stop
  {
    hide Find;
  }
}
