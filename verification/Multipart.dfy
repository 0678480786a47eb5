/**
  The multipart/form-data parser: a loop that hops from delimiter to delimiter through the body.
 */
module Multipart {
  import opened Decimal
  import opened TextSearch

  const CRLF := "\r\n"
  const BLANK := "\r\n\r\n"
  const SEPARATORS := "; \r\n"

  datatype Form = Form(filename: string, content: string, params: map<string, string>)

  const NOTHING := Form("", "", map[])

  // ----- header values -----

  function FindFirstOf(s: string, chars: string, from: nat): (r: Option<nat>)
    ensures r.Some? ==> from <= r.value < |s| && s[r.value] in chars
    ensures r.Some? ==> forall i :: from <= i < r.value ==> s[i] !in chars
    ensures r.None? ==> forall i :: from <= i < |s| ==> s[i] !in chars
    decreases |s| - from
  {
    if from >= |s| then None else if s[from] in chars then Some(from) else FindFirstOf(s, chars, from + 1)
  }

  /** The value after `key=` in a header: quoted, or up to a separator; "" when there is none. */
  function ExtractValue(header: string, key: string): string {
    match Find(header, key, 0)
    case None => ""
    case Some(pos) =>
      var start := pos + |key|;
      if start >= |header| || header[start] != '=' then ""
      else if start + 1 < |header| && header[start + 1] == '"' then
        match Find(header, "\"", start + 2) {
          case None => ""
          case Some(end) => header[start + 2..end]
        }
      else
        match FindFirstOf(header, SEPARATORS, start + 1) {
          case None => header[start + 1..]
          case Some(end) => header[start + 1..end]
        }
  }

  /** The boundary in a Content-Type, without its quotes; None when there is no boundary. */
  function BoundaryOf(contentType: string): (r: Option<string>)
    ensures r.None? <==> forall i: nat :: !At(contentType, "boundary=", i)
  {
    match Find(contentType, "boundary=", 0)
    case None => None
    case Some(pos) =>
      var b := contentType[pos + 9..];
      if |b| >= 2 && b[0] == '"' && b[|b| - 1] == '"' then Some(b[1..|b| - 1]) else Some(b)
  }

  // ----- parts -----

  /** A part as the loop finds it: its header, where its data starts and where the next delimiter is. */
  datatype RawPart = RawPart(header: string, dataStart: nat, next: nat)

  datatype Hop = Stop | Skip(pos: nat) | Found(part: RawPart)

  /** One iteration of the loop. */
  function HopFrom(body: string, delim: string, pos: nat): (h: Hop)
    requires delim != []
    ensures h.Skip? ==> pos < h.pos <= |body|
    ensures h.Found? ==>
              && pos + 4 < h.part.dataStart <= h.part.next && At(body, delim, h.part.next)
              && At(body, BLANK, h.part.dataStart - 4)
              && forall i: nat :: h.part.dataStart <= i < h.part.next ==> !At(body, delim, i)
  {
    match Find(body, delim, pos)
    case None => Stop
    case Some(partStart) =>
      var headerStart := partStart + |delim|;
      if At(body, delim + "--", partStart) then Stop
      else if headerStart + 2 > |body| then Stop
      else if !(body[headerStart] == '\r' && body[headerStart + 1] == '\n') then Skip(headerStart)
      else
        match Find(body, BLANK, headerStart + 2) {
          case None => Stop
          case Some(headerEnd) =>
            match Find(body, delim, headerEnd + 4) {
              case None => Stop
              case Some(next) => Found(RawPart(body[headerStart + 2..headerEnd], headerEnd + 4, next))
            }
        }
  }

  function Parts(body: string, delim: string, pos: nat): seq<RawPart>
    requires delim != []
    decreases |body| - pos
  {
    match HopFrom(body, delim, pos)
    case Stop => []
    case Skip(p) => Parts(body, delim, p)
    case Found(part) => [part] + Parts(body, delim, part.next)
  }

  /** The data of a part. A line break before the delimiter is not data; when the delimiter follows the
      blank line at once, the unsigned length wraps and the slice runs to the end of the body. */
  function DataOf(body: string, start: nat, next: nat): string
    requires start <= next <= |body|
  {
    var end := if next >= 2 && body[next - 2] == '\r' && body[next - 1] == '\n' then next - 2 else next;
    if end < start then body[start..] else body[start..end]
  }

  /** A part with a file name replaces the file; one with only a name sets a parameter. */
  function AddPart(form: Form, header: string, data: string): Form {
    var name := ExtractValue(header, "name");
    var filename := ExtractValue(header, "filename");
    if filename != "" then form.(filename := filename, content := data)
    else if name != "" then form.(params := form.params[name := data])
    else form
  }

  ghost predicate InBody(body: string, parts: seq<RawPart>) {
    forall i :: 0 <= i < |parts| ==> parts[i].dataStart <= parts[i].next <= |body|
  }

  ghost function Collect(body: string, parts: seq<RawPart>, form: Form): Form
    requires InBody(body, parts)
    decreases |parts|
  {
    if parts == [] then form else
      var p := parts[0];
      Collect(body, parts[1..], AddPart(form, p.header, DataOf(body, p.dataStart, p.next)))
  }

  lemma {:induction false} PartsInBody(body: string, delim: string, pos: nat)
    requires delim != []
    ensures InBody(body, Parts(body, delim, pos))
    decreases |body| - pos
  {
    match HopFrom(body, delim, pos)
    case Stop =>
    case Skip(p) => PartsInBody(body, delim, p);
    case Found(part) => PartsInBody(body, delim, part.next);
  }

  ghost function FormFrom(body: string, delim: string, pos: nat, form: Form): Form
    requires delim != []
  {
    PartsInBody(body, delim, pos);
    Collect(body, Parts(body, delim, pos), form)
  }

  lemma FormStep(body: string, delim: string, pos: nat, form: Form)
    requires delim != []
    ensures FormFrom(body, delim, pos, form) ==
            match HopFrom(body, delim, pos) {
              case Stop => form
              case Skip(p) => FormFrom(body, delim, p, form)
              case Found(part) =>
                FormFrom(body, delim, part.next,
                         AddPart(form, part.header, DataOf(body, part.dataStart, part.next)))
            }
  {
    hide AddPart, DataOf;
    match HopFrom(body, delim, pos) {
      case Found(part) =>
        PartsInBody(body, delim, part.next);
        assert ([part] + Parts(body, delim, part.next))[1..] == Parts(body, delim, part.next);
      case _ =>
    }
  }

  /** The parser. It terminates because the position grows in every iteration. */
  method Parse(contentType: string, body: string) returns (result: Option<Form>)
    ensures result == match BoundaryOf(contentType) {
      case None => None
      case Some(b) => Some(FormFrom(body, "--" + b, 0, NOTHING))
    }
  {
    hide AddPart, FormFrom, HopFrom, DataOf;
    var boundary := BoundaryOf(contentType);
    if boundary.None? { return None; }
    var delimiter := "--" + boundary.value;
    var form := NOTHING;
    var pos := 0;
    while true
      invariant FormFrom(body, delimiter, pos, form) == FormFrom(body, delimiter, 0, NOTHING)
      decreases |body| - pos
    {
      FormStep(body, delimiter, pos, form);
      match HopFrom(body, delimiter, pos) {
        case Stop => break;
        case Skip(p) => pos := p;
        case Found(part) =>
          form := AddPart(form, part.header, DataOf(body, part.dataStart, part.next));
          pos := part.next;
      }
    }
    return Some(form);
  }

  // ----- where the parts lie -----

  ghost predicate WellPlaced(body: string, delim: string, p: RawPart) {
    && 4 <= p.dataStart <= p.next <= |body|
    && At(body, BLANK, p.dataStart - 4) && At(body, delim, p.next)
    && (Find(DataOf(body, p.dataStart, p.next), delim, 0).Some? <==> p.next == p.dataStart)
    && (p.next == p.dataStart ==> DataOf(body, p.dataStart, p.next) == body[p.dataStart..])
    && (p.next != p.dataStart ==> DataOf(body, p.dataStart, p.next) <= body[p.dataStart..p.next])
  }

  /** For every body: parts come in order, and the data of a part lies between its blank line and the
      next delimiter and holds no delimiter, except exactly when the delimiter follows the blank line
      at once. */
  lemma {:induction false} PartsPlaced(body: string, delim: string, pos: nat, i: nat)
    requires delim != [] && i < |Parts(body, delim, pos)|
    ensures pos + 4 < Parts(body, delim, pos)[i].dataStart
    ensures WellPlaced(body, delim, Parts(body, delim, pos)[i])
    ensures i > 0 ==> Parts(body, delim, pos)[i - 1].next < Parts(body, delim, pos)[i].dataStart
    decreases |body| - pos
  {
    hide WellPlaced, HopFrom;
    match HopFrom(body, delim, pos)
    case Stop =>
    case Skip(p) => PartsPlaced(body, delim, p, i);
    case Found(part) =>
      if i == 0 {
        HopPlaced(body, delim, part);
      } else {
        PartsPlaced(body, delim, part.next, i - 1);
      }
  }

  /** A part whose delimiter follows its blank line at once: its data is the closing delimiter itself. */
  lemma DelimiterAtOnce()
    ensures var body := "--b\r\nX\r\n\r\n--b--";
            HopFrom(body, "--b", 0) == Found(RawPart("X", 10, 10)) && DataOf(body, 10, 10) == "--b--"
  {
    hide Find;
    var body := "--b\r\nX\r\n\r\n--b--";
    FindIs(body, "--b", 0, 0);
    assert body[5] == 'X' && BLANK[0] == '\r';
    FindIs(body, BLANK, 5, 6);
    FindIs(body, "--b", 10, 10);
    assert !At(body, "--b" + "--", 0) by { assert body[3] != ("--b" + "--")[3]; }
    assert body[10..] == "--b--" && body[5..6] == "X";
  }

  lemma HopPlaced(body: string, delim: string, part: RawPart)
    requires delim != [] && 4 <= part.dataStart <= part.next && At(body, delim, part.next)
    requires At(body, BLANK, part.dataStart - 4)
    requires forall i: nat :: part.dataStart <= i < part.next ==> !At(body, delim, i)
    ensures WellPlaced(body, delim, part)
  {
    hide DataOf, Find;
    DataPlaced(body, delim, part.dataStart, part.next);
  }

  lemma DataPlaced(body: string, delim: string, start: nat, next: nat)
    requires delim != [] && 4 <= start <= next && At(body, delim, next) && At(body, BLANK, start - 4)
    requires forall i: nat :: start <= i < next ==> !At(body, delim, i)
    ensures Find(DataOf(body, start, next), delim, 0).Some? <==> next == start
    ensures next == start ==> DataOf(body, start, next) == body[start..]
    ensures next != start ==> DataOf(body, start, next) <= body[start..next]
  {
    hide At, Find, DataOf;
    DataSlice(body, delim, start, next);
    var data := DataOf(body, start, next);
    if next == start {
      AtDrop(body, delim, start, 0);
    } else {
      forall i: nat ensures !At(data, delim, i) { NotInSlice(body, delim, start, next, |data|, i); }
    }
  }

  lemma DataSlice(body: string, delim: string, start: nat, next: nat)
    requires 4 <= start <= next && At(body, delim, next) && At(body, BLANK, start - 4)
    ensures next <= |body|
    ensures next == start ==> DataOf(body, start, next) == body[start..]
    ensures next != start ==> var n := |DataOf(body, start, next)|;
              && start + n <= next && DataOf(body, start, next) == body[start..start + n]
              && DataOf(body, start, next) <= body[start..next]
  {
    AtChar(body, BLANK, start - 4, 2);
    AtChar(body, BLANK, start - 4, 3);
    hide At;
    var data := DataOf(body, start, next);
    if next != start {
      assert data == body[start..start + |data|];
      assert body[start..next] == data + body[start + |data|..next];
    }
  }

  lemma NotInSlice(body: string, delim: string, start: nat, next: nat, n: nat, i: nat)
    requires delim != [] && start + n <= next <= |body|
    requires forall j: nat :: start <= j < next ==> !At(body, delim, j)
    ensures !At(body[start..start + n], delim, i)
  {
    hide At;
    var data, rest := body[start..start + n], body[start + n..];
    if At(data, delim, i) {
      AtInside(data, delim, i);
      AtAppend(data, rest, delim, i);
      assert body[start..] == data + rest;
      AtDrop(body, delim, start, i);
    }
  }

  lemma AtInside(s: string, pat: string, i: nat)
    requires pat != [] && At(s, pat, i)
    ensures i + |pat| <= |s| && i < |s|
  {
  }

  lemma AtDrop(body: string, pat: string, start: nat, i: nat)
    requires start <= |body|
    ensures At(body[start..], pat, i) <==> At(body, pat, start + i)
  {
    AtShift(body[..start], body[start..], pat, i);
    assert body[..start] + body[start..] == body;
  }
}
