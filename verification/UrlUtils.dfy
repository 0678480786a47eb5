/** Request targets: splitting off the query, percent-decoding, and reading the parameters. */
module UrlUtils {
  import opened Decimal
  import opened TextSearch

  // ----- splitting -----

  function Before(s: string, c: char): string {
    match Find(s, [c], 0)
    case None => s
    case Some(i) => s[..i]
  }

  function After(s: string, c: char): string {
    match Find(s, [c], 0)
    case None => ""
    case Some(i) => s[i + 1..]
  }

  /** The fragment goes first; the path ends at the first question mark. */
  method SplitTarget(target: string) returns (path: string, query: string)
    ensures path == Before(Before(target, '#'), '?')
    ensures query == After(Before(target, '#'), '?')
  {
    var t := target;
    var fragment := Find(t, "#", 0);
    if fragment.Some? { t := t[..fragment.value]; }
    var q := Find(t, "?", 0);
    if q.None? {
      path, query := t, "";
    } else {
      path, query := t[..q.value], t[q.value + 1..];
    }
  }

  lemma BeforeJoin(a: string, c: char, b: string)
    requires c !in a
    ensures Before(a + [c] + b, c) == a && After(a + [c] + b, c) == b && Before(a, c) == a && After(a, c) == ""
  {
    FindChar(a, c, b);
    var s := a + [c] + b;
    assert s[..|a|] == a && s[|a| + 1..] == b;
    CharAbsent(a, c);
  }

  lemma CharAbsent(s: string, c: char)
    requires c !in s
    ensures Find(s, [c], 0).None?
  {
    forall i: nat ensures !At(s, [c], i) {
      if At(s, [c], i) { AtChar(s, [c], i, 0); }
    }
  }

  // ----- percent-decoding -----

  predicate IsHex(c: char) {
    '0' <= c <= '9' || 'a' <= c <= 'f' || 'A' <= c <= 'F'
  }

  function HexValue(c: char): (n: nat)
    ensures n < 16
  {
    if '0' <= c <= '9' then (c - '0') as nat
    else if 'a' <= c <= 'f' then 10 + (c - 'a') as nat
    else if 'A' <= c <= 'F' then 10 + (c - 'A') as nat
    else 0
  }

  /** Both cases of every hexadecimal digit, and nothing else. */
  lemma HexExact(c: char, n: nat)
    requires n < 16
    ensures IsHex(c) && HexValue(c) == n <==> c == "0123456789abcdef"[n] || c == "0123456789ABCDEF"[n]
  {
  }

  function Cons(c: char, rest: Option<string>): Option<string> {
    match rest
    case None => None
    case Some(s) => Some([c] + s)
  }

  /** None when the source throws: a percent sign without two hexadecimal digits after it. */
  function Decode(s: string): Option<string> {
    if s == "" then Some("")
    else if s[0] == '+' then Cons(' ', Decode(s[1..]))
    else if s[0] == '%' then
      if |s| < 3 || !IsHex(s[1]) || !IsHex(s[2]) then None
      else Cons((HexValue(s[1]) * 16 + HexValue(s[2])) as char, Decode(s[3..]))
    else Cons(s[0], Decode(s[1..]))
  }

  function Prepend(a: string, rest: Option<string>): Option<string> {
    match rest
    case None => None
    case Some(s) => Some(a + s)
  }

  method DecodeText(str: string) returns (r: Option<string>)
    ensures r == Decode(str)
  {
    hide IsHex, HexValue;
    var result := "";
    var i := 0;
    assert str[0..] == str;
    PrependNothing(Decode(str));
    while i < |str|
      invariant 0 <= i <= |str|
      invariant Decode(str) == Prepend(result, Decode(str[i..]))
    {
      var s := str[i..];
      ghost var before := result;
      if str[i] == '+' {
        result := result + [' '];
        PrependCons(before, ' ', Decode(s[1..]));
        assert s[1..] == str[i + 1..];
      } else if str[i] == '%' {
        if i + 2 >= |str| { return None; }
        if !IsHex(str[i + 1]) || !IsHex(str[i + 2]) { return None; }
        var val := HexValue(str[i + 1]) * 16 + HexValue(str[i + 2]);
        result := result + [val as char];
        PrependCons(before, val as char, Decode(s[3..]));
        assert s[3..] == str[i + 3..];
        i := i + 2;
      } else {
        result := result + [str[i]];
        PrependCons(before, str[i], Decode(s[1..]));
        assert s[1..] == str[i + 1..];
      }
      i := i + 1;
    }
    assert str[i..] == "" && result + "" == result;
    return Some(result);
  }

  lemma PrependCons(a: string, c: char, rest: Option<string>)
    ensures Prepend(a, Cons(c, rest)) == Prepend(a + [c], rest)
  {
    if rest.Some? { assert a + ([c] + rest.value) == a + [c] + rest.value; }
  }

  lemma PrependNothing(rest: Option<string>)
    ensures Prepend("", rest) == rest
  {
    if rest.Some? { assert "" + rest.value == rest.value; }
  }

  /** `e` is an encoding of `v` per section 2.1 of RFC 3986, hexadecimal digits in either case, a plus sign
      for a blank, and any other character for itself. */
  predicate Encodes(e: string, v: string)
    decreases |e|
  {
    if e == "" || v == "" then e == "" && v == ""
    else
      || (e[0] == '+' && v[0] == ' ' && Encodes(e[1..], v[1..]))
      || (e[0] == '%' && |e| >= 3 && IsHex(e[1]) && IsHex(e[2])
          && HexValue(e[1]) * 16 + HexValue(e[2]) == v[0] as int && Encodes(e[3..], v[1..]))
      || (e[0] != '+' && e[0] != '%' && e[0] == v[0] && Encodes(e[1..], v[1..]))
  }

  /** Decoding inverts every valid encoding and accepts nothing else. */
  lemma {:induction false} DecodeExact(e: string, v: string)
    ensures Decode(e) == Some(v) <==> Encodes(e, v)
    decreases |e|
  {
    hide IsHex, HexValue;
    if e != "" {
      var n := if e[0] == '%' && |e| >= 3 then 3 else 1;
      if v != "" {
        DecodeExact(e[n..], v[1..]);
        assert v == [v[0]] + v[1..];
        if Decode(e[n..]).Some? { HeadTail(Decode(e[n..]).value); }
        assert forall c: char, w: string :: [c] + w == v <==> c == v[0] && w == v[1..] by { SplitHead(v); }
      }
    }
  }

  lemma HeadTail(w: string)
    ensures forall c: char :: ([c] + w)[0] == c && ([c] + w)[1..] == w && [c] + w != ""
  {
  }

  lemma SplitHead(v: string)
    requires v != ""
    ensures forall c: char, w: string :: [c] + w == v <==> c == v[0] && w == v[1..]
  {
    forall c: char, w: string ensures [c] + w == v <==> c == v[0] && w == v[1..] {
      if [c] + w == v { assert v[1..] == w; }
      if c == v[0] && w == v[1..] { assert [c] + w == v; }
    }
  }

  /** A text that decodes to nothing encodes nothing: the failures are exactly the malformed texts. */
  lemma DecodeFails(e: string)
    ensures Decode(e).None? <==> forall v :: !Encodes(e, v)
  {
    hide Decode, Encodes;
    forall v ensures Decode(e) == Some(v) <==> Encodes(e, v) { DecodeExact(e, v); }
    if Decode(e).Some? { assert Encodes(e, Decode(e).value); }
  }

  function HexDigit(n: nat): (c: char)
    requires n < 16
    ensures IsHex(c) && HexValue(c) == n && c != '&' && c != '#'
  {
    if n < 10 then '0' + n as char else 'A' + (n - 10) as char
  }

  /** One encoding that every byte string has: all bytes as percent triplets. */
  function PercentEncode(v: string): string
    requires forall i :: 0 <= i < |v| ==> v[i] as int < 256
  {
    if v == "" then ""
    else ['%', HexDigit(v[0] as int / 16), HexDigit(v[0] as int % 16)] + PercentEncode(v[1..])
  }

  lemma {:induction false} PercentEncodeOk(v: string)
    requires forall i :: 0 <= i < |v| ==> v[i] as int < 256
    ensures Encodes(PercentEncode(v), v) && '&' !in PercentEncode(v) && '#' !in PercentEncode(v)
  {
    if v != "" {
      hide IsHex, HexValue;
      PercentEncodeOk(v[1..]);
      var triplet := ['%', HexDigit(v[0] as int / 16), HexDigit(v[0] as int % 16)];
      assert (triplet + PercentEncode(v[1..]))[3..] == PercentEncode(v[1..]);
    }
  }

  // ----- parameters -----

  type Params = map<string, string>

  /** One `&`-separated piece: a key as it stands with a decoded value, or a decoded key alone. */
  function AddPair(params: Params, pair: string): Option<Params> {
    if pair == "" then Some(params)
    else match Find(pair, "=", 0)
      case None =>
        (match Decode(pair)
         case None => None
         case Some(key) => Some(params[key := ""]))
      case Some(pos) =>
        (match Decode(pair[pos + 1..])
         case None => None
         case Some(value) => Some(params[pair[..pos] := value]))
  }

  function ParseRest(query: string, params: Params): Option<Params>
    decreases |query|
  {
    if query == "" then Some(params)
    else match AddPair(params, Before(query, '&'))
      case None => None
      case Some(p) => RestShorter(query); ParseRest(After(query, '&'), p)
  }

  lemma RestShorter(query: string)
    requires query != ""
    ensures |After(query, '&')| < |query|
  {
  }

  method ParseQuery(query: string) returns (r: Option<Params>)
    ensures r == ParseRest(query, map[])
  {
    hide Decode, Before, After;
    var params: Params := map[];
    var start := 0;
    assert query[0..] == query;
    while start < |query|
      invariant 0 <= start <= |query|
      invariant ParseRest(query[start..], params) == ParseRest(query, map[])
      decreases |query| - start
    {
      var rest := query[start..];
      var end := Find(query, "&", start);
      NextPiece(query, start);
      var pair := if end.None? then query[start..] else query[start..end.value];
      start := if end.None? then |query| else end.value + 1;
      if pair == "" { continue; }
      var pos := Find(pair, "=", 0);
      var key, value := "", "";
      if pos.None? {
        var k := DecodeText(pair);
        if k.None? { return None; }
        key := k.value;
      } else {
        key := pair[..pos.value];
        var v := DecodeText(pair[pos.value + 1..]);
        if v.None? { return None; }
        value := v.value;
      }
      params := params[key := value];
    }
    assert query[start..] == "";
    return Some(params);
  }

  lemma NextPiece(query: string, start: nat)
    requires start < |query|
    ensures var end := Find(query, "&", start);
            && Before(query[start..], '&') == (if end.None? then query[start..] else query[start..end.value])
            && After(query[start..], '&') == (if end.None? then query[|query|..] else query[end.value + 1..])
  {
    hide Find;
    assert query[..start] + query[start..] == query && "&" == ['&'];
    FindShift(query[..start], query[start..], "&", 0);
    var end := Find(query, "&", start);
    if end.Some? {
      assert query[start..][..end.value - start] == query[start..end.value];
      assert query[start..][end.value - start + 1..] == query[end.value + 1..];
    } else {
      assert query[|query|..] == "";
    }
  }

  // ----- round trip -----

  /** A piece of a query as it is printed: a key with an encoding of its value, an encoding of a key that
      stands alone, nothing, or either of the first two with a text that encodes nothing. */
  datatype Item =
    | Field(key: string, encoded: string, value: string)
    | Bare(encoded: string, key: string)
    | Empty
    | BadField(key: string, encoded: string)
    | BadBare(encoded: string)

  ghost predicate Encodable(e: string) {
    exists v :: Encodes(e, v)
  }

  ghost predicate ItemOk(i: Item) {
    match i
    case Field(key, encoded, value) =>
      '&' !in key && '=' !in key && '&' !in encoded && Encodes(encoded, value)
    case Bare(encoded, key) =>
      encoded != "" && '&' !in encoded && '=' !in encoded && Encodes(encoded, key)
    case Empty => true
    case BadField(key, encoded) => '&' !in key && '=' !in key && '&' !in encoded && !Encodable(encoded)
    case BadBare(encoded) => '&' !in encoded && '=' !in encoded && !Encodable(encoded)
  }

  predicate Malformed(i: Item) {
    i.BadField? || i.BadBare?
  }

  function PrintItem(i: Item): string {
    match i
    case Field(key, encoded, _) => key + ['='] + encoded
    case Bare(encoded, _) => encoded
    case Empty => ""
    case BadField(key, encoded) => key + ['='] + encoded
    case BadBare(encoded) => encoded
  }

  function PrintQuery(items: seq<Item>): string {
    if items == [] then "" else if |items| == 1 then PrintItem(items[0])
    else PrintItem(items[0]) + ['&'] + PrintQuery(items[1..])
  }

  predicate Binds(i: Item, key: string) {
    (i.Field? || i.Bare?) && i.key == key
  }

  /** A key that stands alone has an empty value. */
  function ValueOf(i: Item): string {
    if i.Field? then i.value else ""
  }

  function Bind(i: Item, params: Params): Params {
    if i.Field? || i.Bare? then params[i.key := ValueOf(i)] else params
  }

  /** Later items win. */
  function ParamsOf(items: seq<Item>, params: Params): Params {
    if items == [] then params else ParamsOf(items[1..], Bind(items[0], params))
  }

  ghost predicate ItemsOk(items: seq<Item>) {
    forall i :: 0 <= i < |items| ==> ItemOk(items[i])
  }

  predicate AnyMalformed(items: seq<Item>) {
    exists i :: 0 <= i < |items| && Malformed(items[i])
  }

  lemma EncodableDecodes(e: string)
    ensures Decode(e).Some? <==> Encodable(e)
  {
    hide Decode, Encodes;
    if Decode(e).Some? { DecodeExact(e, Decode(e).value); }
    if Encodable(e) {
      var v :| Encodes(e, v);
      DecodeExact(e, v);
    }
  }

  lemma ValueParsed(key: string, encoded: string, params: Params)
    requires '=' !in key
    ensures AddPair(params, key + ['='] + encoded) ==
            match Decode(encoded) { case None => None case Some(v) => Some(params[key := v]) }
  {
    hide Decode, Find;
    var s := key + ['='] + encoded;
    FindChar(key, '=', encoded);
    assert "=" == ['='];
    assert s[..|key|] == key && s[|key| + 1..] == encoded;
  }

  lemma KeyParsed(encoded: string, params: Params)
    requires '=' !in encoded && encoded != ""
    ensures AddPair(params, encoded) ==
            match Decode(encoded) { case None => None case Some(k) => Some(params[k := ""]) }
  {
    hide Decode, Find;
    CharAbsent(encoded, '=');
    assert "=" == ['='];
  }

  lemma ItemParsed(i: Item, params: Params)
    requires ItemOk(i)
    ensures AddPair(params, PrintItem(i)) == if Malformed(i) then None else Some(Bind(i, params))
    ensures '&' !in PrintItem(i)
  {
    hide Decode, Encodes, AddPair, Encodable;
    match i
    case Field(key, encoded, value) => ValueParsed(key, encoded, params); DecodeExact(encoded, value);
    case Bare(encoded, key) => KeyParsed(encoded, params); DecodeExact(encoded, key);
    case Empty => NothingParsed(params);
    case BadField(key, encoded) => ValueParsed(key, encoded, params); EncodableDecodes(encoded);
    case BadBare(encoded) =>
      EncodableDecodes(encoded);
      NothingEncodable();
      KeyParsed(encoded, params);
  }

  lemma NothingParsed(params: Params)
    ensures AddPair(params, "") == Some(params)
  {
  }

  lemma NothingEncodable()
    ensures Encodable("")
  {
    assert Encodes("", "");
  }

  /** Every list of items, printed: the query fails if and only if some item encodes nothing, and otherwise
      the items are bound one after the other. */
  lemma {:induction false} QueryParsed(items: seq<Item>, params: Params)
    requires ItemsOk(items)
    ensures ParseRest(PrintQuery(items), params) ==
            if AnyMalformed(items) then None else Some(ParamsOf(items, params))
    decreases |items|
  {
    hide AddPair, PrintItem, Before, After, ItemOk, Malformed, Bind;
    if items != [] {
      var i, q, rest := items[0], PrintQuery(items), PrintQuery(items[1..]);
      ItemParsed(i, params);
      BeforeJoin(PrintItem(i), '&', rest);
      MalformedSplit(items);
      if q == "" {
        NothingPrinted(items, params);
      } else {
        assert Before(q, '&') == PrintItem(i) && After(q, '&') == rest;
        if !Malformed(i) { QueryParsed(items[1..], Bind(i, params)); }
      }
    }
  }

  lemma MalformedSplit(items: seq<Item>)
    requires items != []
    ensures AnyMalformed(items) <==> Malformed(items[0]) || AnyMalformed(items[1..])
  {
    hide Malformed;
    if AnyMalformed(items) {
      var k :| 0 <= k < |items| && Malformed(items[k]);
      if k > 0 { assert items[1..][k - 1] == items[k]; }
    }
    if AnyMalformed(items[1..]) {
      var k :| 0 <= k < |items[1..]| && Malformed(items[1..][k]);
      assert items[k + 1] == items[1..][k];
    }
  }

  /** Only a single empty item prints as nothing. */
  lemma NothingPrinted(items: seq<Item>, params: Params)
    requires ItemsOk(items) && items != [] && PrintQuery(items) == ""
    ensures !AnyMalformed(items) && ParamsOf(items, params) == params
  {
    assert |items| == 1 && ItemOk(items[0]);
    NothingEncodable();
    assert items[0] == Empty;
    assert items[1..] == [];
  }

  /** Every query is a printed list of items, so the result above is about all queries. */
  lemma {:induction false} ItemsExist(query: string) returns (items: seq<Item>)
    ensures items != [] && ItemsOk(items) && PrintQuery(items) == query
    decreases |query|
  {
    hide ItemOk, PrintItem, Before, After;
    if '&' in query {
      AtSeparator(query, '&');
      var i := ItemExists(Before(query, '&'));
      var rest := ItemsExist(After(query, '&'));
      items := [i] + rest;
      assert items[1..] == rest;
    } else {
      var i := ItemExists(query);
      items := [i];
    }
  }

  lemma AtSeparator(s: string, c: char)
    requires c in s
    ensures s == Before(s, c) + [c] + After(s, c) && c !in Before(s, c) && |After(s, c)| < |s|
  {
    hide Find;
    var k :| 0 <= k < |s| && s[k] == c;
    assert At(s, [c], k);
    var i := Find(s, [c], 0).value;
    assert s[i] == c by { AtChar(s, [c], i, 0); }
    forall j | 0 <= j < i ensures s[j] != c { assert s[j..j + 1] == [s[j]]; assert !At(s, [c], j); }
    assert s == s[..i] + [s[i]] + s[i + 1..];
  }

  lemma ItemExists(piece: string) returns (i: Item)
    requires '&' !in piece
    ensures ItemOk(i) && PrintItem(i) == piece
  {
    hide Encodes, Before, After;
    if '=' in piece {
      AtSeparator(piece, '=');
      var key, encoded := Before(piece, '='), After(piece, '=');
      if Encodable(encoded) {
        var v :| Encodes(encoded, v);
        i := Field(key, encoded, v);
      } else {
        i := BadField(key, encoded);
      }
    } else if piece == "" {
      i := Empty;
    } else if Encodable(piece) {
      var k :| Encodes(piece, k);
      i := Bare(piece, k);
    } else {
      i := BadBare(piece);
    }
  }

  lemma {:induction false} QueryHashFree(items: seq<Item>)
    requires forall i :: 0 <= i < |items| ==> '#' !in PrintItem(items[i])
    ensures '#' !in PrintQuery(items)
    decreases |items|
  {
    hide PrintItem;
    if items != [] { QueryHashFree(items[1..]); }
  }

  /** The main result: for every path without '?' and '#' and every list of items without '#', splitting and
      parsing the printed target gives back the path and the last-wins map of values, or fails when an item
      encodes nothing. */
  lemma TargetRoundTrip(path: string, items: seq<Item>)
    requires '?' !in path && '#' !in path && ItemsOk(items)
    requires forall i :: 0 <= i < |items| ==> '#' !in PrintItem(items[i])
    ensures var target := path + ['?'] + PrintQuery(items);
            && Before(Before(target, '#'), '?') == path
            && After(Before(target, '#'), '?') == PrintQuery(items)
            && ParseRest(After(Before(target, '#'), '?'), map[]) ==
               (if AnyMalformed(items) then None else Some(ParamsOf(items, map[])))
  {
    hide Before, After, ParseRest, PrintQuery, ParamsOf, ItemsOk, PrintItem, AnyMalformed;
    var q := PrintQuery(items);
    var target := path + ['?'] + q;
    QueryHashFree(items);
    BeforeJoin(target, '#', "");
    BeforeJoin(path, '?', q);
    QueryParsed(items, map[]);
  }

  lemma {:induction false} ParamsKept(items: seq<Item>, params: Params, key: string)
    requires forall j :: 0 <= j < |items| ==> !Binds(items[j], key)
    ensures key in ParamsOf(items, params) <==> key in params
    ensures key in params ==> ParamsOf(items, params)[key] == params[key]
    decreases |items|
  {
    if items != [] { ParamsKept(items[1..], Bind(items[0], params), key); }
  }

  /** What the map means: a key is bound to its last item's value, empty for a key that stands alone; by
      the lemma above no other key is bound or changed, and empty items change nothing. */
  lemma {:induction false} ParamsMean(items: seq<Item>, params: Params, i: nat, key: string)
    requires i < |items| && Binds(items[i], key) && forall j :: i < j < |items| ==> !Binds(items[j], key)
    ensures key in ParamsOf(items, params) && ParamsOf(items, params)[key] == ValueOf(items[i])
    decreases |items|
  {
    var params' := Bind(items[0], params);
    if i == 0 {
      ParamsKept(items[1..], params', key);
    } else {
      ParamsMean(items[1..], params', i - 1, key);
    }
  }

  /** Keys are not decoded when they have a value but are when they stand alone. */
  lemma KeysDecodedAlone()
    ensures AddPair(map[], "%41") == Some(map["A" := ""])
    ensures AddPair(map[], "%41=") == Some(map["%41" := ""])
  {
    CharAbsent("%41", '=');
    assert "%41=" == "%41" + ['='] + "" && "=" == ['='];
    FindChar("%41", '=', "");
    assert "%41"[3..] == "";
    assert Decode("%41") == Some("A") by { assert ['A'] + "" == "A" && 65 as char == 'A'; }
    assert "%41="[..3] == "%41" && "%41="[4..] == "";
  }
}
