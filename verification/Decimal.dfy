/**
  Decimal text: what `std::to_string` prints and what `std::stoi` and `std::stoul` read.
 */
module Decimal {
  import opened Lex

  datatype Option<+T> = None | Some(value: T)

  predicate IsDigit(c: char) {
    '0' <= c <= '9'
  }

  predicate AllDigits(s: string) {
    forall i :: 0 <= i < |s| ==> IsDigit(s[i])
  }

  function DigitChar(d: nat): (c: char)
    requires d < 10
    ensures IsDigit(c) && DigitValue(c) == d
  {
    '0' + d as char
  }

  function DigitValue(c: char): (d: nat)
    requires IsDigit(c)
    ensures d < 10
  {
    (c - '0') as nat
  }

  /** `std::to_string` of an unsigned number. */
  function Dec(n: nat): (s: string)
    ensures s != [] && AllDigits(s)
  {
    if n < 10 then [DigitChar(n)] else Dec(n / 10) + [DigitChar(n % 10)]
  }

  /** `std::to_string` of a signed number. */
  function DecInt(i: int): string {
    if i < 0 then "-" + Dec(-i) else Dec(i)
  }

  function ParseDigits(s: string): (n: nat)
    requires AllDigits(s)
  {
    if s == [] then 0 else ParseDigits(s[..|s| - 1]) * 10 + DigitValue(s[|s| - 1])
  }

  lemma {:induction false} ParseDec(n: nat)
    ensures ParseDigits(Dec(n)) == n
  {
    var s := Dec(n);
    if n < 10 {
      assert s[..|s| - 1] == [];
      assert ParseDigits(s[..|s| - 1]) == 0;
    } else {
      assert s[..|s| - 1] == Dec(n / 10);
      ParseDec(n / 10);
    }
  }

  lemma DecInjective(a: nat, b: nat)
    requires Dec(a) == Dec(b)
    ensures a == b
  {
    ParseDec(a);
    ParseDec(b);
  }

  lemma DecIntInjective(a: int, b: int)
    requires DecInt(a) == DecInt(b)
    ensures a == b
  {
    var x, y := if a < 0 then -a else a, if b < 0 then -b else b;
    assert IsDigit(Dec(x)[0]) && IsDigit(Dec(y)[0]);
    assert (a < 0 ==> DecInt(a)[0] == '-') && (b < 0 ==> DecInt(b)[0] == '-');
    if (a < 0) == (b < 0) {
      assert a < 0 ==> DecInt(a)[1..] == Dec(x) && DecInt(b)[1..] == Dec(y);
      DecInjective(x, y);
    } else {
      assert false;
    }
  }

  lemma DecIntColonFree(i: int)
    ensures DecInt(i) != [] && ':' !in DecInt(i)
  {
    var s := Dec(if i < 0 then -i else i);
    assert forall j :: 0 <= j < |s| ==> IsDigit(s[j]);
  }

  /** Among numbers of equal printed width, textual order is numeric order. */
  lemma {:induction false} EqualWidthOrder(a: nat, b: nat)
    requires |Dec(a)| == |Dec(b)|
    ensures Less(Dec(a), Dec(b)) <==> a < b
  {
    if a >= 10 && b >= 10 {
      EqualWidthOrder(a / 10, b / 10);
      var c, d := DigitChar(a % 10), DigitChar(b % 10);
      SameLength(Dec(a / 10), Dec(b / 10), [c], [d]);
      assert [c][1..] == [] && [d][1..] == [];
      if Dec(a / 10) == Dec(b / 10) { DecInjective(a / 10, b / 10); }
    } else {
      assert a >= 10 ==> |Dec(a)| >= 2;
      assert b >= 10 ==> |Dec(b)| >= 2;
      var s, t := Dec(a), Dec(b);
      assert s[1..] == [] && t[1..] == [];
    }
  }

  /** The number without its last digits: the first w digits of its text. */
  function Cut(n: nat, w: nat): nat {
    if n < 10 || |Dec(n)| <= w then n else Cut(n / 10, w)
  }

  lemma {:induction false} CutDec(n: nat, w: nat)
    requires 1 <= w <= |Dec(n)|
    ensures Dec(Cut(n, w)) == Dec(n)[..w]
  {
    if |Dec(n)| > w {
      assert n >= 10 && Dec(n)[..|Dec(n)| - 1] == Dec(n / 10);
      CutDec(n / 10, w);
    } else {
      assert Dec(n)[..w] == Dec(n);
    }
  }

  lemma {:induction false} WiderIsLarger(a: nat, b: nat)
    requires a <= b
    ensures |Dec(a)| <= |Dec(b)|
  {
    if a >= 10 { WiderIsLarger(a / 10, b / 10); }
  }

  /** A number followed by a colon against a longer one: the longer one is cut to the same width, and what
      was cut off decides on a tie. */
  lemma CutSplit(a: nat, b: nat, x: string, y: string)
    requires |Dec(a)| <= |Dec(b)|
    ensures var w := |Dec(a)|;
            var rest := Dec(b)[w..] + (":" + y);
            && (Less(Dec(a) + ":" + x, Dec(b) + ":" + y) <==> a < Cut(b, w) || (a == Cut(b, w) && Less(":" + x, rest)))
            && (Less(Dec(b) + ":" + y, Dec(a) + ":" + x) <==> Cut(b, w) < a || (a == Cut(b, w) && Less(rest, ":" + x)))
  {
    hide Dec, Cut, Less;
    var w := |Dec(a)|;
    var p, rest := Dec(b)[..w], Dec(b)[w..] + (":" + y);
    CutDec(b, w);
    EqualWidthOrder(a, Cut(b, w));
    EqualWidthOrder(Cut(b, w), a);
    assert Dec(a) + ":" + x == Dec(a) + (":" + x);
    Regroup(Dec(b), w, y);
    SameLength(Dec(a), p, ":" + x, rest);
    SameLength(p, Dec(a), rest, ":" + x);
    if p == Dec(a) { DecInjective(a, Cut(b, w)); }
  }

  lemma Regroup(d: string, w: nat, y: string)
    requires w <= |d|
    ensures d + ":" + y == d[..w] + (d[w..] + (":" + y))
  {
  }

  /** A digit is below the colon. */
  lemma DigitBelowColon(d: string, x: string, y: string)
    requires AllDigits(d) && d != ""
    ensures Less(d + x, ":" + y) && !Less(":" + y, d + x)
  {
    assert (d + x)[0] == d[0] && IsDigit(d[0]);
  }

  lemma CutComparison(a: nat, b: nat, x: string, y: string)
    requires |Dec(a)| <= |Dec(b)| && a != b
    ensures Less(Dec(a) + ":" + x, Dec(b) + ":" + y) <==> a < Cut(b, |Dec(a)|)
    ensures Less(Dec(b) + ":" + y, Dec(a) + ":" + x) <==> Cut(b, |Dec(a)|) <= a
  {
    hide Dec, Less, Cut;
    var w := |Dec(a)|;
    CutSplit(a, b, x, y);
    CutDec(b, w);
    if w < |Dec(b)| {
      DigitBelowColon(Dec(b)[w..], ":" + y, x);
    } else {
      assert Dec(b)[..w] == Dec(b);
      DecInjective(b, Cut(b, w));
    }
  }

  /** For a < b: whether their texts, each followed by a colon, sort that way. Cutting the longer text to
      the width of the shorter must leave the numbers in order; a tie counts against the longer text when
      it is the larger number, and for it when it is the smaller. */
  predicate InOrder(a: int, b: int)
    requires a < b
  {
    if a < 0 <= b then true
    else if 0 <= a then a < Cut(b, |Dec(a)|)
    else Cut(-a, |Dec(-b)|) <= -b
  }

  lemma TextOrder(a: int, b: int, x: string, y: string)
    requires a < b
    ensures Less(DecInt(a) + ":" + x, DecInt(b) + ":" + y) <==> InOrder(a, b)
  {
    hide Dec, Cut;
    if a < 0 <= b {
      var s, t := DecInt(a) + ":" + x, DecInt(b) + ":" + y;
      assert s[0] == '-' && t[0] == Dec(b)[0] && IsDigit(Dec(b)[0]);
    } else {
      hide Less;
      if 0 <= a {
        WiderIsLarger(a, b);
        CutComparison(a, b, x, y);
      } else {
        WiderIsLarger(-b, -a);
        CutComparison(-b, -a, y, x);
        MinusInFront(a, x);
        MinusInFront(b, y);
        CommonPrefix("-", Dec(-a) + ":" + x, Dec(-b) + ":" + y);
      }
    }
  }

  lemma MinusInFront(a: int, x: string)
    requires a < 0
    ensures DecInt(a) + ":" + x == "-" + (Dec(-a) + ":" + x)
  {
  }

  lemma CutWide(a: nat, b: nat)
    requires |Dec(a)| == |Dec(b)|
    ensures Cut(a, |Dec(b)|) == a
  {
  }

  /** Times of one width are in order. */
  lemma EqualWidthInOrder(a: nat, b: nat)
    requires a < b && |Dec(a)| == |Dec(b)|
    ensures InOrder(a, b)
  {
    CutWide(b, a);
  }

  // ----- reading -----

  predicate IsSpace(c: char) {
    c == ' ' || '\t' <= c <= '\r'
  }

  function SkipSpace(s: string): string {
    if s != [] && IsSpace(s[0]) then SkipSpace(s[1..]) else s
  }

  /** The longest prefix of digits. */
  function LeadingDigits(s: string): (d: string)
    ensures AllDigits(d) && d <= s
  {
    if s != [] && IsDigit(s[0]) then [s[0]] + LeadingDigits(s[1..]) else []
  }

  datatype Scanned = Scanned(negative: bool, magnitude: nat)

  /** `strtol` and `strtoul`: blanks, an optional sign, then the longest run of digits. */
  function Scan(s: string): Option<Scanned> {
    ScanSigned(SkipSpace(s))
  }

  function ScanSigned(t: string): Option<Scanned> {
    if t != [] && t[0] == '-' then ScanDigits(true, t[1..])
    else if t != [] && t[0] == '+' then ScanDigits(false, t[1..])
    else ScanDigits(false, t)
  }

  function ScanDigits(negative: bool, u: string): Option<Scanned> {
    var digits := LeadingDigits(u);
    if digits == [] then None else Some(Scanned(negative, ParseDigits(digits)))
  }

  const INT_MAX: int := 0x7FFF_FFFF
  const UINT32: nat := 0x1_0000_0000
  const UINT64: nat := 0x1_0000_0000_0000_0000

  /** `std::stoi`; None when it throws. */
  function Stoi(s: string): Option<int> {
    match Scan(s)
    case None => None
    case Some(Scanned(negative, magnitude)) =>
      var v: int := if negative then -(magnitude as int) else magnitude;
      if -INT_MAX - 1 <= v <= INT_MAX then Some(v) else None
  }

  /** `std::stoul` assigned to a `uint32_t`; None when it throws. */
  function StoulU32(s: string): Option<nat> {
    match Scan(s)
    case None => None
    case Some(Scanned(negative, magnitude)) =>
      if magnitude >= UINT64 then None
      else if negative then Some((UINT64 - magnitude) % UINT32)
      else Some(magnitude % UINT32)
  }

  lemma {:induction false} LeadingDigitsStop(d: string, s: string)
    requires AllDigits(d)
    requires s == [] || !IsDigit(s[0])
    ensures LeadingDigits(d + s) == d
  {
    if d == [] {
      assert d + s == s;
    } else {
      assert (d + s)[1..] == d[1..] + s;
      LeadingDigitsStop(d[1..], s);
    }
  }

  /** Reading stops at the first character that is no digit. */
  lemma ScanDec(n: nat, s: string)
    requires s == [] || !IsDigit(s[0])
    ensures Scan(Dec(n) + s) == Some(Scanned(false, n))
  {
    var t := Dec(n) + s;
    assert IsDigit(Dec(n)[0]) && t[0] == Dec(n)[0];
    LeadingDigitsStop(Dec(n), s);
    ParseDec(n);
  }

  lemma ScanDecAll(n: nat)
    ensures Scan(Dec(n)) == Some(Scanned(false, n))
  {
    assert Dec(n) + [] == Dec(n);
    ScanDec(n, []);
  }

  /** The print/parse round trip of `int`; numbers past INT_MAX make `std::stoi` throw. */
  lemma StoiDec(n: nat)
    ensures Stoi(Dec(n)) == if n <= INT_MAX then Some(n) else None
  {
    hide Scan, Dec;
    ScanDecAll(n);
  }

  lemma StoulDec(n: nat)
    requires n < UINT32
    ensures StoulU32(Dec(n)) == Some(n)
  {
    hide Scan, Dec;
    ScanDecAll(n);
  }

  // ----- every text -----

  predicate AllSpace(s: string) {
    forall i :: 0 <= i < |s| ==> IsSpace(s[i])
  }

  predicate IsSign(s: string) {
    s == "" || s == "-" || s == "+"
  }

  lemma {:induction false} SpaceSkipped(ws: string, s: string)
    requires AllSpace(ws) && (s == "" || !IsSpace(s[0]))
    ensures SkipSpace(ws + s) == s
  {
    if ws == "" {
      assert ws + s == s;
    } else {
      assert (ws + s)[1..] == ws[1..] + s;
      SpaceSkipped(ws[1..], s);
    }
  }

  /** White space, an optional sign and digits are read up to the first character that is no digit. */
  lemma ScanReads(ws: string, sign: string, digits: string, rest: string)
    requires AllSpace(ws) && IsSign(sign) && AllDigits(digits) && digits != "" && (rest == "" || !IsDigit(rest[0]))
    ensures Scan(ws + (sign + (digits + rest))) == Some(Scanned(sign == "-", ParseDigits(digits)))
  {
    hide LeadingDigits, ParseDigits, SkipSpace;
    var u := digits + rest;
    assert u[0] == digits[0] && IsDigit(digits[0]);
    SignSkipped(sign, u);
    LeadingDigitsStop(digits, rest);
    SpaceSkipped(ws, sign + u);
  }

  lemma SignSkipped(sign: string, u: string)
    requires IsSign(sign) && (sign == "" && u != "" ==> !IsSpace(u[0]) && u[0] != '-' && u[0] != '+')
    ensures ScanSigned(sign + u) == ScanDigits(sign == "-", u)
    ensures sign + u == "" || !IsSpace((sign + u)[0])
  {
    hide ScanDigits;
    assert sign == "" ==> sign + u == u;
    assert sign != "" ==> (sign + u)[0] == sign[0] && (sign + u)[1..] == u;
  }

  /** Without a digit after white space and sign nothing is read. */
  lemma ScanFails(ws: string, sign: string, rest: string)
    requires AllSpace(ws) && IsSign(sign) && (rest == "" || !IsDigit(rest[0]))
    requires sign == "" && rest != "" ==> !IsSpace(rest[0]) && rest[0] != '-' && rest[0] != '+'
    ensures Scan(ws + (sign + rest)) == None
  {
    hide ParseDigits, SkipSpace;
    SignSkipped(sign, rest);
    SpaceSkipped(ws, sign + rest);
  }

  /** `std::stoi` of such a text, and `std::stoul` cast to `uint32_t`, where a minus sign negates modulo. */
  lemma NumberReads(ws: string, sign: string, digits: string, rest: string)
    requires AllSpace(ws) && IsSign(sign) && AllDigits(digits) && digits != "" && (rest == "" || !IsDigit(rest[0]))
    ensures var text := ws + (sign + (digits + rest));
            var n: int := ParseDigits(digits);
            var v := if sign == "-" then -n else n;
            && Stoi(text) == (if -0x8000_0000 <= v <= 0x7FFF_FFFF then Some(v) else None)
            && StoulU32(text) == (if n < 0x1_0000_0000_0000_0000 then Some(v % 0x1_0000_0000) else None)
  {
    hide Scan;
    ScanReads(ws, sign, digits, rest);
    Negated(ParseDigits(digits));
  }

  lemma Negated(n: int)
    ensures (UINT64 - n) % UINT32 == (-n) % UINT32
  {
    assert UINT64 - n == -n + 0x1_0000_0000 * UINT32;
  }
}
