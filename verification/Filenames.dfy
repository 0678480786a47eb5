/** Cleaning uploaded file names: special characters, runs of dots and dots at either end go. */
module Filenames {
  import opened Decimal

  /** The characters of the first regular expression; its \s is any white space. */
  predicate IsSpecial(c: char) {
    || c in {'/', '\\', ':', '*', '?', '"', '<', '>', '|', '(', ')', '[', ']', '{', '}', ',', ';', '\''}
    || c in {'#', '@', '%', '&', '$', '^', '~', '=', '+', '-', '!'}
    || IsSpace(c)
  }

  function DropSpecial(s: string): string {
    if s == "" then ""
    else if IsSpecial(s[0]) then DropSpecial(s[1..])
    else [s[0]] + DropSpecial(s[1..])
  }

  /** The number of dots a string starts with. */
  function LeadingDots(s: string): (n: nat)
    ensures n <= |s| && (forall i :: 0 <= i < n ==> s[i] == '.') && (n < |s| ==> s[n] != '.')
  {
    if s != "" && s[0] == '.' then 1 + LeadingDots(s[1..]) else 0
  }

  /** Every run of two or more dots is removed as a whole. */
  function DropDotRuns(s: string): string
    decreases |s|
  {
    if s == "" then ""
    else if LeadingDots(s) >= 2 then DropDotRuns(s[LeadingDots(s)..])
    else [s[0]] + DropDotRuns(s[1..])
  }

  function DropFirstDot(s: string): string {
    if s != "" && s[0] == '.' then s[1..] else s
  }

  function DropLastDot(s: string): string {
    if s != "" && s[|s| - 1] == '.' then s[..|s| - 1] else s
  }

  function Trim(filename: string): string {
    DropLastDot(DropFirstDot(DropDotRuns(DropSpecial(filename))))
  }

  /** The cleaned name is in normal form and keeps, in order, all characters that are neither special nor
      dots; a name already in normal form stays as it is. */
  method TrimFilename(filename: string) returns (res: string)
    ensures Normal(res) && Letters(res) == Letters(filename)
    ensures Normal(filename) ==> res == filename
    ensures res == Trim(filename)
  {
    hide Normal, Letters, DropSpecial, DropDotRuns;
    TrimNormalises(filename);
    res := DropSpecial(filename);
    res := DropDotRuns(res);
    if res != "" && res[0] == '.' { res := res[1..]; }
    if res != "" && res[|res| - 1] == '.' { res := res[..|res| - 1]; }
  }

  // ----- the normal form -----

  ghost predicate Clean(s: string) {
    forall i :: 0 <= i < |s| ==> !IsSpecial(s[i])
  }

  ghost predicate SingleDots(s: string) {
    forall i :: 0 <= i < |s| - 1 ==> !(s[i] == '.' && s[i + 1] == '.')
  }

  ghost predicate Normal(s: string) {
    Clean(s) && SingleDots(s) && (s != "" ==> s[0] != '.' && s[|s| - 1] != '.')
  }

  /** What a name keeps in any case: its characters that are neither special nor dots. */
  function Letters(s: string): string {
    if s == "" then ""
    else if IsSpecial(s[0]) || s[0] == '.' then Letters(s[1..])
    else [s[0]] + Letters(s[1..])
  }

  lemma {:induction false} DropSpecialClean(s: string)
    ensures Clean(DropSpecial(s)) && Letters(DropSpecial(s)) == Letters(s)
    ensures Clean(s) ==> DropSpecial(s) == s
  {
    hide IsSpecial;
    if s != "" {
      DropSpecialClean(s[1..]);
      assert s == [s[0]] + s[1..];
      if !IsSpecial(s[0]) {
        var t := [s[0]] + DropSpecial(s[1..]);
        assert t[1..] == DropSpecial(s[1..]);
      }
    }
  }

  lemma {:induction false} LettersDots(s: string, n: nat)
    requires n <= |s| && forall i :: 0 <= i < n ==> s[i] == '.'
    ensures Letters(s[n..]) == Letters(s)
  {
    hide IsSpecial;
    if n == 0 {
      assert s[0..] == s;
    } else {
      LettersDots(s[1..], n - 1);
      assert s[1..][n - 1..] == s[n..];
    }
  }

  /** Putting one character in front keeps what the form asks for, unless two dots meet. */
  lemma InFront(c: char, t: string)
    requires !IsSpecial(c)
    ensures Clean([c] + t) <==> Clean(t)
    ensures SingleDots([c] + t) <==> SingleDots(t) && !(c == '.' && t != "" && t[0] == '.')
    ensures Letters([c] + t) == if c == '.' then Letters(t) else [c] + Letters(t)
  {
    hide IsSpecial;
    var s := [c] + t;
    assert s[1..] == t && s[0] == c;
    assert forall i :: 0 <= i < |t| ==> s[i + 1] == t[i];
    if Clean(s) {
      forall i | 0 <= i < |t| ensures !IsSpecial(t[i]) { assert s[i + 1] == t[i]; }
    }
    if SingleDots(s) {
      forall i | 0 <= i < |t| - 1 ensures !(t[i] == '.' && t[i + 1] == '.') {
        assert s[i + 1] == t[i] && s[i + 2] == t[i + 1];
      }
    }
  }

  lemma {:induction false} DropDotRunsSingle(s: string)
    requires Clean(s)
    ensures var r := DropDotRuns(s);
            && Clean(r) && SingleDots(r) && Letters(r) == Letters(s)
            && (LeadingDots(s) != 1 && r != "" ==> r[0] != '.')
            && (SingleDots(s) ==> r == s)
    decreases |s|
  {
    hide IsSpecial, Letters;
    if s != "" {
      var n := LeadingDots(s);
      if n >= 2 {
        assert Clean(s[n..]);
        DropDotRunsSingle(s[n..]);
        LettersDots(s, n);
        assert s[0] == '.' && s[1] == '.';
      } else {
        hide Clean, SingleDots;
        assert s == [s[0]] + s[1..];
        assert !IsSpecial(s[0]) by { FirstClean(s); }
        InFront(s[0], s[1..]);
        DropDotRunsSingle(s[1..]);
        InFront(s[0], DropDotRuns(s[1..]));
        assert n == 1 ==> LeadingDots(s[1..]) == 0;
      }
    }
  }

  lemma FirstClean(s: string)
    requires Clean(s) && s != ""
    ensures !IsSpecial(s[0])
  {
  }

  lemma {:induction false} LettersLast(s: string)
    requires s != "" && s[|s| - 1] == '.'
    ensures Letters(s[..|s| - 1]) == Letters(s)
  {
    hide IsSpecial;
    if |s| > 1 {
      LettersLast(s[1..]);
      assert s[1..][..|s| - 2] == s[..|s| - 1][1..];
    }
  }

  /** The main result: every trimmed name is in normal form and keeps all other characters in order, and
      the names that trimming leaves alone are exactly those in normal form. */
  lemma TrimNormalises(s: string)
    ensures Normal(Trim(s))
    ensures Letters(Trim(s)) == Letters(s)
    ensures Trim(s) == s <==> Normal(s)
    ensures Trim(Trim(s)) == Trim(s)
  {
    hide IsSpecial, DropSpecial, DropDotRuns, Letters;
    TrimNormal(s);
    if Normal(s) { NormalFixed(s); }
    NormalFixed(Trim(s));
  }

  lemma TrimNormal(s: string)
    ensures Normal(Trim(s))
    ensures Letters(Trim(s)) == Letters(s)
  {
    hide IsSpecial, DropSpecial, DropDotRuns, Letters;
    DropSpecialClean(s);
    DropDotRunsSingle(DropSpecial(s));
    EndsTrimmed(DropDotRuns(DropSpecial(s)));
  }

  lemma EndsTrimmed(b: string)
    requires Clean(b) && SingleDots(b)
    ensures Normal(DropLastDot(DropFirstDot(b))) && Letters(DropLastDot(DropFirstDot(b))) == Letters(b)
  {
    hide IsSpecial;
    var c := DropFirstDot(b);
    assert SingleDots(c) && Clean(c) && (c != "" ==> c[0] != '.');
    if c != "" && c[|c| - 1] == '.' { LettersLast(c); }
  }

  lemma NormalFixed(s: string)
    requires Normal(s)
    ensures Trim(s) == s
  {
    hide IsSpecial, DropSpecial, DropDotRuns;
    DropSpecialClean(s);
    DropDotRunsSingle(s);
  }

  // ----- which characters survive -----

  /** Among printable ASCII characters exactly letters, digits, the dot, the underscore and the back-quote are
      not special; of the others, only white space is. */
  lemma SpecialExactly(c: char)
    ensures '!' <= c <= '~' ==>
              (IsSpecial(c) <==> !('a' <= c <= 'z' || 'A' <= c <= 'Z' || '0' <= c <= '9' || c in "._`"))
    ensures !('!' <= c <= '~') ==>
              (IsSpecial(c) <==> c == ' ' || c == '\t' || c == '\n' || c == 11 as char || c == 12 as char || c == '\r')
  {
    hide IsSpecial;
    if '!' <= c <= '~' { SpecialPrintable(c); } else { SpecialOther(c); }
  }

  lemma SpecialPrintable(c: char)
    requires '!' <= c <= '~'
    ensures IsSpecial(c) <==> !('a' <= c <= 'z' || 'A' <= c <= 'Z' || '0' <= c <= '9' || c in "._`")
  {
  }

  lemma SpecialOther(c: char)
    requires !('!' <= c <= '~')
    ensures IsSpecial(c) <==> c == ' ' || c == '\t' || c == '\n' || c == 11 as char || c == 12 as char || c == '\r'
  {
    assert '\t' == 9 as char && '\n' == 10 as char && '\r' == 13 as char;
  }

  /** Removing special characters looks at one character at a time. */
  lemma {:induction false} DropSpecialJoins(a: string, b: string)
    ensures DropSpecial(a + b) == DropSpecial(a) + DropSpecial(b)
    ensures forall c :: DropSpecial([c]) == if IsSpecial(c) then "" else [c]
  {
    hide IsSpecial;
    forall c ensures DropSpecial([c]) == if IsSpecial(c) then "" else [c] { assert [c][1..] == ""; }
    if a == "" {
      assert a + b == b;
    } else {
      assert (a + b)[1..] == a[1..] + b;
      DropSpecialJoins(a[1..], b);
      assert [a[0]] + DropSpecial(a[1..]) + DropSpecial(b) == [a[0]] + (DropSpecial(a[1..]) + DropSpecial(b));
    }
  }

  /** The characters of t from position i on whose positions are in ks. */
  function Pick(t: string, ks: set<int>, i: nat): string
    requires i <= |t|
    decreases |t| - i
  {
    if i == |t| then "" else (if i in ks then [t[i]] else "") + Pick(t, ks, i + 1)
  }

  /** No dot next to it. */
  predicate Lonely(t: string, i: int)
    requires 0 <= i < |t|
  {
    (i > 0 ==> t[i - 1] != '.') && (i < |t| - 1 ==> t[i + 1] != '.')
  }

  function Isolated(t: string): set<int> {
    set i | 0 <= i < |t| && (t[i] != '.' || Lonely(t, i))
  }

  /** All characters but dots, and the dots that stand alone and at neither end. */
  function Kept(t: string): set<int> {
    set i | 0 <= i < |t| && (t[i] != '.' || (0 < i < |t| - 1 && Lonely(t, i)))
  }

  lemma {:induction false} PickSame(t: string, ks: set<int>, other: set<int>, i: nat)
    requires i <= |t| && forall j :: i <= j < |t| ==> (j in ks <==> j in other)
    ensures Pick(t, ks, i) == Pick(t, other, i)
    decreases |t| - i
  {
    if i < |t| { PickSame(t, ks, other, i + 1); }
  }

  lemma {:induction false} PickSkips(t: string, ks: set<int>, i: nat, n: nat)
    requires i <= n <= |t| && forall j :: i <= j < n ==> j !in ks
    ensures Pick(t, ks, i) == Pick(t, ks, n)
    decreases n - i
  {
    if i < n {
      PickSkips(t, ks, i + 1, n);
      assert "" + Pick(t, ks, i + 1) == Pick(t, ks, i + 1);
    }
  }

  lemma {:induction false} PickHead(t: string, ks: set<int>, i: nat) returns (p: nat)
    requires i <= |t| && Pick(t, ks, i) != ""
    ensures i <= p < |t| && p in ks && Pick(t, ks, i)[0] == t[p] && forall j :: i <= j < p ==> j !in ks
    decreases |t| - i
  {
    if i in ks {
      p := i;
    } else {
      assert "" + Pick(t, ks, i + 1) == Pick(t, ks, i + 1);
      p := PickHead(t, ks, i + 1);
    }
  }

  lemma {:induction false} PickLast(t: string, ks: set<int>, i: nat) returns (p: nat)
    requires i <= |t| && Pick(t, ks, i) != ""
    ensures i <= p < |t| && p in ks && (forall j :: p < j < |t| ==> j !in ks)
    ensures Pick(t, ks, i) == Pick(t, ks - {p as int}, i) + [t[p]]
    decreases |t| - i
  {
    if Pick(t, ks, i + 1) != "" {
      p := PickLast(t, ks, i + 1);
      var one := if i in ks then [t[i]] else "";
      var less := Pick(t, ks - {p as int}, i + 1);
      assert one + (less + [t[p]]) == one + less + [t[p]];
    } else {
      p := i;
      NonePicked(t, ks, i + 1);
      PickSame(t, ks, ks - {p as int}, i + 1);
      assert [t[i]] + "" == "" + "" + [t[i]];
    }
  }

  lemma {:induction false} NonePicked(t: string, ks: set<int>, i: nat)
    requires i <= |t| && Pick(t, ks, i) == ""
    ensures forall j :: i <= j < |t| ==> j !in ks
    decreases |t| - i
  {
    if i < |t| { NonePicked(t, ks, i + 1); }
  }

  /** From a position that does not split a run of dots, the runs that go are the dots that do not stand
      alone. */
  lemma {:induction false} RunsDropped(t: string, i: nat)
    requires i <= |t| && (0 < i < |t| ==> t[i - 1] != '.' || t[i] != '.')
    ensures DropDotRuns(t[i..]) == Pick(t, Isolated(t), i)
    decreases |t| - i
  {
    hide Isolated, DropDotRuns, LeadingDots;
    DropAt(t, i);
    if i < |t| {
      var n := LeadingDots(t[i..]);
      if n >= 2 {
        forall j | i <= j < i + n ensures j !in Isolated(t) { DotRun(t, i, n, j); }
        PickSkips(t, Isolated(t), i, i + n);
        RunsDropped(t, i + n);
      } else {
        FirstOfSingle(t, i, n);
        RunsDropped(t, i + 1);
      }
    }
  }

  lemma DropAt(t: string, i: nat)
    requires i <= |t|
    ensures i == |t| ==> DropDotRuns(t[i..]) == ""
    ensures i < |t| ==>
              var n := LeadingDots(t[i..]);
              && i + n <= |t| && (forall k :: i <= k < i + n ==> t[k] == '.') && (i + n < |t| ==> t[i + n] != '.')
              && DropDotRuns(t[i..]) ==
                 (if n >= 2 then DropDotRuns(t[i + n..]) else [t[i]] + DropDotRuns(t[i + 1..]))
  {
    if i < |t| {
      var s := t[i..];
      var n := LeadingDots(s);
      assert s[n..] == t[i + n..] && s[1..] == t[i + 1..];
      forall k | i <= k < i + n ensures t[k] == '.' { assert s[k - i] == '.'; }
      assert i + n < |t| ==> t[i + n] == s[n];
    }
  }

  lemma DotRun(t: string, i: nat, n: nat, j: nat)
    requires n >= 2 && i + n <= |t| && i <= j < i + n && forall k :: i <= k < i + n ==> t[k] == '.'
    ensures j !in Isolated(t)
  {
    if j > i { assert t[j - 1] == '.'; } else { assert t[j + 1] == '.'; }
  }

  lemma FirstOfSingle(t: string, i: nat, n: nat)
    requires i < |t| && n == LeadingDots(t[i..]) < 2 && (i > 0 ==> t[i - 1] != '.' || t[i] != '.')
    ensures i in Isolated(t) && (i + 1 < |t| ==> t[i] != '.' || t[i + 1] != '.')
  {
    var s := t[i..];
    assert s[0] == t[i] && (i + 1 < |t| ==> s[1] == t[i + 1]);
    if n == 0 { assert s[0] != '.'; }
  }

  lemma FirstDropped(t: string, ks: set<int>)
    requires ks == Isolated(t) && t != ""
    ensures DropFirstDot(Pick(t, ks, 0)) == Pick(t, if t[0] == '.' then ks - {0} else ks, 0)
  {
    hide Isolated;
    if 0 in ks {
      PickSame(t, ks, ks - {0}, 1);
      assert "" + Pick(t, ks - {0}, 1) == Pick(t, ks - {0}, 1);
      assert ([t[0]] + Pick(t, ks, 1))[1..] == Pick(t, ks, 1);
    } else {
      assert ks - {0} == ks;
      if Pick(t, ks, 0) != "" {
        var p := PickHead(t, ks, 0);
        HeadIsNoDot(t, p);
      }
    }
  }

  lemma HeadIsNoDot(t: string, p: nat)
    requires p < |t| && p in Isolated(t) && (forall j :: 0 <= j < p ==> j !in Isolated(t)) && 0 !in Isolated(t)
    ensures t[p] != '.'
  {
    assert p > 0 && p - 1 !in Isolated(t);
  }

  lemma LastDropped(t: string, ks: set<int>)
    requires t != "" && ks == if t[0] == '.' then Isolated(t) - {0} else Isolated(t)
    ensures DropLastDot(Pick(t, ks, 0)) == Pick(t, if t[|t| - 1] == '.' then ks - {|t| - 1} else ks, 0)
  {
    var last := |t| - 1;
    if Pick(t, ks, 0) == "" {
      NonePicked(t, ks, 0);
      PickSame(t, ks, ks - {last}, 0);
    } else {
      var p := PickLast(t, ks, 0);
      if p == last {
        var less := Pick(t, ks - {last}, 0);
        assert (less + [t[p]])[..|less|] == less;
      } else {
        assert last !in ks && ks - {last} == ks;
        assert p + 1 !in ks && p + 1 !in Isolated(t);
        assert t[p] != '.';
      }
    }
  }

  /** The main result about dots: what trimming keeps of the text without special characters is every
      character but dots, and of the dots exactly those that stand alone and at neither end. */
  lemma TrimKeeps(s: string)
    ensures Trim(s) == Pick(DropSpecial(s), Kept(DropSpecial(s)), 0)
  {
    hide IsSpecial, DropSpecial, DropDotRuns;
    var t := DropSpecial(s);
    assert t[0..] == t;
    RunsDropped(t, 0);
    if t != "" {
      var ks := Isolated(t);
      FirstDropped(t, ks);
      var inner := if t[0] == '.' then ks - {0} else ks;
      LastDropped(t, inner);
      var rest := if t[|t| - 1] == '.' then inner - {|t| - 1} else inner;
      forall j | 0 <= j < |t| ensures j in rest <==> j in Kept(t) {}
      PickSame(t, rest, Kept(t), 0);
    }
  }
}
