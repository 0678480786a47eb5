/**
  Bytewise lexicographic order on keys, as LevelDB's default comparator has it.
  One C++ `char` is one Dafny `char`.
 */
module Lex {

  /** `a` sorts strictly before `b`. */
  predicate Less(a: string, b: string) {
    b != [] && (a == [] || a[0] < b[0] || (a[0] == b[0] && Less(a[1..], b[1..])))
  }

  predicate Leq(a: string, b: string) {
    a == b || Less(a, b)
  }

  lemma {:induction false} Irreflexive(a: string)
    ensures !Less(a, a)
  {
    if a != [] { Irreflexive(a[1..]); }
  }

  lemma {:induction false} Transitive(a: string, b: string, c: string)
    requires Less(a, b) && Less(b, c)
    ensures Less(a, c)
  {
    if a != [] && a[0] == b[0] == c[0] { Transitive(a[1..], b[1..], c[1..]); }
  }

  lemma {:induction false} Total(a: string, b: string)
    ensures Less(a, b) || a == b || Less(b, a)
  {
    if a != [] && b != [] && a[0] == b[0] {
      Total(a[1..], b[1..]);
      if a[1..] == b[1..] {
        assert a == [a[0]] + a[1..] && b == [b[0]] + b[1..];
      }
    }
  }

  /** The order is linear: the four facts the sorted scans need, for three keys at once. */
  lemma Order(a: string, b: string, c: string)
    ensures Less(a, b) || a == b || Less(b, a)
    ensures !(Less(a, b) && Less(b, a))
    ensures !Less(a, a)
    ensures Less(a, b) && Less(b, c) ==> Less(a, c)
  {
    Total(a, b);
    Irreflexive(a);
    if Less(a, b) && Less(b, a) { Transitive(a, b, a); }
    if Less(a, b) && Less(b, c) { Transitive(a, b, c); }
  }

  /** The same facts for all keys. */
  lemma Linear()
    ensures forall a: string, b: string :: Less(a, b) || a == b || Less(b, a)
    ensures forall a: string, b: string :: Less(a, b) ==> !Less(b, a) && a != b
    ensures forall a: string, b: string, c: string :: Less(a, b) && Less(b, c) ==> Less(a, c)
  {
    forall a: string, b: string, c: string
      ensures Less(a, b) || a == b || Less(b, a)
      ensures Less(a, b) ==> !Less(b, a) && a != b
      ensures Less(a, b) && Less(b, c) ==> Less(a, c)
    {
      Order(a, b, c);
    }
  }

  /** A common prefix does not influence the comparison. */
  lemma {:induction false} CommonPrefix(p: string, a: string, b: string)
    ensures Less(p + a, p + b) <==> Less(a, b)
  {
    if p == [] {
      assert p + a == a && p + b == b;
    } else {
      assert (p + a)[1..] == p[1..] + a && (p + b)[1..] == p[1..] + b;
      CommonPrefix(p[1..], a, b);
    }
  }

  /** Strings of one length compare by their first difference, so what follows them is secondary. */
  lemma {:induction false} SameLength(a: string, b: string, s: string, t: string)
    requires |a| == |b|
    ensures Less(a + s, b + t) <==> Less(a, b) || (a == b && Less(s, t))
  {
    if a == [] {
      assert a + s == s && b + t == t;
    } else {
      assert (a + s)[1..] == a[1..] + s && (b + t)[1..] == b[1..] + t;
      SameLength(a[1..], b[1..], s, t);
      assert a == [a[0]] + a[1..] && b == [b[0]] + b[1..];
      if a == b { Irreflexive(a); }
    }
  }

  /**
    The keys that start with q + [c] are exactly the keys from q + [c] up to, but not including,
    the string whose last character is one larger.
   */
  lemma {:induction false} PrefixIsRange(q: string, c: char, d: char, k: string)
    requires c as int + 1 == d as int
    ensures q + [c] <= k <==> Leq(q + [c], k) && Less(k, q + [d])
  {
    if q == [] {
      assert q + [c] == [c] && q + [d] == [d];
      if k != [] {
        assert [c][1..] == [] && [d][1..] == [];
        assert k == [k[0]] + k[1..];
        if k[1..] == [] { assert k == [k[0]]; } else { assert Less([c][1..], k[1..]); }
        assert c <= k[0] ==> k == [c] || Less([c], k);
        assert Less(k, [d]) <==> k[0] < d;
        assert k[0] < d <==> k[0] as int < d as int;
      }
    } else if k != [] && k[0] == q[0] {
      assert (q + [c])[1..] == q[1..] + [c] && (q + [d])[1..] == q[1..] + [d];
      PrefixIsRange(q[1..], c, d, k[1..]);
      assert k == [k[0]] + k[1..] && q + [c] == [q[0]] + (q[1..] + [c]);
    }
  }

  lemma InsertedOnce<T>(s: seq<T>, p: nat, x: T)
    requires p <= |s|
    ensures multiset(s[..p] + [x] + s[p..]) == multiset(s) + multiset{x}
  {
    assert s == s[..p] + s[p..];
  }

  ghost predicate NoRepeats<T>(s: seq<T>) {
    forall i, j :: 0 <= i < j < |s| ==> s[i] != s[j]
  }

  /** A string splits in one way at its last separator. */
  lemma LastSeparator(sep: char, a: string, b: string, c: string, d: string)
    requires a + [sep] + b == c + [sep] + d
    requires sep !in b && sep !in d
    ensures a == c && b == d
  {
    var s, t := a + [sep] + b, c + [sep] + d;
    assert s[|a|] == sep && t[|c|] == sep;
    assert forall i :: |a| < i < |s| ==> s[i] == b[i - |a| - 1];
    assert forall i :: |c| < i < |t| ==> t[i] == d[i - |c| - 1];
    assert |a| == |c|;
    assert s[..|a|] == a && t[..|c|] == c;
    assert s[|a| + 1..] == b && t[|c| + 1..] == d;
  }
}
