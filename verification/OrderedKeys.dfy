/**
  The ordered key space under the metadata store: sorted key sets and the database iterator.
  A scan visits a contiguous run of keys; the lemmas say where the iterator stands after each move.
 */
module OrderedKeys {
  import opened Lex
  import opened Decimal

  ghost predicate Ascending(s: seq<string>) {
    forall i, j :: 0 <= i < j < |s| ==> Less(s[i], s[j])
  }

  lemma {:induction false} Minimum(ks: set<string>) returns (m: string)
    requires ks != {}
    ensures m in ks && forall k :: k in ks ==> Leq(m, k)
    decreases |ks|
  {
    m :| m in ks;
    if ks != {m} {
      assert ks - {m} != {} by { assert ks == {m} + (ks - {m}); }
      var n := Minimum(ks - {m});
      Linear();
      if Less(n, m) { m := n; }
    }
  }

  lemma {:induction false} Maximum(ks: set<string>) returns (m: string)
    requires ks != {}
    ensures m in ks && forall k :: k in ks ==> Leq(k, m)
    decreases |ks|
  {
    m :| m in ks;
    if ks != {m} {
      assert ks - {m} != {} by { assert ks == {m} + (ks - {m}); }
      var n := Maximum(ks - {m});
      Linear();
      if Less(m, n) { m := n; }
    }
  }

  /** The members of a key set in ascending order. */
  ghost function Sorted(ks: set<string>): (s: seq<string>)
    ensures Ascending(s)
    ensures forall k :: k in s <==> k in ks
  {
    if ks == {} then [] else
      HasMinimum(ks);
      var m :| IsMinimum(ks, m);
      SortedCons(ks, m, Sorted(ks - {m}));
      [m] + Sorted(ks - {m})
  }

  ghost predicate IsMinimum(ks: set<string>, m: string) {
    m in ks && forall k :: k in ks ==> Leq(m, k)
  }

  lemma HasMinimum(ks: set<string>)
    requires ks != {}
    ensures exists m :: IsMinimum(ks, m)
  {
    var m := Minimum(ks);
    assert IsMinimum(ks, m);
  }

  lemma SortedCons(ks: set<string>, m: string, t: seq<string>)
    requires IsMinimum(ks, m) && Ascending(t) && forall k :: k in t <==> k in ks - {m}
    ensures Ascending([m] + t) && forall k :: k in [m] + t <==> k in ks
  {
    assert forall j :: 0 <= j < |t| ==> t[j] in t;
  }

  /** Ascending sequences with the same members are equal, so `Sorted` is a canonical form. */
  lemma {:induction false} AscendingUnique(s: seq<string>, t: seq<string>)
    requires Ascending(s) && Ascending(t)
    requires forall k :: k in s <==> k in t
    ensures s == t
  {
    assert t != [] ==> t[0] in t;
    if s != [] {
      assert s[0] in s;
      var j :| 0 <= j < |t| && t[j] == s[0];
      assert t[0] in t;
      var i :| 0 <= i < |s| && s[i] == t[0];
      Order(s[0], t[0], s[0]);
      assert s[0] == t[0];
      forall k
        ensures k in s[1..] <==> k in t[1..]
      {
        TailMember(s, k);
        TailMember(t, k);
      }
      AscendingUnique(s[1..], t[1..]);
      assert s == [s[0]] + s[1..] && t == [t[0]] + t[1..];
    }
  }

  lemma TailMember(s: seq<string>, k: string)
    requires Ascending(s) && s != []
    ensures k in s[1..] <==> k in s && k != s[0]
  {
    Irreflexive(s[0]);
    if k in s[1..] {
      var i :| 0 <= i < |s[1..]| && s[1..][i] == k;
      assert s[i + 1] == k && Less(s[0], s[i + 1]);
    }
  }

  function Reversed<T(!new)>(s: seq<T>): (r: seq<T>)
    ensures |r| == |s| && forall i :: 0 <= i < |s| ==> r[i] == s[|s| - 1 - i]
    ensures forall x :: x in r <==> x in s
  {
    var r := seq(|s|, i requires 0 <= i < |s| => s[|s| - 1 - i]);
    assert forall i :: 0 <= i < |s| ==> s[i] == r[|s| - 1 - i];
    r
  }

  // ----- iterator positions -----

  /** The least key not below `t`. */
  ghost predicate IsCeiling(keys: set<string>, t: string, at: Option<string>) {
    match at
    case None => forall k :: k in keys ==> Less(k, t)
    case Some(m) => m in keys && Leq(t, m) && forall k :: k in keys && Leq(t, k) ==> Leq(m, k)
  }

  /** The least key above `c`. */
  ghost predicate IsNext(keys: set<string>, c: string, at: Option<string>) {
    match at
    case None => forall k :: k in keys ==> Leq(k, c)
    case Some(m) => m in keys && Less(c, m) && forall k :: k in keys && Less(c, k) ==> Leq(m, k)
  }

  /** The greatest key below `c`. */
  ghost predicate IsPrevious(keys: set<string>, c: string, at: Option<string>) {
    match at
    case None => forall k :: k in keys ==> Leq(c, k)
    case Some(m) => m in keys && Less(m, c) && forall k :: k in keys && Less(k, c) ==> Leq(k, m)
  }

  ghost predicate IsLast(keys: set<string>, at: Option<string>) {
    match at
    case None => keys == {}
    case Some(m) => m in keys && forall k :: k in keys ==> Leq(k, m)
  }

  /** A LevelDB iterator over a snapshot: it stands on a key, or is not `Valid()`. */
  class Cursor {
    const keys: set<string>
    var at: Option<string>

    constructor (keys: set<string>)
      ensures this.keys == keys && at == None
    {
      this.keys := keys;
      at := None;
    }

    method Seek(t: string)
      modifies this
      ensures IsCeiling(keys, t, at)
    {
      var above := set k | k in keys && Leq(t, k);
      at := None;
      if above == {} {
        Linear();
        assert forall k :: k in keys ==> k !in above;
      } else {
        ghost var w := Minimum(above);
        var m :| m in above && forall k :: k in above ==> Leq(m, k);
        at := Some(m);
      }
    }

    method SeekToFirst()
      modifies this
      ensures IsCeiling(keys, "", at)
    {
      Seek("");
    }

    method SeekToLast()
      modifies this
      ensures IsLast(keys, at)
    {
      at := None;
      if keys != {} {
        ghost var w := Maximum(keys);
        var m :| m in keys && forall k :: k in keys ==> Leq(k, m);
        at := Some(m);
      }
    }

    method Next()
      requires at.Some?
      modifies this
      ensures IsNext(keys, old(at).value, at)
    {
      var c := at.value;
      var above := set k | k in keys && Less(c, k);
      at := None;
      if above == {} {
        Linear();
        assert forall k :: k in keys ==> k !in above;
      } else {
        ghost var w := Minimum(above);
        var m :| m in above && forall k :: k in above ==> Leq(m, k);
        at := Some(m);
      }
    }

    method Prev()
      requires at.Some?
      modifies this
      ensures IsPrevious(keys, old(at).value, at)
    {
      var c := at.value;
      var below := set k | k in keys && Less(k, c);
      at := None;
      if below == {} {
        Linear();
        assert forall k :: k in keys ==> k !in below;
      } else {
        ghost var w := Maximum(below);
        var m :| m in below && forall k :: k in below ==> Leq(k, m);
        at := Some(m);
      }
    }
  }

  // ----- scanning a contiguous run of keys -----

  /** `run` is an initial segment of the keys from `t` on. */
  ghost predicate InitialFrom(run: set<string>, keys: set<string>, t: string) {
    && run <= keys
    && (forall k :: k in run ==> Leq(t, k))
    && (forall a, b :: a in keys && b in run && Leq(t, a) && Less(a, b) ==> a in run)
  }

  /** `run` is a final segment of the keys below `u`. */
  ghost predicate FinalBelow(run: set<string>, keys: set<string>, u: string) {
    && run <= keys
    && (forall k :: k in run ==> Less(k, u))
    && (forall a, b :: a in keys && b in run && Less(b, a) && Less(a, u) ==> a in run)
  }

  /** The iterator stands on the j-th key of `path`, or past its end and off the run. */
  ghost predicate StandsAt(path: seq<string>, j: nat, at: Option<string>) {
    && j <= |path|
    && (j < |path| ==> at == Some(path[j]))
    && (j == |path| ==> at.None? || at.value !in path)
  }

  lemma ScanUpStart(run: set<string>, keys: set<string>, t: string, at: Option<string>)
    requires InitialFrom(run, keys, t) && IsCeiling(keys, t, at)
    ensures StandsAt(Sorted(run), 0, at)
  {
    var s := Sorted(run);
    Linear();
    if s != [] {
      assert s[0] in s;
      assert at.value in s;
    }
  }

  lemma ScanUpStep(run: set<string>, keys: set<string>, t: string, j: nat, at: Option<string>)
    requires InitialFrom(run, keys, t) && j < |Sorted(run)|
    requires IsNext(keys, Sorted(run)[j], at)
    ensures StandsAt(Sorted(run), j + 1, at)
  {
    hide Sorted;
    var s := Sorted(run);
    assert s[j] in s;
    assert !(at.Some? && at.value in s && j + 1 == |s|) by {
      if at.Some? && at.value in s { AboveInPath(s, j, at.value); }
    }
    if j + 1 < |s| {
      assert s[j + 1] in s;
      assert at.Some? && Leq(at.value, s[j + 1]) by { Order(s[j], s[j + 1], s[j]); Order(s[j + 1], s[j], s[j]); }
      assert Leq(t, at.value) by { Order(t, s[j], at.value); }
      if s[j + 1] != at.value {
        assert at.value in s;
        AboveInPath(s, j, at.value);
        var i :| j < i < |s| && s[i] == at.value;
        Order(s[j + 1], s[i], s[j + 1]);
      }
    }
  }

  lemma AboveInPath(s: seq<string>, n: nat, k: string)
    requires Ascending(s) && n < |s| && k in s && Less(s[n], k)
    ensures exists i :: n < i < |s| && s[i] == k
  {
    var i :| 0 <= i < |s| && s[i] == k;
    Order(s[n], s[i], s[n]);
    Order(s[i], s[n], s[i]);
  }

  lemma ScanDownStart(run: set<string>, keys: set<string>, u: string, at: Option<string>)
    requires FinalBelow(run, keys, u) && IsPrevious(keys, u, at)
    ensures StandsAt(Reversed(Sorted(run)), 0, at)
  {
    var s := Sorted(run);
    Linear();
    if s != [] {
      assert s[|s| - 1] in s;
      assert at.value in s;
    }
  }

  lemma ScanDownStep(run: set<string>, keys: set<string>, u: string, j: nat, at: Option<string>)
    requires FinalBelow(run, keys, u) && j < |Sorted(run)|
    requires IsPrevious(keys, Reversed(Sorted(run))[j], at)
    ensures StandsAt(Reversed(Sorted(run)), j + 1, at)
  {
    hide Sorted, Less, Ascending;
    var s := Sorted(run);
    var n := |s| - 1 - j;
    assert s[n] in s;
    if at.Some? && at.value in s { BelowInPath(s, n, at.value); }
    if n > 0 { StepsBack(run, keys, u, s, n, at); }
  }

  lemma StepsBack(run: set<string>, keys: set<string>, u: string, s: seq<string>, n: nat, at: Option<string>)
    requires FinalBelow(run, keys, u) && Ascending(s) && (forall k :: k in s <==> k in run)
    requires 0 < n < |s| && IsPrevious(keys, s[n], at)
    ensures at == Some(s[n - 1])
  {
    hide Less;
    assert s[n] in s && s[n - 1] in s;
    Order(s[n - 1], s[n], s[n]);
    Order(s[n], s[n - 1], s[n]);
    assert at.Some? && Leq(s[n - 1], at.value);
    Order(at.value, s[n], u);
    if s[n - 1] != at.value {
      assert at.value in s;
      BelowInPath(s, n, at.value);
      var i :| 0 <= i < n && s[i] == at.value;
      Order(s[i], s[n - 1], s[i]);
    }
  }

  lemma BelowInPath(s: seq<string>, n: nat, k: string)
    requires Ascending(s) && n < |s| && k in s && Less(k, s[n])
    ensures exists i :: 0 <= i < n && s[i] == k
  {
    var i :| 0 <= i < |s| && s[i] == k;
    Order(s[n], s[i], s[n]);
    Order(s[i], s[n], s[i]);
  }

  /** Stepping back from the ceiling of `u`, or starting at the last key when there is none, reaches
      the greatest key below `u`. */
  lemma BelowCeiling(keys: set<string>, u: string, ceiling: Option<string>, at: Option<string>)
    requires IsCeiling(keys, u, ceiling)
    requires if ceiling.Some? then IsPrevious(keys, ceiling.value, at) else IsLast(keys, at)
    ensures IsPrevious(keys, u, at)
  {
    Linear();
  }

  /** All keys form one run from the empty string on. */
  lemma WholeRun(keys: set<string>)
    ensures InitialFrom(keys, keys, "")
  {
  }

  /** The keys that start with `prefix`. */
  ghost function WithPrefix(keys: set<string>, prefix: string): set<string> {
    set k | k in keys && prefix <= k
  }

  /** `std::string::back() += 1` on a prefix ending in ':'. */
  function UpperBound(prefix: string): string
    requires prefix != []
  {
    prefix[..|prefix| - 1] + [';']
  }

  /** The keys with a prefix ending in ':' are one contiguous run, bounded as the scan assumes. */
  lemma PrefixRun(keys: set<string>, prefix: string)
    requires prefix != [] && prefix[|prefix| - 1] == ':'
    ensures InitialFrom(WithPrefix(keys, prefix), keys, prefix)
    ensures FinalBelow(WithPrefix(keys, prefix), keys, UpperBound(prefix))
  {
    var q := prefix[..|prefix| - 1];
    assert prefix == q + [':'];
    var run := WithPrefix(keys, prefix);
    forall k ensures k in run <==> k in keys && Leq(prefix, k) && Less(k, UpperBound(prefix)) {
      PrefixIsRange(q, ':', ';', k);
    }
    Linear();
  }
}
