/** `std::string::find`: the first occurrence of a pattern from a position on. */
module TextSearch {
  import opened Decimal

  /** `pat` occurs in `s` at position i. */
  predicate At(s: string, pat: string, i: nat) {
    i + |pat| <= |s| && s[i..i + |pat|] == pat
  }

  /** None is `npos`. */
  function Find(s: string, pat: string, from: nat): (r: Option<nat>)
    ensures r.Some? ==> from <= r.value && At(s, pat, r.value)
    ensures r.Some? ==> forall i: nat :: from <= i < r.value ==> !At(s, pat, i)
    ensures r.None? ==> forall i: nat :: from <= i ==> !At(s, pat, i)
    decreases |s| - from
  {
    if from + |pat| > |s| then None
    else if At(s, pat, from) then Some(from)
    else Find(s, pat, from + 1)
  }

  lemma FindIs(s: string, pat: string, from: nat, i: nat)
    requires from <= i && At(s, pat, i)
    requires forall j: nat :: from <= j < i ==> !At(s, pat, j)
    ensures Find(s, pat, from) == Some(i)
  {
  }

  /** A single character, found. */
  lemma FindChar(a: string, c: char, b: string)
    requires c !in a
    ensures Find(a + [c] + b, [c], 0) == Some(|a|)
  {
    var s := a + [c] + b;
    assert s[|a|..|a| + 1] == [c];
    forall j: nat | j < |a| ensures !At(s, [c], j) {
      assert s[j] == a[j] && s[j..j + 1] == [s[j]];
    }
    FindIs(s, [c], 0, |a|);
  }

  lemma AtShift(pre: string, s: string, pat: string, k: nat)
    ensures At(pre + s, pat, |pre| + k) <==> At(s, pat, k)
  {
    if k + |pat| <= |s| {
      assert (pre + s)[|pre| + k..|pre| + k + |pat|] == s[k..k + |pat|];
    }
  }

  /** Text before the starting position does not matter. */
  lemma FindShift(pre: string, s: string, pat: string, k: nat)
    ensures Find(pre + s, pat, |pre| + k) ==
            match Find(s, pat, k) { case None => None case Some(i) => Some(|pre| + i) }
  {
    hide At, Find;
    forall i: nat | i >= |pre| + k ensures At(pre + s, pat, i) <==> At(s, pat, i - |pre|) {
      AtShift(pre, s, pat, i - |pre|);
    }
    match Find(s, pat, k) {
      case Some(i) =>
        assert At(pre + s, pat, |pre| + i);
        FindIs(pre + s, pat, |pre| + k, |pre| + i);
      case None =>
    }
  }

  /** Text after an occurrence does not matter. */
  lemma AtAppend(s: string, t: string, pat: string, i: nat)
    requires i + |pat| <= |s|
    ensures At(s + t, pat, i) <==> At(s, pat, i)
  {
    assert (s + t)[i..i + |pat|] == s[i..i + |pat|];
  }

  /** An occurrence puts each character of the pattern in the text. */
  lemma AtChar(s: string, pat: string, i: nat, k: nat)
    requires At(s, pat, i) && k < |pat|
    ensures s[i + k] == pat[k]
  {
    assert s[i..i + |pat|][k] == s[i + k];
  }
}
