/**
  Chunked upload: the client slices a file, the server keeps each slice under its decimal index, and a
  merge collects the indices, sorts them and appends the slices.
 */
module Chunks {
  import opened Lex
  import opened Decimal
  import opened FilePaths

  /** One directory: file names and contents. */
  type Dir = map<string, string>

  // ----- slicing, as the client does -----

  function Min(a: nat, b: nat): nat {
    if a < b then a else b
  }

  /** ceil(|file| / size) */
  function ChunkCount(file: string, size: nat): nat
    requires size > 0
  {
    (|file| + size - 1) / size
  }

  function Offset(file: string, size: nat, i: nat): (o: nat)
    ensures o <= |file|
  {
    Min(|file|, i * size)
  }

  function Slice(file: string, size: nat, i: nat): string {
    if Offset(file, size, i) <= Offset(file, size, i + 1)
    then file[Offset(file, size, i)..Offset(file, size, i + 1)] else ""
  }

  lemma OffsetStep(file: string, size: nat, i: nat)
    requires size > 0
    ensures Offset(file, size, i) <= Offset(file, size, i + 1)
    ensures i < ChunkCount(file, size) <==> i * size < |file|
    ensures i < ChunkCount(file, size) ==> Offset(file, size, i) < Offset(file, size, i + 1)
    ensures i >= ChunkCount(file, size) ==> Offset(file, size, i) == |file|
  {
    assert (i + 1) * size == i * size + size;
    Ceiling(|file|, size, i);
  }

  lemma Ceiling(n: nat, size: nat, i: nat)
    requires size > 0
    ensures i < (n + size - 1) / size <==> i * size < n
  {
    var q := (n + size - 1) / size;
    assert q * size <= n + size - 1 < (q + 1) * size by {
      assert (n + size - 1) == q * size + (n + size - 1) % size;
      assert (q + 1) * size == q * size + size;
    }
    if i < q {
      assert i * size <= (q - 1) * size by { Monotone(i, q - 1, size); }
      assert (q - 1) * size == q * size - size;
    } else {
      assert q * size <= i * size by { Monotone(q, i, size); }
      assert (q + 1) * size == q * size + size;
    }
  }

  lemma Monotone(a: nat, b: nat, c: nat)
    requires a <= b
    ensures a * c <= b * c
  {
    assert b * c == a * c + (b - a) * c;
  }

  // ----- uploading -----

  /** Saving a chunk without failures: a file of the same size stays, any other is replaced. */
  function PutChunk(dir: Dir, name: string, data: string): Dir {
    if name in dir && |dir[name]| == |data| then dir else dir[name := data]
  }

  /** The directory after uploading the slices with these indices, one after the other. */
  function UploadAll(dir: Dir, file: string, size: nat, order: seq<nat>): Dir
    decreases |order|
  {
    if order == [] then dir
    else UploadAll(PutChunk(dir, Dec(order[0]), Slice(file, size, order[0])), file, size, order[1..])
  }

  ghost predicate IsDecimal(name: string) {
    exists i: nat :: name == Dec(i)
  }

  /** The directory holds slices under their decimal indices and nothing else. */
  ghost predicate Holds(dir: Dir, file: string, size: nat, indices: set<nat>) {
    && (forall i: nat :: i in indices <==> Dec(i) in dir)
    && (forall name :: name in dir ==> IsDecimal(name))
    && (forall i: nat :: i in indices ==> dir[Dec(i)] == Slice(file, size, i))
  }

  lemma PutKeepsHolds(dir: Dir, file: string, size: nat, indices: set<nat>, i: nat)
    requires Holds(dir, file, size, indices)
    ensures Holds(PutChunk(dir, Dec(i), Slice(file, size, i)), file, size, indices + {i})
  {
    hide Dec, Slice;
    forall j: nat | Dec(j) == Dec(i) ensures j == i { DecInjective(i, j); }
    var dir' := PutChunk(dir, Dec(i), Slice(file, size, i));
    forall j: nat ensures j in indices + {i} <==> Dec(j) in dir' {}
  }

  /** Any order, any repeats: what counts is which indices were uploaded. */
  lemma {:induction false} UploadsHold(dir: Dir, file: string, size: nat, order: seq<nat>, indices: set<nat>)
    requires Holds(dir, file, size, indices)
    ensures Holds(UploadAll(dir, file, size, order), file, size, indices + Elements(order))
    decreases |order|
  {
    hide Holds, PutChunk;
    if order == [] {
      assert indices + Elements(order) == indices;
    } else {
      var dir' := PutChunk(dir, Dec(order[0]), Slice(file, size, order[0]));
      PutKeepsHolds(dir, file, size, indices, order[0]);
      UploadsHold(dir', file, size, order[1..], indices + {order[0]});
      assert indices + {order[0]} + Elements(order[1..]) == indices + Elements(order) by {
        assert order == [order[0]] + order[1..];
      }
    }
  }

  lemma {:induction false} UploadOneMore(dir: Dir, file: string, size: nat, order: seq<nat>, i: nat)
    ensures UploadAll(dir, file, size, order + [i]) ==
            PutChunk(UploadAll(dir, file, size, order), Dec(i), Slice(file, size, i))
    decreases |order|
  {
    hide PutChunk, Dec, Slice;
    if order == [] {
      assert [] + [i] == [i] && [i][1..] == [];
    } else {
      assert (order + [i])[1..] == order[1..] + [i];
      UploadOneMore(PutChunk(dir, Dec(order[0]), Slice(file, size, order[0])), file, size, order[1..], i);
    }
  }

  // ----- collecting -----

  function Elements<T(==)>(s: seq<T>): set<T> {
    set x | x in s
  }

  ghost predicate IsListingOf(names: seq<string>, dir: Dir) {
    NoRepeats(names) && forall n :: n in names <==> n in dir
  }

  function Readable(name: string): seq<int> {
    match Stoi(name)
    case None => []
    case Some(i) => [i]
  }

  /** The numbers that the file names start with, in directory order. */
  function IndicesOf(names: seq<string>): seq<int> {
    if names == [] then [] else IndicesOf(names[..|names| - 1]) + Readable(names[|names| - 1])
  }

  /** The directory scan behind both the progress query and the merge; the listing order is arbitrary. */
  method GetShardIndex(names: seq<string>) returns (indices: seq<int>)
    ensures indices == IndicesOf(names)
  {
    hide Stoi;
    indices := [];
    for j := 0 to |names|
      invariant indices == IndicesOf(names[..j])
    {
      assert names[..j + 1][..j] == names[..j];
      match Stoi(names[j]) {
        case Some(i) => indices := indices + [i];
        case None =>
      }
    }
    assert names[..|names|] == names;
  }

  lemma {:induction false} IndexMember(names: seq<string>, v: int)
    ensures v in IndicesOf(names) <==> exists n :: n in names && Stoi(n) == Some(v)
    decreases |names|
  {
    hide Stoi;
    if names != [] {
      var init, last := names[..|names| - 1], names[|names| - 1];
      IndexMember(init, v);
      assert forall n :: n in names <==> n in init || n == last;
    }
  }

  lemma {:induction false} IndicesDistinct(names: seq<string>)
    requires NoRepeats(names) && forall n :: n in names ==> IsDecimal(n)
    ensures NoRepeats(IndicesOf(names))
    decreases |names|
  {
    hide Stoi, IsDecimal;
    if names != [] {
      var init, last := names[..|names| - 1], names[|names| - 1];
      assert forall n :: n in init ==> n in names;
      IndicesDistinct(init);
      assert last in names;
      if Stoi(last).Some? {
        var v := Stoi(last).value;
        IndexMember(init, v);
        if v in IndicesOf(init) {
          var n :| n in init && Stoi(n) == Some(v);
          SameNumberSameName(n, last);
        }
      }
    }
  }

  lemma SameNumberSameName(a: string, b: string)
    requires IsDecimal(a) && IsDecimal(b)
    requires Stoi(a).Some? && Stoi(a) == Stoi(b)
    ensures a == b
  {
    hide Stoi, Dec;
    var i: nat :| a == Dec(i);
    var j: nat :| b == Dec(j);
    StoiDec(i);
    StoiDec(j);
  }

  /** The progress query reports exactly the uploaded indices that fit an `int`, each once. */
  lemma ReportedIndices(file: string, size: nat, order: seq<nat>, names: seq<string>, i: int)
    requires IsListingOf(names, UploadAll(map[], file, size, order))
    ensures NoRepeats(IndicesOf(names))
    ensures i in IndicesOf(names) <==> 0 <= i <= INT_MAX && i in order
  {
    hide Stoi, Dec, UploadAll, IndicesOf, NoRepeats, Slice;
    var dir := UploadAll(map[], file, size, order);
    var uploaded := Elements(order);
    UploadsHold(map[], file, size, order, {});
    assert {} + uploaded == uploaded;
    IndicesDistinct(names);
    ReportedFrom(dir, file, size, uploaded, names, i);
  }

  lemma ReportedFrom(dir: Dir, file: string, size: nat, uploaded: set<nat>, names: seq<string>, i: int)
    requires Holds(dir, file, size, uploaded) && IsListingOf(names, dir)
    ensures i in IndicesOf(names) <==> 0 <= i <= INT_MAX && i in uploaded
  {
    hide Stoi, Dec, IndicesOf, Slice;
    IndexMember(names, i);
    if i in IndicesOf(names) {
      var n :| n in names && Stoi(n) == Some(i);
      var k: nat :| n == Dec(k);
      StoiDec(k);
    }
    if 0 <= i <= INT_MAX && i in uploaded {
      StoiDec(i);
      assert Dec(i) in names;
    }
  }

  // ----- sorting -----

  ghost predicate Ascends(s: seq<int>) {
    forall i, j :: 0 <= i < j < |s| ==> s[i] <= s[j]
  }

  /** `std::sort`, by insertion. */
  method SortAscending(s: seq<int>) returns (r: seq<int>)
    ensures Ascends(r) && multiset(r) == multiset(s)
  {
    r := [];
    for k := 0 to |s|
      invariant Ascends(r) && multiset(r) == multiset(s[..k])
    {
      assert s[..k + 1] == s[..k] + [s[k]];
      r := InsertSorted(r, s[k]);
    }
    assert s[..|s|] == s;
  }

  method InsertSorted(s: seq<int>, x: int) returns (r: seq<int>)
    requires Ascends(s)
    ensures Ascends(r) && multiset(r) == multiset(s) + multiset{x}
  {
    var p := |s|;
    while p > 0 && s[p - 1] > x
      invariant 0 <= p <= |s|
      invariant forall q :: p <= q < |s| ==> s[q] > x
    {
      p := p - 1;
    }
    r := s[..p] + [x] + s[p..];
    InsertedOnce(s, p, x);
  }

  /** An ascending sequence is determined by how often each number occurs. */
  lemma {:induction false} AscendingUnique(s: seq<int>, t: seq<int>)
    requires Ascends(s) && Ascends(t) && multiset(s) == multiset(t)
    ensures s == t
    decreases |s|
  {
    hide Ascends;
    assert |s| == |multiset(s)| == |multiset(t)| == |t|;
    if s != [] {
      FirstLeast(s, t);
      FirstLeast(t, s);
      FirstOff(s);
      FirstOff(t);
      AscendingUnique(s[1..], t[1..]);
    }
  }

  lemma FirstLeast(s: seq<int>, t: seq<int>)
    requires Ascends(s) && multiset(s) == multiset(t) && s != [] && t != []
    ensures s[0] <= t[0] && Ascends(s[1..])
  {
    assert t[0] in multiset(s);
    var i :| 0 <= i < |s| && s[i] == t[0];
  }

  lemma FirstOff(s: seq<int>)
    requires s != []
    ensures multiset(s[1..]) == multiset(s) - multiset{s[0]} && s == [s[0]] + s[1..]
  {
    assert s == [s[0]] + s[1..];
  }

  // ----- merging -----

  datatype MergeResult = NoChunks | CannotOpen(index: int, written: string) | Merged(bytes: string)

  /** The output stream: inserting an empty file sets its fail bit, and then nothing more is written. */
  datatype Out = Out(bytes: string, good: bool)

  function Insert(out: Out, chunk: string): Out {
    if !out.good then out else if chunk == "" then out.(good := false) else out.(bytes := out.bytes + chunk)
  }

  /** The first number in the order whose file cannot be opened decides; otherwise all are inserted. */
  function Append(dir: Dir, order: seq<int>, out: Out): MergeResult {
    if order == [] then Merged(out.bytes)
    else if DecInt(order[0]) !in dir then CannotOpen(order[0], out.bytes)
    else Append(dir, order[1..], Insert(out, dir[DecInt(order[0])]))
  }

  /** The possible outcomes of a merge: the chunks joined along an ascending arrangement of the collected
      indices. */
  ghost predicate MergesTo(dir: Dir, names: seq<string>, r: MergeResult) {
    if IndicesOf(names) == [] then r == NoChunks
    else exists order :: Ascends(order) && multiset(order) == multiset(IndicesOf(names)) &&
                         r == Append(dir, order, Out("", true))
  }

  /** Collects, sorts and appends. */
  method Merge(dir: Dir, names: seq<string>) returns (r: MergeResult)
    ensures MergesTo(dir, names, r)
  {
    hide IndicesOf, Append;
    var indices := GetShardIndex(names);
    if indices == [] { return NoChunks; }
    var sorted := SortAscending(indices);
    r := AppendAll(dir, sorted);
  }

  /** Appends the chunks in the given order; stops at a number whose file is missing. */
  method AppendAll(dir: Dir, order: seq<int>) returns (r: MergeResult)
    ensures r == Append(dir, order, Out("", true)) && !r.NoChunks?
  {
    hide DecInt, Insert;
    var out := Out("", true);
    assert order[0..] == order;
    for k := 0 to |order|
      invariant Append(dir, order, Out("", true)) == Append(dir, order[k..], out)
    {
      assert order[k..][1..] == order[k + 1..];
      var name := DecInt(order[k]);
      if name !in dir { return CannotOpen(order[k], out.bytes); }
      out := Insert(out, dir[name]);
    }
    return Merged(out.bytes);
  }

  /** A chunk file that has become empty silently cuts off everything after it. */
  lemma {:induction false} EmptyChunkCuts(dir: Dir, order: seq<int>, out: Out)
    requires forall k :: 0 <= k < |order| ==> DecInt(order[k]) in dir
    requires order != [] && dir[DecInt(order[0])] == ""
    ensures Append(dir, order, out) == Merged(out.bytes)
  {
    NothingMore(dir, order[1..], out.(good := false));
  }

  lemma {:induction false} NothingMore(dir: Dir, order: seq<int>, out: Out)
    requires (forall k :: 0 <= k < |order| ==> DecInt(order[k]) in dir) && !out.good
    ensures Append(dir, order, out) == Merged(out.bytes)
    decreases |order|
  {
    if order != [] { NothingMore(dir, order[1..], out); }
  }

  // ----- what is in the directory -----

  /** A temporary file that a failed write of chunk i left behind, whatever its suffix. */
  predicate LeftoverOf(name: string, i: nat) {
    TempPath(Dec(i), "") <= name
  }

  /** The directory holds the slices numbered by `have`, and the leftovers `left` of any chunks. */
  ghost predicate HoldsAlso(dir: Dir, file: string, size: nat, have: set<nat>, left: set<string>)
    requires size > 0
  {
    && (forall i :: i in have ==> i < ChunkCount(file, size) && Dec(i) in dir && dir[Dec(i)] == Slice(file, size, i))
    && (forall n :: n in left ==> n in dir && exists i: nat :: i < ChunkCount(file, size) && LeftoverOf(n, i))
    && (forall n :: n in dir ==> n in left || exists i :: i in have && n == Dec(i))
  }

  function Reading(names: set<string>, v: int): set<string> {
    set n | n in names && Stoi(n) == Some(v)
  }

  /** How often the scan collects the number i. */
  function Copies(have: set<nat>, left: set<string>, i: nat): nat {
    (if i in have then 1 else 0) + |Reading(left, i)|
  }

  /** A leftover reads as its chunk's number, since reading stops at the dot. */
  lemma LeftoverReads(name: string, i: nat)
    requires LeftoverOf(name, i)
    ensures Stoi(name) == (if i <= INT_MAX then Some(i) else None) && forall j: nat :: name != Dec(j)
  {
    hide Scan, Dec;
    var rest := name[|Dec(i)|..];
    assert TempPath(Dec(i), "") == Dec(i) + ".tmp.";
    assert name[..|Dec(i)| + 5] == Dec(i) + ".tmp.";
    assert name == Dec(i) + rest && rest[0] == '.';
    ScanDec(i, rest);
    assert name[|Dec(i)|] == '.';
    forall j: nat ensures name != Dec(j) { assert AllDigits(Dec(j)); }
  }

  lemma {:induction false} IndexCount(names: seq<string>, v: int)
    requires NoRepeats(names)
    ensures multiset(IndicesOf(names))[v] == |Reading(Elements(names), v)|
    decreases |names|
  {
    hide Stoi, Reading, Elements, IndicesOf, NoRepeats;
    if names == [] {
      NothingRead(v);
    } else {
      var init, last := names[..|names| - 1], names[|names| - 1];
      InitNoRepeats(names);
      IndexCount(init, v);
      assert names == init + [last];
      ReadingOneMore(init, last, v);
      IndicesOneMore(init, last, v);
    }
  }

  lemma NothingRead(v: int)
    ensures multiset(IndicesOf([]))[v] == 0 && Reading(Elements([]), v) == {}
  {
  }

  lemma InitNoRepeats(names: seq<string>)
    requires NoRepeats(names) && names != []
    ensures NoRepeats(names[..|names| - 1]) && names[|names| - 1] !in names[..|names| - 1]
  {
  }

  lemma IndicesOneMore(names: seq<string>, last: string, v: int)
    ensures multiset(IndicesOf(names + [last]))[v] ==
            multiset(IndicesOf(names))[v] + if Stoi(last) == Some(v) then 1 else 0
  {
    hide Stoi;
    assert (names + [last])[..|names|] == names;
    assert multiset(IndicesOf(names) + Readable(last)) == multiset(IndicesOf(names)) + multiset(Readable(last));
  }

  lemma ReadingOneMore(names: seq<string>, last: string, v: int)
    requires last !in names
    ensures |Reading(Elements(names + [last]), v)| ==
            |Reading(Elements(names), v)| + if Stoi(last) == Some(v) then 1 else 0
  {
    hide Stoi;
    var before := Reading(Elements(names), v);
    assert Reading(Elements(names + [last]), v) == if Stoi(last) == Some(v) then before + {last} else before;
  }

  lemma ReadingSplit(dir: Dir, file: string, size: nat, have: set<nat>, left: set<string>, v: int)
    requires size > 0 && HoldsAlso(dir, file, size, have, left)
    ensures Reading(dir.Keys, v) == (if 0 <= v <= INT_MAX && v in have then {Dec(v)} else {}) + Reading(left, v)
    ensures v >= 0 ==> Dec(v) !in left
    ensures !(0 <= v < Min(ChunkCount(file, size), INT_MAX + 1)) ==> Reading(dir.Keys, v) == {}
  {
    hide Stoi, Dec, LeftoverOf, ChunkCount, Slice;
    forall n | n in left ensures (v >= 0 ==> n != Dec(v)) && (Stoi(n) == Some(v) ==>
      0 <= v < Min(ChunkCount(file, size), INT_MAX + 1))
    {
      var i: nat :| i < ChunkCount(file, size) && LeftoverOf(n, i);
      LeftoverReads(n, i);
    }
    forall i | i in have ensures Stoi(Dec(i)) == if i <= INT_MAX then Some(i) else None { StoiDec(i); }
  }

  lemma CopiesCounted(dir: Dir, file: string, size: nat, have: set<nat>, left: set<string>, names: seq<string>, v: int)
    requires size > 0 && HoldsAlso(dir, file, size, have, left) && IsListingOf(names, dir)
    ensures multiset(IndicesOf(names))[v] ==
            if 0 <= v < Min(ChunkCount(file, size), INT_MAX + 1) then Copies(have, left, v) else 0
  {
    hide HoldsAlso, IndicesOf, Reading, ChunkCount, Dec;
    assert Elements(names) == dir.Keys;
    IndexCount(names, v);
    ReadingSplit(dir, file, size, have, left, v);
    if v >= 0 { NotReading(left, Dec(v), v); }
  }

  lemma NotReading(names: set<string>, n: string, v: int)
    requires n !in names
    ensures n !in Reading(names, v) && |{n} + Reading(names, v)| == 1 + |Reading(names, v)|
    ensures {} + Reading(names, v) == Reading(names, v)
  {
    assert n !in Reading(names, v);
  }

  // ----- the sorted numbers -----

  function Repeat(v: int, c: nat): seq<int> {
    if c == 0 then [] else [v] + Repeat(v, c - 1)
  }

  /** Each number from i up to n as often as it is collected. */
  function Blocks(have: set<nat>, left: set<string>, i: nat, n: nat): seq<int>
    requires i <= n
    decreases n - i
  {
    if i == n then [] else Repeat(i, Copies(have, left, i)) + Blocks(have, left, i + 1, n)
  }

  lemma {:induction false} RepeatCount(v: int, c: nat)
    ensures forall w :: multiset(Repeat(v, c))[w] == if w == v then c else 0
    ensures forall w :: w in Repeat(v, c) ==> w == v
  {
    if c > 0 { RepeatCount(v, c - 1); }
  }

  lemma {:induction false} BlocksCount(have: set<nat>, left: set<string>, i: nat, n: nat)
    requires i <= n
    ensures Ascends(Blocks(have, left, i, n))
    ensures forall v :: multiset(Blocks(have, left, i, n))[v] == if i <= v < n then Copies(have, left, v) else 0
    decreases n - i
  {
    hide Copies;
    if i < n {
      var a, b := Repeat(i, Copies(have, left, i)), Blocks(have, left, i + 1, n);
      RepeatCount(i, Copies(have, left, i));
      BlocksCount(have, left, i + 1, n);
      forall k | 0 <= k < |b| ensures b[k] > i { assert b[k] in multiset(b); }
      hide Repeat, Blocks, Ascends;
      AscendsJoin(a, b, i);
      forall v ensures multiset(a + b)[v] == multiset(a)[v] + multiset(b)[v] { CountJoin(a, b, v); }
    }
  }

  lemma AscendsJoin(a: seq<int>, b: seq<int>, v: int)
    requires (forall w :: w in a ==> w == v) && Ascends(b) && forall k :: 0 <= k < |b| ==> b[k] > v
    ensures Ascends(a + b)
  {
    assert forall k :: 0 <= k < |a| ==> a[k] in a;
  }

  lemma CountJoin(a: seq<int>, b: seq<int>, v: int)
    ensures multiset(a + b)[v] == multiset(a)[v] + multiset(b)[v]
  {
  }

  lemma SortedIndices(dir: Dir, file: string, size: nat, have: set<nat>, left: set<string>, names: seq<string>,
                      order: seq<int>)
    requires size > 0 && HoldsAlso(dir, file, size, have, left) && IsListingOf(names, dir)
    requires Ascends(order) && multiset(order) == multiset(IndicesOf(names))
    ensures order == Blocks(have, left, 0, Min(ChunkCount(file, size), INT_MAX + 1))
  {
    hide HoldsAlso, IndicesOf, Copies, ChunkCount, IsListingOf, Ascends;
    var n := Min(ChunkCount(file, size), INT_MAX + 1);
    BlocksCount(have, left, 0, n);
    forall v: int ensures multiset(order)[v] == multiset(Blocks(have, left, 0, n))[v] {
      CopiesCounted(dir, file, size, have, left, names, v);
    }
    assert multiset(order) == multiset(Blocks(have, left, 0, n));
    AscendingUnique(order, Blocks(have, left, 0, n));
  }

  // ----- joining them -----

  function Times(s: string, c: nat): string {
    if c == 0 then "" else s + Times(s, c - 1)
  }

  /** The slices from i up to n, each as often as its number is collected. */
  function Gathered(file: string, size: nat, have: set<nat>, left: set<string>, i: nat, n: nat): string
    requires i <= n
    decreases n - i
  {
    if i == n then ""
    else Times(Slice(file, size, i), Copies(have, left, i)) + Gathered(file, size, have, left, i + 1, n)
  }

  lemma {:induction false} AppendRepeat(dir: Dir, i: nat, c: nat, rest: seq<int>, bytes: string)
    requires Dec(i) in dir && dir[Dec(i)] != ""
    ensures Append(dir, Repeat(i, c) + rest, Out(bytes, true)) ==
            Append(dir, rest, Out(bytes + Times(dir[Dec(i)], c), true))
    decreases c
  {
    if c == 0 {
      assert Repeat(i, c) + rest == rest && bytes + Times(dir[Dec(i)], c) == bytes;
    } else {
      assert (Repeat(i, c) + rest)[1..] == Repeat(i, c - 1) + rest;
      AppendRepeat(dir, i, c - 1, rest, bytes + dir[Dec(i)]);
      assert bytes + dir[Dec(i)] + Times(dir[Dec(i)], c - 1) == bytes + Times(dir[Dec(i)], c);
    }
  }

  /** No leftover of a chunk that has never been saved. */
  ghost predicate NoOrphans(have: set<nat>, left: set<string>, i: nat, n: nat) {
    forall j: nat :: i <= j < n && Copies(have, left, j) > 0 ==> j in have
  }

  lemma {:induction false} AppendBlocks(dir: Dir, file: string, size: nat, have: set<nat>, left: set<string>,
                                        i: nat, k: nat, n: nat, bytes: string)
    requires size > 0 && HoldsAlso(dir, file, size, have, left)
    requires i <= k <= n <= ChunkCount(file, size) && NoOrphans(have, left, i, k)
    ensures Append(dir, Blocks(have, left, i, n), Out(bytes, true)) ==
            Append(dir, Blocks(have, left, k, n), Out(bytes + Gathered(file, size, have, left, i, k), true))
    decreases k - i
  {
    hide HoldsAlso, Append, Copies, ChunkCount, Slice, Blocks, Times;
    if i == k {
      assert bytes + "" == bytes;
    } else {
      var more := Times(Slice(file, size, i), Copies(have, left, i));
      AppendBlock(dir, file, size, have, left, i, n, bytes);
      AppendBlocks(dir, file, size, have, left, i + 1, k, n, bytes + more);
      assert bytes + more + Gathered(file, size, have, left, i + 1, k) ==
             bytes + (more + Gathered(file, size, have, left, i + 1, k));
    }
  }

  lemma AppendBlock(dir: Dir, file: string, size: nat, have: set<nat>, left: set<string>, i: nat, n: nat, bytes: string)
    requires size > 0 && HoldsAlso(dir, file, size, have, left) && i < n
    requires Copies(have, left, i) > 0 ==> i in have
    ensures Append(dir, Blocks(have, left, i, n), Out(bytes, true)) ==
            Append(dir, Blocks(have, left, i + 1, n),
                   Out(bytes + Times(Slice(file, size, i), Copies(have, left, i)), true))
  {
    hide HoldsAlso, Append, Copies, Slice, Dec;
    var c, rest := Copies(have, left, i), Blocks(have, left, i + 1, n);
    if c > 0 {
      HeldSlice(dir, file, size, have, left, i);
      AppendRepeat(dir, i, c, rest, bytes);
    } else {
      assert Repeat(i, 0) + rest == rest && bytes + "" == bytes;
    }
  }

  lemma HeldSlice(dir: Dir, file: string, size: nat, have: set<nat>, left: set<string>, i: nat)
    requires size > 0 && HoldsAlso(dir, file, size, have, left) && i in have
    ensures Dec(i) in dir && dir[Dec(i)] == Slice(file, size, i) != ""
  {
    hide Dec, LeftoverOf, ChunkCount;
    OffsetStep(file, size, i);
  }

  /** What every merge of the directory returns when each leftover belongs to a saved chunk: the slices in
      order, each repeated once per leftover; and the error of the first chunk without a file otherwise. */
  lemma MergeGathers(dir: Dir, file: string, size: nat, have: set<nat>, left: set<string>, names: seq<string>,
                     r: MergeResult)
    requires size > 0 && HoldsAlso(dir, file, size, have, left) && IsListingOf(names, dir) && MergesTo(dir, names, r)
    ensures var n := Min(ChunkCount(file, size), INT_MAX + 1);
            NoOrphans(have, left, 0, n) ==>
              var bytes := Gathered(file, size, have, left, 0, n);
              r == if bytes == "" then NoChunks else Merged(bytes)
    ensures forall k: nat ::
              k < Min(ChunkCount(file, size), INT_MAX + 1) && NoOrphans(have, left, 0, k) && k !in have &&
              Copies(have, left, k) > 0 ==>
                r == CannotOpen(k, Gathered(file, size, have, left, 0, k))
  {
    hide HoldsAlso, IndicesOf, Copies, ChunkCount, IsListingOf, Append, Gathered, Blocks;
    var n := Min(ChunkCount(file, size), INT_MAX + 1);
    var blocks := Blocks(have, left, 0, n);
    BlocksCount(have, left, 0, n);
    if IndicesOf(names) == [] {
      SortedIndices(dir, file, size, have, left, names, []);
    } else {
      var order :| Ascends(order) && multiset(order) == multiset(IndicesOf(names)) &&
                   r == Append(dir, order, Out("", true));
      SortedIndices(dir, file, size, have, left, names, order);
      assert |multiset(order)| == |multiset(IndicesOf(names))|;
    }
    if NoOrphans(have, left, 0, n) {
      var bytes := Gathered(file, size, have, left, 0, n);
      AppendBlocks(dir, file, size, have, left, 0, n, n, "");
      assert "" + bytes == bytes;
      NoBlocks(dir, have, left, n, bytes);
      GatheredEmpty(file, size, have, left, 0, n);
    }
    forall k: nat | k < n && NoOrphans(have, left, 0, k) && k !in have && Copies(have, left, k) > 0
      ensures r == CannotOpen(k, Gathered(file, size, have, left, 0, k))
    {
      var bytes := Gathered(file, size, have, left, 0, k);
      AppendBlocks(dir, file, size, have, left, 0, k, n, "");
      assert "" + bytes == bytes;
      OrphanStops(dir, file, size, have, left, k, n, bytes);
    }
  }

  lemma NoBlocks(dir: Dir, have: set<nat>, left: set<string>, n: nat, bytes: string)
    ensures Append(dir, Blocks(have, left, n, n), Out(bytes, true)) == Merged(bytes)
  {
  }

  lemma OrphanStops(dir: Dir, file: string, size: nat, have: set<nat>, left: set<string>, k: nat, n: nat, bytes: string)
    requires size > 0 && HoldsAlso(dir, file, size, have, left)
    requires k < n && k !in have && Copies(have, left, k) > 0
    ensures Append(dir, Blocks(have, left, k, n), Out(bytes, true)) == CannotOpen(k, bytes)
    ensures Blocks(have, left, k, n) != []
  {
    hide Copies, ChunkCount, LeftoverOf, Dec;
    assert Repeat(k, Copies(have, left, k))[0] == k;
    assert Dec(k) !in dir by {
      if Dec(k) in dir {
        if Dec(k) in left {
          var i: nat :| i < ChunkCount(file, size) && LeftoverOf(Dec(k), i);
          LeftoverReads(Dec(k), i);
        } else {
          var i :| i in have && Dec(k) == Dec(i);
          DecInjective(k, i);
        }
      }
    }
  }

  lemma {:induction false} GatheredEmpty(file: string, size: nat, have: set<nat>, left: set<string>, i: nat, n: nat)
    requires size > 0 && i <= n <= ChunkCount(file, size)
    ensures Gathered(file, size, have, left, i, n) == "" <==> Blocks(have, left, i, n) == []
    decreases n - i
  {
    hide Copies, ChunkCount, Slice;
    if i < n {
      GatheredEmpty(file, size, have, left, i + 1, n);
      SliceSize(file, size, i);
    }
  }

  lemma SliceSize(file: string, size: nat, i: nat)
    requires size > 0 && i < ChunkCount(file, size)
    ensures 0 < |Slice(file, size, i)| == Offset(file, size, i + 1) - Offset(file, size, i)
  {
    OffsetStep(file, size, i);
  }

  lemma {:induction false} TimesSize(s: string, c: nat)
    ensures |Times(s, c)| == c * |s|
  {
    if c > 0 {
      TimesSize(s, c - 1);
      assert c * |s| == (c - 1) * |s| + |s|;
    }
  }

  /** Missing slices make the result shorter and repeated slices make it longer than the file. */
  lemma {:induction false} GatheredSize(file: string, size: nat, have: set<nat>, left: set<string>, i: nat, n: nat)
    requires size > 0 && i <= n <= ChunkCount(file, size)
    ensures Offset(file, size, i) <= Offset(file, size, n)
    ensures (forall j: nat :: i <= j < n ==> Copies(have, left, j) == 1) ==>
              Gathered(file, size, have, left, i, n) == file[Offset(file, size, i)..Offset(file, size, n)]
    ensures var l := |Gathered(file, size, have, left, i, n)|;
            var whole := Offset(file, size, n) - Offset(file, size, i);
            && ((forall j: nat :: i <= j < n ==> Copies(have, left, j) <= 1) ==>
                  l <= whole && (l == whole ==> forall j: nat :: i <= j < n ==> Copies(have, left, j) == 1))
            && ((forall j: nat :: i <= j < n ==> Copies(have, left, j) >= 1) ==>
                  l >= whole && (l == whole ==> forall j: nat :: i <= j < n ==> Copies(have, left, j) == 1))
    decreases n - i
  {
    hide Copies, ChunkCount, Offset;
    if i < n {
      GatheredSize(file, size, have, left, i + 1, n);
      SliceSize(file, size, i);
      OffsetStep(file, size, i);
      var c, s := Copies(have, left, i), Slice(file, size, i);
      TimesSize(s, c);
      assert c >= 2 ==> c * |s| > |s| by { if c >= 2 { Monotone(2, c, |s|); } }
      assert Times(s, 1) == s by { assert Times(s, 0) == ""; }
    }
  }

  /** The whole file, if it is within reach of `int` numbers. */
  lemma GatheredIsFile(file: string, size: nat, have: set<nat>, left: set<string>)
    requires size > 0 && file != ""
    requires left == {} || (ChunkCount(file, size) <= INT_MAX + 1 &&
                            forall i: nat :: i < ChunkCount(file, size) ==> i in have)
    ensures var n := Min(ChunkCount(file, size), INT_MAX + 1);
            Gathered(file, size, have, left, 0, n) == file <==>
            && ChunkCount(file, size) <= INT_MAX + 1
            && (forall i: nat :: i < ChunkCount(file, size) ==> Copies(have, left, i) == 1)
  {
    hide ChunkCount, Reading;
    var n := Min(ChunkCount(file, size), INT_MAX + 1);
    OffsetStep(file, size, 0);
    OffsetStep(file, size, n);
    ZeroOffset(file, size);
    assert left == {} ==> forall i: nat :: Reading(left, i) == {} by {
      forall i: nat | left == {} ensures Reading(left, i) == {} { NoneReading(i); }
    }
    GatheredSize(file, size, have, left, 0, n);
    if Offset(file, size, n) == |file| { assert file[0..Offset(file, size, n)] == file; }
  }

  lemma NoneReading(i: nat)
    ensures Reading({}, i) == {}
  {
  }

  lemma ZeroOffset(file: string, size: nat)
    ensures Offset(file, size, 0) == 0
  {
  }

  /** The main result: slice a non-empty file with any positive chunk size and upload slices in any order
      with any repeats; then the merge returns the uploaded slices in order, as far as their numbers fit an
      `int`, and this is the file if and only if all slices were uploaded and all numbers fit. */
  lemma MergeRestores(file: string, size: nat, uploads: seq<nat>, names: seq<string>, r: MergeResult)
    requires size > 0 && file != "" && forall i :: i in uploads ==> i < ChunkCount(file, size)
    requires IsListingOf(names, UploadAll(map[], file, size, uploads))
    requires MergesTo(UploadAll(map[], file, size, uploads), names, r)
    ensures var have := Elements(uploads);
            var bytes := Gathered(file, size, have, {}, 0, Min(ChunkCount(file, size), INT_MAX + 1));
            r == if bytes == "" then NoChunks else Merged(bytes)
    ensures r == Merged(file) <==>
            (forall i: nat :: i < ChunkCount(file, size) ==> i in uploads) && ChunkCount(file, size) <= INT_MAX + 1
  {
    hide UploadAll, ChunkCount, IsListingOf, MergesTo, HoldsAlso, Gathered, Reading;
    var dir, have := UploadAll(map[], file, size, uploads), Elements(uploads);
    OnlySlices(file, size, uploads);
    forall i: nat ensures Reading({}, i) == {} { NoneReading(i); }
    forall i: nat ensures Copies(have, {}, i) == if i in uploads then 1 else 0 {}
    MergeGathers(dir, file, size, have, {}, names, r);
    GatheredIsFile(file, size, have, {});
    if forall i: nat :: i < ChunkCount(file, size) ==> Copies(have, {}, i) == 1 {
      forall i: nat | i < ChunkCount(file, size) ensures i in uploads { assert Copies(have, {}, i) == 1; }
    }
  }

  lemma OnlySlices(file: string, size: nat, uploads: seq<nat>)
    requires size > 0 && forall i :: i in uploads ==> i < ChunkCount(file, size)
    ensures HoldsAlso(UploadAll(map[], file, size, uploads), file, size, Elements(uploads), {})
  {
    hide UploadAll, ChunkCount, Slice, Dec;
    EmptyHolds(file, size);
    UploadsHold(map[], file, size, uploads, {});
    var have, dir := Elements(uploads), UploadAll(map[], file, size, uploads);
    assert {} + have == have;
    forall n | n in dir ensures exists i :: i in have && n == Dec(i) {
      var i: nat :| n == Dec(i);
    }
  }

  lemma EmptyHolds(file: string, size: nat)
    ensures Holds(map[], file, size, {})
  {
  }

  /** All slices are there, and leftovers of failed writes as well: the merge returns each slice once plus
      once per leftover, which is the file if and only if there is no leftover. */
  lemma LeftoversMerged(dir: Dir, file: string, size: nat, have: set<nat>, left: set<string>, names: seq<string>,
                        r: MergeResult)
    requires size > 0 && file != "" && ChunkCount(file, size) <= INT_MAX + 1
    requires forall i: nat :: i in have <==> i < ChunkCount(file, size)
    requires HoldsAlso(dir, file, size, have, left) && IsListingOf(names, dir) && MergesTo(dir, names, r)
    ensures r == Merged(Gathered(file, size, have, left, 0, ChunkCount(file, size)))
    ensures r == Merged(file) <==> left == {}
  {
    hide ChunkCount, IsListingOf, MergesTo, HoldsAlso, Gathered, Reading;
    var n := ChunkCount(file, size);
    MergeGathers(dir, file, size, have, left, names, r);
    GatheredSize(file, size, have, left, 0, n);
    OffsetStep(file, size, n);
    OffsetStep(file, size, 0);
    ZeroOffset(file, size);
    GatheredIsFile(file, size, have, left);
    if left != {} {
      var name :| name in left;
      var i := LeftoverCounts(dir, file, size, have, left, name);
      assert Copies(have, left, i) >= 2;
    } else {
      forall i: nat | i < n ensures Copies(have, left, i) == 1 { NoneReading(i); }
    }
  }

  lemma LeftoverCounts(dir: Dir, file: string, size: nat, have: set<nat>, left: set<string>, name: string)
    returns (i: nat)
    requires size > 0 && ChunkCount(file, size) <= INT_MAX + 1 && HoldsAlso(dir, file, size, have, left) && name in left
    ensures i < ChunkCount(file, size) && |Reading(left, i)| >= 1
  {
    hide LeftoverOf, ChunkCount, Slice, Dec, Stoi;
    i :| i < ChunkCount(file, size) && LeftoverOf(name, i);
    LeftoverReads(name, i);
    assert name in Reading(left, i);
  }
}
