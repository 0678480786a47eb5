/**
  Resuming an upload: which shard indices a prefix scan reports for a file.
 */
module MetadataShards {
  import opened Lex
  import opened Decimal
  import opened OrderedKeys
  import opened Metadata
  import opened MetadataRuns
  import opened MetadataListing

  /** The index text of a key: what follows the first n characters. */
  function IndexAt(k: string, n: nat): Option<nat> {
    if n <= |k| then StoulU32(k[n..]) else None
  }

  /** The readable indices of a sequence of keys, in order. */
  ghost function ReadIndices(keys: seq<string>, n: nat): seq<nat> {
    if keys == [] then [] else ReadIndices(keys[..|keys| - 1], n) + OneOf(IndexAt(keys[|keys| - 1], n))
  }

  ghost function ShardScan(db: Db, file: string): seq<string> {
    Sorted(WithPrefix(db.Keys, ShardPrefix(file)))
  }

  /** What the store reports on any database at all. */
  ghost function UploadedShards(db: Db, file: string): seq<nat> {
    if file == "" then [] else ReadIndices(ShardScan(db, file), |ShardPrefix(file)|)
  }

  /** Ascending as text, which is not numeric order. */
  ghost predicate TextAscending(s: seq<nat>) {
    forall i, j :: 0 <= i < j < |s| ==> Less(Dec(s[i]), Dec(s[j]))
  }

  lemma {:induction false} ReadMember(keys: seq<string>, n: nat, v: nat)
    ensures v in ReadIndices(keys, n) <==> exists k :: k in keys && IndexAt(k, n) == Some(v)
    decreases |keys|
  {
    hide IndexAt;
    if keys != [] {
      var init, last := keys[..|keys| - 1], keys[|keys| - 1];
      ReadMember(init, n, v);
      assert forall k :: k in keys <==> k in init || k == last;
    }
  }

  /** Two keys with one index make the index appear twice. */
  lemma {:induction false} ReadTwice(keys: seq<string>, n: nat, a: nat, b: nat)
    requires a < b < |keys| && IndexAt(keys[a], n).Some? && IndexAt(keys[a], n) == IndexAt(keys[b], n)
    ensures !NoRepeats(ReadIndices(keys, n))
    decreases |keys|
  {
    hide IndexAt;
    var init, last := keys[..|keys| - 1], keys[|keys| - 1];
    var r := ReadIndices(init, n);
    if b < |init| {
      ReadTwice(init, n, a, b);
      var i, j :| 0 <= i < j < |r| && r[i] == r[j];
      assert ReadIndices(keys, n)[i] == ReadIndices(keys, n)[j];
    } else {
      var v := IndexAt(last, n).value;
      assert keys[a] in init by { assert init[a] == keys[a]; }
      ReadMember(init, n, v);
      var i :| 0 <= i < |r| && r[i] == v;
      assert ReadIndices(keys, n)[i] == ReadIndices(keys, n)[|r|] == v;
    }
  }

  /** When every readable key is the file's own, the indices come out in text order. */
  lemma {:induction false} ReadAscending(keys: seq<string>, file: string)
    requires Ascending(keys)
    requires forall k, v :: k in keys && IndexAt(k, |ShardPrefix(file)|) == Some(v) ==> k == ShardKey(file, v)
    ensures TextAscending(ReadIndices(keys, |ShardPrefix(file)|))
    decreases |keys|
  {
    hide IndexAt, ShardKey, ShardPrefix, Dec;
    var n := |ShardPrefix(file)|;
    if keys != [] {
      var init, last := keys[..|keys| - 1], keys[|keys| - 1];
      assert forall k :: k in init ==> k in keys;
      ReadAscending(init, file);
      var r := ReadIndices(init, n);
      if IndexAt(last, n).Some? {
        var v := IndexAt(last, n).value;
        assert last in keys;
        forall i | 0 <= i < |r| ensures Less(Dec(r[i]), Dec(v)) {
          assert r[i] in r;
          ReadMember(init, n, r[i]);
          var k :| k in init && IndexAt(k, n) == Some(r[i]);
          var p :| 0 <= p < |init| && init[p] == k;
          assert Less(keys[p], keys[|keys| - 1]);
          ShardKeyOrder(file, r[i], v);
        }
      }
    }
  }

  lemma ShardKeyOrder(file: string, i: nat, j: nat)
    ensures ShardKey(file, i) == ShardPrefix(file) + Dec(i)
    ensures Less(ShardKey(file, i), ShardKey(file, j)) <==> Less(Dec(i), Dec(j))
  {
    CommonPrefix(ShardPrefix(file), Dec(i), Dec(j));
  }

  lemma TextAscendingNoRepeats(s: seq<nat>)
    requires TextAscending(s)
    ensures NoRepeats(s)
  {
    forall i, j | 0 <= i < j < |s| ensures s[i] != s[j] {
      Irreflexive(Dec(s[i]));
    }
  }

  // ----- which records a scan meets -----

  /** The shard record (g, i) of another file reads as a record of `file`: g extends `file` past a
      colon with text that starts like a number. */
  predicate Misread(file: string, g: string, i: nat) {
    file + ":" <= g && StoulU32((g + ":" + Dec(i))[|file| + 1..]).Some?
  }

  lemma OwnIndex(file: string, i: nat)
    requires i < UINT32
    ensures ShardPrefix(file) <= ShardKey(file, i)
    ensures IndexAt(ShardKey(file, i), |ShardPrefix(file)|) == Some(i)
  {
    var p := ShardPrefix(file);
    assert ShardKey(file, i) == p + Dec(i);
    assert (p + Dec(i))[|p|..] == Dec(i);
    StoulDec(i);
  }

  lemma ForeignIndex(file: string, g: string, i: nat)
    requires g != file
    ensures ShardPrefix(file) <= ShardKey(g, i) <==> file + ":" <= g
    ensures ShardPrefix(file) <= ShardKey(g, i) ==>
              IndexAt(ShardKey(g, i), |ShardPrefix(file)|) == StoulU32((g + ":" + Dec(i))[|file| + 1..])
  {
    hide StoulU32;
    DecIntColonFree(i);
    var w := g + ":" + Dec(i);
    assert ShardKey(g, i) == "Shard:" + w && ShardPrefix(file) == "Shard:" + (file + ":");
    PrefixCancel("Shard:", file + ":", w);
    ColonEnd(file, g, Dec(i));
    if file + ":" <= w {
      assert ("Shard:" + w)[|ShardPrefix(file)|..] == w[|file| + 1..];
    }
  }

  lemma ColonEnd(dir: string, a: string, b: string)
    requires ':' !in b
    ensures dir + ":" <= a + ":" + b <==> dir == a || dir + ":" <= a
  {
    var w, n := a + ":" + b, |dir|;
    assert w[..|a|] == a && w[|a|] == ':';
    assert forall i :: |a| < i < |w| ==> w[i] == b[i - |a| - 1];
    ColonPrefixAt(dir, w);
    ColonPrefixAt(dir, a);
    if n < |a| { assert w[..n] == a[..n]; }
  }

  lemma ColonPrefixAt(dir: string, w: string)
    ensures dir + ":" <= w <==> |dir| < |w| && w[..|dir|] == dir && w[|dir|] == ':'
  {
    var n := |dir|;
    if n < |w| && w[..n] == dir && w[n] == ':' { assert w[..n + 1] == dir + ":"; }
    if dir + ":" <= w { assert w[..n + 1] == dir + ":"; assert w[..n] == dir; }
  }

  ghost predicate Records(db: Db, saved: set<(string, nat)>) {
    && (forall k :: IsShardKey(k) ==> (k in db <==> exists r :: r in saved && k == ShardKey(r.0, r.1)))
    && (forall r :: r in saved ==> r.1 < UINT32)
  }

  lemma ScanMember(db: Db, saved: set<(string, nat)>, file: string, k: string)
    requires Records(db, saved)
    ensures k in ShardScan(db, file) <==>
            exists r :: r in saved && k == ShardKey(r.0, r.1) && (r.0 == file || file + ":" <= r.0)
  {
    hide ShardKey, ShardPrefix, IsShardKey;
    if k in ShardScan(db, file) {
      PrefixIsShard(file, k);
      var r :| r in saved && k == ShardKey(r.0, r.1);
      if r.0 != file { ForeignIndex(file, r.0, r.1); }
    }
    forall r | r in saved && k == ShardKey(r.0, r.1) && (r.0 == file || file + ":" <= r.0)
      ensures k in ShardScan(db, file)
    {
      KeyKinds("", "", 0, "", r.0, r.1);
      if r.0 == file { OwnIndex(file, r.1); } else { ForeignIndex(file, r.0, r.1); }
    }
  }

  lemma PrefixIsShard(file: string, k: string)
    requires ShardPrefix(file) <= k
    ensures IsShardKey(k)
  {
    assert k[..6] == ShardPrefix(file)[..6] == "Shard:";
  }

  /** Reported exactly: each saved index of the file once, and nothing else. */
  ghost predicate Exact(r: seq<nat>, saved: set<(string, nat)>, file: string) {
    NoRepeats(r) && forall i: nat :: i in r <==> (file, i) in saved
  }

  ghost predicate NoMisread(saved: set<(string, nat)>, file: string) {
    forall r :: r in saved ==> !Misread(file, r.0, r.1)
  }

  lemma ExactWhenDistinct(db: Db, saved: set<(string, nat)>, file: string)
    requires file != "" && Records(db, saved) && NoMisread(saved, file)
    ensures Exact(UploadedShards(db, file), saved, file) && TextAscending(UploadedShards(db, file))
  {
    hide ShardKey, ShardPrefix, IsShardKey, IndexAt, StoulU32, Dec;
    var keys, n := ShardScan(db, file), |ShardPrefix(file)|;
    forall k, v: nat | k in keys && IndexAt(k, n) == Some(v)
      ensures k == ShardKey(file, v) && (file, v) in saved
    {
      OwnRecord(db, saved, file, k, v);
    }
    ReadAscending(keys, file);
    TextAscendingNoRepeats(UploadedShards(db, file));
    forall i: nat ensures i in UploadedShards(db, file) <==> (file, i) in saved {
      ReadMember(keys, n, i);
      if (file, i) in saved {
        OwnIndex(file, i);
        ScanMember(db, saved, file, ShardKey((file, i).0, (file, i).1));
        assert ShardKey(file, i) in keys && IndexAt(ShardKey(file, i), n) == Some(i);
      }
    }
  }

  lemma OwnRecord(db: Db, saved: set<(string, nat)>, file: string, k: string, v: nat)
    requires Records(db, saved) && NoMisread(saved, file)
    requires k in ShardScan(db, file) && IndexAt(k, |ShardPrefix(file)|) == Some(v)
    ensures k == ShardKey(file, v) && (file, v) in saved
  {
    hide ShardKey, ShardPrefix, IsShardKey, IndexAt, StoulU32, Dec;
    ScanMember(db, saved, file, k);
    var r :| r in saved && k == ShardKey(r.0, r.1) && (r.0 == file || file + ":" <= r.0);
    if r.0 == file {
      OwnIndex(file, r.1);
      assert r == (file, v);
    } else {
      ForeignIndex(file, r.0, r.1);
      assert false;
    }
  }

  lemma MisreadBreaks(db: Db, saved: set<(string, nat)>, file: string, g: string, i: nat)
    requires file != "" && Records(db, saved) && (g, i) in saved && Misread(file, g, i)
    ensures !Exact(UploadedShards(db, file), saved, file)
  {
    hide ShardKey, ShardPrefix, IsShardKey, IndexAt, StoulU32, Dec;
    var keys, n := ShardScan(db, file), |ShardPrefix(file)|;
    assert g != file by { assert |g| > |file|; }
    ForeignIndex(file, g, i);
    ScanMember(db, saved, file, ShardKey((g, i).0, (g, i).1));
    var k := ShardKey(g, i);
    var v := IndexAt(k, n).value;
    ReadMember(keys, n, v);
    if (file, v) in saved {
      OwnIndex(file, v);
      ScanMember(db, saved, file, ShardKey((file, v).0, (file, v).1));
      var k' := ShardKey(file, v);
      if k == k' { ShardKeyInjective(g, i, file, v); }
      var a :| 0 <= a < |keys| && keys[a] == k;
      var b :| 0 <= b < |keys| && keys[b] == k';
      if a < b { ReadTwice(keys, n, a, b); } else { ReadTwice(keys, n, b, a); }
    }
  }

  /** The main result: after every sequential run the report for a file is exact if and only if no saved
      record of another file reads as one of its own; file ids without colons never do. An exact
      report is in text order. */
  lemma UploadedShardsExact(ops: seq<Op>, file: string)
    requires AllWellFormed(ops) && file != ""
    ensures var r := UploadedShards(Run(EMPTY, ops).db, file);
            var saved := SavedShards(ops);
            && (Exact(r, saved, file) <==> NoMisread(saved, file))
            && (NoMisread(saved, file) ==> TextAscending(r))
            && ((forall s :: s in saved ==> ':' !in s.0) ==> NoMisread(saved, file))
  {
    hide Run, UploadedShards, TextAscending, Exact, Misread, ShardKey, StoulU32;
    var db, saved := Run(EMPTY, ops).db, SavedShards(ops);
    forall k | IsShardKey(k)
      ensures k in db <==> exists r :: r in saved && k == ShardKey(r.0, r.1)
    {
      ShardsKept(ops, k);
    }
    SavedBelow(ops);
    assert Records(db, saved);
    if NoMisread(saved, file) {
      ExactWhenDistinct(db, saved, file);
    } else {
      var r :| r in saved && Misread(file, r.0, r.1);
      MisreadBreaks(db, saved, file, r.0, r.1);
    }
    if forall s :: s in saved ==> ':' !in s.0 {
      forall r | r in saved ensures !Misread(file, r.0, r.1) { NoColonNoMisread(file, r.0, r.1); }
    }
  }

  lemma NoColonNoMisread(file: string, g: string, i: nat)
    requires ':' !in g
    ensures !Misread(file, g, i)
  {
    ColonPrefixAt(file, g);
  }

  lemma {:induction false} SavedBelow(ops: seq<Op>)
    requires AllWellFormed(ops)
    ensures forall r :: r in SavedShards(ops) ==> r.1 < UINT32
    decreases |ops|
  {
    if ops != [] {
      SavedBelow(ops[..|ops| - 1]);
      assert WellFormed(ops[|ops| - 1]);
    }
  }

  /** With colons the report can be wrong: shard 5 of file "f:1" is reported as shard 1 of file "f". */
  lemma ColonFilesMisread()
    ensures Misread("f", "f:1", 5)
  {
    assert Dec(1) == "1" && Dec(5) == "5";
    var w := "f:1" + ":" + Dec(5);
    assert w[|"f"| + 1..] == Dec(1) + ":5";
    ScanDec(1, ":5");
  }
}
