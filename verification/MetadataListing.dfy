/**
  Directory listings: an iterator scan over the scene index is shown to be a page of the live
  documents in key order.
 */
module MetadataListing {
  import opened Lex
  import opened Decimal
  import opened OrderedKeys
  import opened Metadata
  import opened MetadataRuns

  /** `offset` dropped, then `limit` taken; a negative limit takes all. */
  function Page<T>(s: seq<T>, offset: int, limit: int): seq<T> {
    if offset < 0 || limit == 0 then [] else TakeLimit(Drop(s, offset), limit)
  }

  /** A page has the entries from `offset` on, `limit` of them if there are so many; none for a negative
      offset or the limit 0. */
  lemma PageMeans<T>(s: seq<T>, offset: int, limit: int)
    ensures var r := Page(s, offset, limit);
            && (offset < 0 || limit == 0 || offset >= |s| ==> r == [])
            && (0 <= offset < |s| && limit < 0 ==> |r| == |s| - offset)
            && (0 <= offset < |s| && limit > 0 ==> |r| == if limit < |s| - offset then limit else |s| - offset)
            && (forall i :: 0 <= i < |r| ==> r[i] == s[offset + i])
  {
  }

  function Drop<T>(s: seq<T>, n: nat): seq<T> {
    if n <= |s| then s[n..] else []
  }

  function TakeLimit<T>(s: seq<T>, limit: int): seq<T> {
    if 0 <= limit < |s| then s[..limit] else s
  }

  /** The document a scene entry leads to. */
  function ResolveEntry(db: Db, k: string): Option<MetaFile>
    requires k in db
  {
    if db[k].Raw? then GetMeta(db, db[k].text) else None
  }

  function OneOf<T>(o: Option<T>): seq<T> {
    match o
    case None => []
    case Some(x) => [x]
  }

  /** The documents that a sequence of scene entries leads to, in order; entries that lead nowhere are
      passed over. */
  ghost function Resolve(db: Db, keys: seq<string>): seq<MetaFile>
    requires forall i :: 0 <= i < |keys| ==> keys[i] in db
  {
    if keys == [] then [] else
      Resolve(db, keys[..|keys| - 1]) + OneOf(ResolveEntry(db, keys[|keys| - 1]))
  }

  /** The scene entries of a directory in the order the scan visits them. */
  ghost function ScanOrder(db: Db, dir: string, order: int): (s: seq<string>)
    ensures forall i :: 0 <= i < |s| ==> s[i] in db
  {
    var run := WithPrefix(db.Keys, ScenePrefix(dir));
    var s := Sorted(run);
    assert forall k :: k in s ==> k in db;
    if order == 1 then s else Reversed(s)
  }

  /** What a listing returns on any database at all. */
  ghost function ListDir(db: Db, dir: string, offset: int, limit: int, order: int): seq<MetaFile> {
    if offset < 0 || limit == 0 then []
    else TakeLimit(Resolve(db, Drop(ScanOrder(db, dir, order), offset)), limit)
  }

  lemma {:induction false} ResolvePrefix(db: Db, keys: seq<string>, n: nat)
    requires forall i :: 0 <= i < |keys| ==> keys[i] in db
    requires n <= |keys|
    ensures Resolve(db, keys[..n]) <= Resolve(db, keys)
    decreases |keys|
  {
    if n < |keys| {
      ResolvePrefix(db, keys[..|keys| - 1], n);
      assert keys[..|keys| - 1][..n] == keys[..n];
    } else {
      assert keys[..n] == keys;
    }
  }

  // ----- which documents a directory lists -----

  /** A document appears under its scene, under every colon-terminated prefix of its scene, and under
      its scene followed by its time. */
  predicate Listed(dir: string, m: MetaFile) {
    dir == m.scene || dir + ":" <= m.scene || dir == m.scene + ":" + DecInt(m.mtime)
  }

  lemma SceneMatch(dir: string, scene: string, mtime: int, md5: string)
    requires ':' !in md5
    ensures ScenePrefix(dir) <= SceneKey(scene, mtime, md5) <==>
            dir == scene || dir + ":" <= scene || dir == scene + ":" + DecInt(mtime)
  {
    var t := DecInt(mtime);
    DecIntColonFree(mtime);
    var w := scene + ":" + t + ":" + md5;
    assert SceneKey(scene, mtime, md5) == "SCENE:" + w by {
      assert "SCENE:" + scene + ":" + t + ":" + md5 == "SCENE:" + (scene + ":" + t + ":" + md5);
    }
    assert ScenePrefix(dir) == "SCENE:" + (dir + ":");
    PrefixCancel("SCENE:", dir + ":", w);
    ColonPrefix(dir, scene, t, md5);
  }

  lemma PrefixCancel(p: string, a: string, b: string)
    ensures p + a <= p + b <==> a <= b
  {
    if a <= b {
      assert (p + b)[..|p + a|] == p + a;
    }
    if p + a <= p + b {
      assert a == (p + b)[..|p + a|][|p|..] == b[..|a|];
    }
  }

  /** A colon-terminated prefix of three colon-separated fields ends at a colon. */
  lemma ColonPrefix(dir: string, a: string, b: string, c: string)
    requires ':' !in b && ':' !in c
    ensures dir + ":" <= a + ":" + b + ":" + c <==> dir == a || dir + ":" <= a || dir == a + ":" + b
  {
    var w := a + ":" + b + ":" + c;
    var n := |dir|;
    assert w[..|a|] == a && w[..|a| + 1 + |b|] == a + ":" + b;
    assert |a| < |w| && w[|a|] == ':' && w[|a| + 1 + |b|] == ':';
    assert forall i :: |a| < i < |a| + 1 + |b| ==> w[i] == b[i - |a| - 1];
    assert forall i :: |a| + 1 + |b| < i < |w| ==> w[i] == c[i - |a| - |b| - 2];
    assert dir + ":" <= w <==> n < |w| && w[..n] == dir && w[n] == ':' by {
      if n < |w| && w[..n] == dir && w[n] == ':' { assert w[..n + 1] == dir + ":"; }
      if dir + ":" <= w { assert w[..n + 1] == dir + ":"; assert w[..n] == dir; }
    }
    assert dir + ":" <= a <==> n < |a| && a[..n] == dir && a[n] == ':' by {
      if n < |a| && a[..n] == dir && a[n] == ':' { assert a[..n + 1] == dir + ":"; }
      if dir + ":" <= a { assert a[..n + 1] == dir + ":"; assert a[..n] == dir; }
    }
    if n < |a| { assert w[..n] == a[..n]; }
  }

  /** With colon-free names a directory is exactly a scene. */
  lemma ColonFreeListed(dir: string, m: MetaFile)
    requires ':' !in dir && ':' !in m.scene
    ensures Listed(dir, m) <==> m.scene == dir
  {
    assert (dir + ":")[|dir|] == ':' && (m.scene + ":" + DecInt(m.mtime))[|m.scene|] == ':';
  }

  // ----- the specification -----

  ghost predicate KeyAscending(r: seq<MetaFile>) {
    forall i, j :: 0 <= i < j < |r| ==> Less(SceneKeyOf(r[i]), SceneKeyOf(r[j]))
  }

  /** `r` is the documents of the directory, each once, in ascending key order. */
  ghost predicate IsListing(r: seq<MetaFile>, docs: map<string, MetaFile>, dir: string) {
    && KeyAscending(r)
    && (forall m :: m in r <==> m.md5 in docs && docs[m.md5] == m && Listed(dir, m))
  }

  lemma EntryResolves(db: Db, k: string)
    requires Indexed(db) && k in db && IsSceneKey(k)
    ensures SceneEntryOk(db, k) && ResolveEntry(db, k) == Some(db[db[k].text].meta)
  {
    hide SceneKey, PathKey, IsSceneKey, IsPathKey;
    assert SceneEntryOk(db, k) && DocOk(db, db[k].text);
  }

  lemma {:induction false} ResolveAll(db: Db, keys: seq<string>)
    requires forall i :: 0 <= i < |keys| ==> keys[i] in db && ResolveEntry(db, keys[i]).Some?
    ensures |Resolve(db, keys)| == |keys|
    ensures forall i :: 0 <= i < |keys| ==> Resolve(db, keys)[i] == ResolveEntry(db, keys[i]).value
    decreases |keys|
  {
    hide ResolveEntry;
    if keys != [] { ResolveAll(db, keys[..|keys| - 1]); }
  }

  /** On an indexed database every scene entry resolves. */
  lemma ResolveScene(db: Db, keys: seq<string>)
    requires Indexed(db) && forall i :: 0 <= i < |keys| ==> keys[i] in db && IsSceneKey(keys[i])
    ensures |Resolve(db, keys)| == |keys|
    ensures forall i :: 0 <= i < |keys| ==> ResolveEntry(db, keys[i]) == Some(Resolve(db, keys)[i])
  {
    hide Indexed, Resolve, ResolveEntry, IsSceneKey;
    forall i | 0 <= i < |keys| ensures ResolveEntry(db, keys[i]).Some? { EntryResolves(db, keys[i]); }
    ResolveAll(db, keys);
  }

  /** All entries of a directory, resolved in ascending order, are its listing. */
  lemma WholeListing(db: Db, dir: string)
    requires Indexed(db)
    ensures var keys := ScanOrder(db, dir, 1);
            var whole := Resolve(db, keys);
            && |whole| == |keys| && (forall i :: 0 <= i < |keys| ==> SceneKeyOf(whole[i]) == keys[i])
            && IsListing(whole, Docs(db), dir)
  {
    hide SceneKey, PathKey, ScenePrefix, Listed;
    var keys := ScanOrder(db, dir, 1);
    var run := WithPrefix(db.Keys, ScenePrefix(dir));
    assert keys == Sorted(run);
    forall k | k in keys ensures IsSceneKey(k) && k in db { PrefixIsScene(dir, k); }
    assert forall i :: 0 <= i < |keys| ==> keys[i] in keys;
    ResolveScene(db, keys);
    var whole := Resolve(db, keys);
    forall i | 0 <= i < |keys| ensures SceneKeyOf(whole[i]) == keys[i] { EntryResolves(db, keys[i]); }
    assert KeyAscending(whole);
    forall m ensures m in whole <==> m.md5 in Docs(db) && Docs(db)[m.md5] == m && Listed(dir, m) {
      ListingMember(db, dir, keys, m);
    }
  }

  lemma PrefixIsScene(dir: string, k: string)
    requires ScenePrefix(dir) <= k
    ensures IsSceneKey(k)
  {
    assert "SCENE:" <= ScenePrefix(dir);
    assert k[..6] == ScenePrefix(dir)[..6];
  }

  lemma ListedKey(db: Db, dir: string, md5: string)
    requires Indexed(db) && Live(db, md5)
    ensures Listed(dir, db[md5].meta) <==> ScenePrefix(dir) <= SceneKeyOf(db[md5].meta)
  {
    hide SceneKey, ScenePrefix, DecInt;
    var m := db[md5].meta;
    assert DocOk(db, md5);
    SceneMatch(dir, m.scene, m.mtime, m.md5);
  }

  lemma ListingMember(db: Db, dir: string, keys: seq<string>, m: MetaFile)
    requires Indexed(db)
    requires forall k :: k in keys <==> k in db && ScenePrefix(dir) <= k
    requires forall i :: 0 <= i < |keys| ==> keys[i] in db && IsSceneKey(keys[i])
    ensures m in Resolve(db, keys) <==> m.md5 in Docs(db) && Docs(db)[m.md5] == m && Listed(dir, m)
  {
    hide SceneKey, PathKey, ScenePrefix, Listed;
    ResolveScene(db, keys);
    var whole := Resolve(db, keys);
    if m in whole {
      var i :| 0 <= i < |whole| && whole[i] == m;
      EntryResolves(db, keys[i]);
      var t := db[keys[i]].text;
      assert DocOk(db, t);
      assert keys[i] in keys;
      ListedKey(db, dir, t);
    }
    if Live(db, m.md5) && db[m.md5].meta == m && Listed(dir, m) {
      assert DocOk(db, m.md5);
      ListedKey(db, dir, m.md5);
      assert SceneKeyOf(m) in keys;
      var i :| 0 <= i < |keys| && keys[i] == SceneKeyOf(m);
      EntryResolves(db, keys[i]);
      assert whole[i] == m;
    }
  }

  /** The specification leaves no choice. */
  lemma {:induction false} ListingUnique(r: seq<MetaFile>, t: seq<MetaFile>)
    requires KeyAscending(r) && KeyAscending(t)
    requires forall m :: m in r <==> m in t
    ensures r == t
    decreases |r|
  {
    hide SceneKey;
    assert t != [] ==> t[0] in t;
    if r != [] {
      assert r[0] in r;
      var j :| 0 <= j < |t| && t[j] == r[0];
      var i :| 0 <= i < |r| && r[i] == t[0];
      Order(SceneKeyOf(r[0]), SceneKeyOf(t[0]), SceneKeyOf(r[0]));
      assert r[0] == t[0];
      forall m ensures m in r[1..] <==> m in t[1..] {
        KeyTail(r, m);
        KeyTail(t, m);
      }
      ListingUnique(r[1..], t[1..]);
      assert r == [r[0]] + r[1..] && t == [t[0]] + t[1..];
    }
  }

  lemma KeyTail(r: seq<MetaFile>, m: MetaFile)
    requires KeyAscending(r) && r != []
    ensures m in r[1..] <==> m in r && m != r[0]
  {
    hide SceneKey;
    Irreflexive(SceneKeyOf(r[0]));
    if m in r[1..] {
      var i :| 0 <= i < |r[1..]| && r[1..][i] == m;
      assert r[i + 1] == m && Less(SceneKeyOf(r[0]), SceneKeyOf(r[i + 1]));
    }
  }

  lemma ScanReverses(db: Db, dir: string, order: int)
    requires Indexed(db)
    ensures var up := ScanOrder(db, dir, 1);
            var keys := ScanOrder(db, dir, order);
            && keys == (if order == 1 then up else Reversed(up))
            && (forall i :: 0 <= i < |up| ==> IsSceneKey(up[i]))
            && (forall i :: 0 <= i < |keys| ==> IsSceneKey(keys[i]))
            && Resolve(db, keys) == (if order == 1 then Resolve(db, up) else Reversed(Resolve(db, up)))
  {
    hide Indexed, Resolve, IsSceneKey, ScenePrefix, ResolveEntry;
    var up := ScanOrder(db, dir, 1);
    var keys := ScanOrder(db, dir, order);
    forall i | 0 <= i < |up| ensures IsSceneKey(up[i]) {
      assert up[i] in up;
      PrefixIsScene(dir, up[i]);
    }
    ResolveScene(db, up);
    ResolveScene(db, keys);
    assert Resolve(db, keys) == if order == 1 then Resolve(db, up) else Reversed(Resolve(db, up));
  }

  lemma ResolveDrop(db: Db, keys: seq<string>, n: nat)
    requires Indexed(db) && forall i :: 0 <= i < |keys| ==> keys[i] in db && IsSceneKey(keys[i])
    ensures Resolve(db, Drop(keys, n)) == Drop(Resolve(db, keys), n)
  {
    hide Indexed, Resolve, IsSceneKey, ResolveEntry;
    ResolveScene(db, keys);
    ResolveScene(db, Drop(keys, n));
  }

  lemma PageOfScan(db: Db, dir: string, offset: int, limit: int, order: int)
    requires Indexed(db)
    ensures var whole := Resolve(db, ScanOrder(db, dir, 1));
            ListDir(db, dir, offset, limit, order) == Page(if order == 1 then whole else Reversed(whole), offset, limit)
  {
    hide Indexed, Resolve, ScanOrder, IsSceneKey, Drop, TakeLimit;
    ScanReverses(db, dir, order);
    if offset >= 0 { ResolveDrop(db, ScanOrder(db, dir, order), offset); }
  }

  /** The main result: after every sequential run, a listing is the requested page of the directory's
      live documents in key order, ascending for order 1 and descending otherwise. */
  lemma ListDirMeetsSpec(ops: seq<Op>, dir: string, offset: int, limit: int, order: int, spec: seq<MetaFile>)
    requires AllWellFormed(ops) && IsListing(spec, Docs(Run(EMPTY, ops).db), dir)
    ensures ListDir(Run(EMPTY, ops).db, dir, offset, limit, order) ==
            Page(if order == 1 then spec else Reversed(spec), offset, limit)
  {
    hide ListDir, Page, Resolve, ScanOrder, Docs, SceneKey, Listed;
    var db := Run(EMPTY, ops).db;
    RunKeepsIndexed(EMPTY, ops);
    WholeListing(db, dir);
    PageOfScan(db, dir, offset, limit, order);
    ListingUnique(spec, Resolve(db, ScanOrder(db, dir, 1)));
  }

  // ----- time order and paging -----

  /** Within one scene, keys of different times compare as the texts of the times do. */
  lemma KeysInTimeOrder(a: MetaFile, b: MetaFile)
    requires a.scene == b.scene && a.mtime < b.mtime
    ensures Less(SceneKeyOf(a), SceneKeyOf(b)) <==> InOrder(a.mtime, b.mtime)
  {
    hide Less, InOrder, DecInt;
    TextOrder(a.mtime, b.mtime, a.md5, b.md5);
    KeyTailOf(a);
    KeyTailOf(b);
    CommonPrefix(ScenePrefix(a.scene), DecInt(a.mtime) + ":" + a.md5, DecInt(b.mtime) + ":" + b.md5);
  }

  lemma KeyTailOf(m: MetaFile)
    ensures SceneKeyOf(m) == ScenePrefix(m.scene) + (DecInt(m.mtime) + ":" + m.md5)
  {
    hide DecInt;
  }

  /** Ascending times for order 1, descending times otherwise. */
  ghost predicate TimeOrdered(r: seq<MetaFile>, order: int) {
    forall i, j :: 0 <= i < j < |r| ==> if order == 1 then r[i].mtime <= r[j].mtime else r[i].mtime >= r[j].mtime
  }

  /** Any two of the documents that a directory lists have times whose texts sort like the times. */
  ghost predicate SortableTimes(docs: map<string, MetaFile>, dir: string) {
    forall j, k ::
      j in docs && k in docs && Listed(dir, docs[j]) && Listed(dir, docs[k]) && docs[j].mtime < docs[k].mtime ==>
        InOrder(docs[j].mtime, docs[k].mtime)
  }

  /** The directory lists documents of its own scene only, as with colon-free names. */
  ghost predicate OneScene(docs: map<string, MetaFile>, dir: string) {
    forall k :: k in docs && Listed(dir, docs[k]) ==> docs[k].scene == dir
  }

  lemma ListingTimeOrder(r: seq<MetaFile>, docs: map<string, MetaFile>, dir: string)
    requires IsListing(r, docs, dir) && OneScene(docs, dir) && forall k :: k in docs ==> docs[k].md5 == k
    ensures TimeOrdered(r, 1) <==> SortableTimes(docs, dir)
  {
    hide Listed, SceneKeyOf, InOrder, Less;
    assert forall i :: 0 <= i < |r| ==> r[i] in r;
    if TimeOrdered(r, 1) {
      forall j, k | j in docs && k in docs && Listed(dir, docs[j]) && Listed(dir, docs[k]) &&
                    docs[j].mtime < docs[k].mtime
        ensures InOrder(docs[j].mtime, docs[k].mtime)
      {
        assert docs[j] in r && docs[k] in r;
        var p :| 0 <= p < |r| && r[p] == docs[j];
        var q :| 0 <= q < |r| && r[q] == docs[k];
        assert p < q;
        KeysInTimeOrder(docs[j], docs[k]);
      }
    }
    if SortableTimes(docs, dir) {
      forall i, j | 0 <= i < j < |r| ensures r[i].mtime <= r[j].mtime {
        if r[j].mtime < r[i].mtime {
          KeysInTimeOrder(r[j], r[i]);
          Order(SceneKeyOf(r[i]), SceneKeyOf(r[j]), SceneKeyOf(r[i]));
        }
      }
    }
  }

  lemma TimeOrderReversed(r: seq<MetaFile>, order: int)
    ensures TimeOrdered(if order == 1 then r else Reversed(r), order) <==> TimeOrdered(r, 1)
  {
    if order != 1 {
      var t, n := Reversed(r), |r|;
      if TimeOrdered(t, order) {
        forall i, j | 0 <= i < j < n ensures r[i].mtime <= r[j].mtime {
          assert t[n - 1 - j] == r[j] && t[n - 1 - i] == r[i];
        }
      }
    }
  }

  /** After every run, the listing of a directory of one scene is in time order, upwards for order 1 and
      downwards otherwise, if and only if the texts of its times sort like the times; and then every page is. */
  lemma ListDirInTimeOrder(ops: seq<Op>, dir: string, order: int)
    requires AllWellFormed(ops) && OneScene(Docs(Run(EMPTY, ops).db), dir)
    ensures var db := Run(EMPTY, ops).db;
            TimeOrdered(ListDir(db, dir, 0, -1, order), order) <==> SortableTimes(Docs(db), dir)
    ensures var db := Run(EMPTY, ops).db;
            SortableTimes(Docs(db), dir) ==>
              forall offset, limit :: TimeOrdered(ListDir(db, dir, offset, limit, order), order)
  {
    hide Run, ListDir, Resolve, ScanOrder, Docs, Indexed, IsListing, OneScene, SortableTimes, TimeOrdered, Page;
    var db := Run(EMPTY, ops).db;
    assert Indexed(EMPTY.db) by { EmptyIndexed(); }
    RunKeepsIndexed(EMPTY, ops);
    WholeListing(db, dir);
    var whole := Resolve(db, ScanOrder(db, dir, 1));
    var path := if order == 1 then whole else Reversed(whole);
    DocsByMd5(db);
    ListingTimeOrder(whole, Docs(db), dir);
    TimeOrderReversed(whole, order);
    PageOfScan(db, dir, 0, -1, order);
    WholePage(path);
    if SortableTimes(Docs(db), dir) {
      forall offset, limit ensures TimeOrdered(ListDir(db, dir, offset, limit, order), order) {
        PageOfScan(db, dir, offset, limit, order);
        PageTimeOrder(path, offset, limit, order);
      }
    }
  }

  lemma DocsByMd5(db: Db)
    requires Indexed(db)
    ensures forall k :: k in Docs(db) ==> Docs(db)[k].md5 == k
  {
    hide SceneKeyOf;
    forall k | k in Docs(db) ensures Docs(db)[k].md5 == k { assert DocOk(db, k); }
  }

  lemma WholePage<T>(s: seq<T>)
    ensures Page(s, 0, -1) == s
  {
  }

  lemma PageTimeOrder(s: seq<MetaFile>, offset: int, limit: int, order: int)
    requires TimeOrdered(s, order)
    ensures TimeOrdered(Page(s, offset, limit), order)
  {
  }

  /** Non-negative times of one printed width, as with today's clocks, are sortable. */
  lemma UniformTimesSortable(docs: map<string, MetaFile>, dir: string, width: nat)
    requires forall k :: k in docs && Listed(dir, docs[k]) ==> docs[k].mtime >= 0 && |Dec(docs[k].mtime)| == width
    ensures SortableTimes(docs, dir)
  {
    hide Listed, Dec, InOrder;
    forall j, k | j in docs && k in docs && Listed(dir, docs[j]) && Listed(dir, docs[k]) &&
                  docs[j].mtime < docs[k].mtime
      ensures InOrder(docs[j].mtime, docs[k].mtime)
    {
      EqualWidthInOrder(docs[j].mtime, docs[k].mtime);
    }
  }

  /** Documents of times 9 and 10, saved one after the other, are listed with 10 first. */
  lemma WidthMatters(a: MetaFile, b: MetaFile)
    requires IsId(a.md5) && IsId(b.md5) && a.md5 != b.md5 && a.scene == b.scene && a.mtime == 9 && b.mtime == 10
    ensures ListDir(Run(EMPTY, [SaveOp(a, true), SaveOp(b, true)]).db, a.scene, 0, -1, 1) == [Stored(b), Stored(a)]
  {
    hide Run, ListDir, Docs, SceneKeyOf, IsId, Stored;
    var ops, spec := [SaveOp(a, true), SaveOp(b, true)], [Stored(b), Stored(a)];
    TwoSaves(a, b);
    StoredFields(a);
    StoredFields(b);
    var docs := map[a.md5 := Stored(a)][b.md5 := Stored(b)];
    TenBeforeNine();
    KeysInTimeOrder(Stored(a), Stored(b));
    DifferentKeys(Stored(a), Stored(b));
    Order(SceneKeyOf(Stored(a)), SceneKeyOf(Stored(b)), SceneKeyOf(Stored(a)));
    assert KeyAscending(spec);
    forall m ensures m in spec <==> m.md5 in docs && docs[m.md5] == m && Listed(a.scene, m) {}
    ListDirMeetsSpec(ops, a.scene, 0, -1, 1, spec);
    WholePage(spec);
  }

  lemma TenBeforeNine()
    ensures !InOrder(9, 10)
  {
    assert Dec(10) == Dec(1) + [DigitChar(0)];
    assert |Dec(9)| == 1 && |Dec(10)| == 2;
    assert Cut(10, 1) == Cut(1, 1) == 1;
  }

  lemma DifferentKeys(a: MetaFile, b: MetaFile)
    requires IsId(a.md5) && IsId(b.md5) && a.md5 != b.md5
    ensures SceneKeyOf(a) != SceneKeyOf(b)
  {
    hide SceneKey;
    if SceneKeyOf(a) == SceneKeyOf(b) { SceneKeyInjective(a.scene, a.mtime, a.md5, b.scene, b.mtime, b.md5); }
  }

  /** A directory also lists the documents of scenes that continue its name after a colon. */
  lemma ColonSceneListed(m: MetaFile, dir: string, rest: string)
    requires IsId(m.md5) && m.scene == dir + ":" + rest
    ensures ListDir(Run(EMPTY, [SaveOp(m, true)]).db, dir, 0, -1, 1) == [Stored(m)]
  {
    hide Run, ListDir, Docs, SceneKeyOf, IsId, Stored;
    var ops, spec := [SaveOp(m, true)], [Stored(m)];
    OneSave(m);
    StoredFields(m);
    assert Listed(dir, Stored(m)) by { assert m.scene[..|dir| + 1] == dir + ":"; }
    var docs := map[m.md5 := Stored(m)];
    forall d ensures d in spec <==> d.md5 in docs && docs[d.md5] == d && Listed(dir, d) {}
    assert KeyAscending(spec);
    ListDirMeetsSpec(ops, dir, 0, -1, 1, spec);
    WholePage(spec);
  }

  /** The first n pages of size k, one after the other. */
  ghost function Pages(db: Db, dir: string, k: int, order: int, n: nat): seq<MetaFile> {
    if n == 0 then [] else Pages(db, dir, k, order, n - 1) + ListDir(db, dir, (n - 1) * k, k, order)
  }

  lemma {:induction false} PagesCover(db: Db, dir: string, k: int, order: int, n: nat)
    requires Indexed(db) && k > 0
    ensures Pages(db, dir, k, order, n) == TakeLimit(ListDir(db, dir, 0, -1, order), n * k)
  {
    hide Indexed, ListDir, Resolve, ScanOrder;
    var base := Resolve(db, ScanOrder(db, dir, 1));
    var whole := if order == 1 then base else Reversed(base);
    PageOfScan(db, dir, 0, -1, order);
    assert ListDir(db, dir, 0, -1, order) == whole;
    if n > 0 {
      PagesCover(db, dir, k, order, n - 1);
      PageOfScan(db, dir, (n - 1) * k, k, order);
      NextPage(whole, n - 1, k);
    }
  }

  lemma NextPage<T>(s: seq<T>, n: nat, k: nat)
    requires k > 0
    ensures TakeLimit(s, n * k) + Page(s, n * k, k) == TakeLimit(s, (n + 1) * k)
  {
    var o := n * k;
    assert (n + 1) * k == o + k;
    if o + k <= |s| {
      assert s[..o] + s[o..][..k] == s[..o + k];
    } else if o <= |s| {
      assert s[..o] + s[o..] == s;
    }
  }

  /** For every page size, the pages at offsets 0, k, 2k, ... make up the whole listing without gap or
      overlap. */
  lemma PagesAreTheListing(ops: seq<Op>, dir: string, k: int, order: int, n: nat)
    requires AllWellFormed(ops) && k > 0
    requires n * k >= |ListDir(Run(EMPTY, ops).db, dir, 0, -1, order)|
    ensures Pages(Run(EMPTY, ops).db, dir, k, order, n) == ListDir(Run(EMPTY, ops).db, dir, 0, -1, order)
  {
    hide ListDir, Indexed, Run;
    assert Indexed(EMPTY.db) by { EmptyIndexed(); }
    RunKeepsIndexed(EMPTY, ops);
    PagesCover(Run(EMPTY, ops).db, dir, k, order, n);
  }
}
