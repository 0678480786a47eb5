/**
  The metadata store as the server uses it: an object whose methods update the database and the cached
  statistics in place, each under its lock. Whether a batch write succeeds is the parameter `writeOk`.
 */
module MetadataStores {
  import opened Lex
  import opened Decimal
  import opened OrderedKeys
  import opened Metadata
  import opened MetadataListing
  import opened MetadataShards

  datatype Outcome = Returned(ok: bool) | Threw

  /** Where a listing starts: on the directory's first scene entry, or on its last one. */
  method Position(db: Db, dir: string, order: int) returns (it: Cursor)
    ensures fresh(it) && it.keys == db.Keys && (it.at.Some? ==> it.at.value in db)
    ensures StandsAt(ScanOrder(db, dir, order), 0, it.at)
  {
    hide ScenePrefix;
    var prefix := ScenePrefix(dir);
    ScenePrefixEnd(dir);
    it := new Cursor(db.Keys);
    ghost var run := WithPrefix(db.Keys, prefix);
    PrefixRun(db.Keys, prefix);
    it.Seek(prefix);
    if order == 1 {
      ScanUpStart(run, db.Keys, prefix, it.at);
    } else if it.at.None? {
      it.SeekToLast();
      NothingAbove(db.Keys, prefix, it.at);
    } else {
      var upper := UpperBound(prefix);
      it.Seek(upper);
      ghost var ceiling := it.at;
      if it.at.Some? { it.Prev(); } else { it.SeekToLast(); }
      BelowCeiling(db.Keys, upper, ceiling, it.at);
      ScanDownStart(run, db.Keys, upper, it.at);
    }
  }

  method Advance(db: Db, it: Cursor, dir: string, order: int, ghost j: nat)
    requires it.keys == db.Keys
    requires StandsAt(ScanOrder(db, dir, order), j, it.at) && j < |ScanOrder(db, dir, order)|
    modifies it
    ensures it.at.Some? ==> it.at.value in db
    ensures StandsAt(ScanOrder(db, dir, order), j + 1, it.at)
  {
    hide ScenePrefix;
    ghost var prefix := ScenePrefix(dir);
    ScenePrefixEnd(dir);
    PrefixRun(db.Keys, prefix);
    if order == 1 {
      it.Next();
      ScanUpStep(WithPrefix(db.Keys, prefix), db.Keys, prefix, j, it.at);
    } else {
      it.Prev();
      ScanDownStep(WithPrefix(db.Keys, prefix), db.Keys, UpperBound(prefix), j, it.at);
    }
  }

  class MetadataStore {
    var db: Db
    var stat: Stat

    ghost function State(): Store
      reads this
    {
      Store(db, stat)
    }

    /** Opening a database that already has content: the statistics start from zero. */
    constructor (content: Db)
      ensures State() == Store(content, Stat(0, 0))
    {
      db, stat := content, Stat(0, 0);
    }

    method SaveMeta(meta: MetaFile, writeOk: bool) returns (ok: bool)
      modifies this
      ensures State() == Save(old(State()), meta, writeOk)
      ensures ok <==> meta.md5 in db
    {
      if meta.md5 in db { return true; }
      if writeOk {
        db := db[meta.md5 := Doc(Stored(meta))];
        db := db[PathKey(meta.path) := Raw(meta.md5)];
        db := db[SceneKey(meta.scene, meta.mtime, meta.md5) := Raw(meta.md5)];
        stat := Stat(Wrap(stat.fileCount + 1), Wrap(stat.totalSize + meta.size));
        return true;
      }
      return false;
    }

    method UpdateStatus(md5: string, status: Status, writeOk: bool) returns (r: Outcome)
      modifies this
      ensures State() == Metadata.UpdateStatus(old(State()), md5, status, writeOk)
      ensures r == if md5 !in old(db) then Returned(false) else if old(db)[md5].Raw? then Threw else Returned(writeOk)
    {
      if md5 !in db { return Returned(false); }
      match db[md5]
      case Raw(_) => return Threw;
      case Doc(meta) =>
        if writeOk { db := db[md5 := Doc(meta.(status := status))]; }
        return Returned(writeOk);
    }

    method DeleteMeta(md5: string, writeOk: bool) returns (ok: bool)
      modifies this
      ensures State() == Delete(old(State()), md5, writeOk)
      ensures ok <==> Live(old(db), md5) && writeOk
    {
      if md5 !in db { return false; }
      match db[md5]
      case Raw(_) => return false;
      case Doc(meta) =>
        if !writeOk { return false; }
        db := db - {md5, PathKey(meta.path), SceneKey(meta.scene, meta.mtime, md5)};
        stat := Stat(Wrap(stat.fileCount - 1), Wrap(stat.totalSize - meta.size));
        return true;
    }

    method UpdateMeta(meta: MetaFile, deleteOk: bool, saveOk: bool) returns (ok: bool)
      modifies this
      ensures State() == Metadata.UpdateMeta(old(State()), meta, deleteOk, saveOk)
      ensures ok <==> meta.md5 in db
      ensures ok <==> saveOk || (meta.md5 in old(db) && (old(db)[meta.md5].Raw? || !deleteOk))
    {
      var deleted := DeleteMeta(meta.md5, deleteOk);
      ok := SaveMeta(meta, saveOk);
    }

    method SaveMetaShard(index: nat, file: string, shardMd5: string, writeOk: bool) returns (ok: bool)
      modifies this
      ensures State() == SaveShard(old(State()), index, file, shardMd5, writeOk)
      ensures ok == writeOk
    {
      var value := if shardMd5 != "" then shardMd5 else "1";
      if writeOk { db := db[ShardKey(file, index) := Raw(value)]; }
      return writeOk;
    }

    /** Scans up from the prefix until a key without it. */
    method GetUploadedShard(file: string) returns (indices: seq<nat>)
      ensures indices == UploadedShards(db, file)
    {
      hide StoulU32, ShardPrefix, Sorted;
      indices := [];
      if file == "" { return; }
      var prefix := ShardPrefix(file);
      ShardPrefixEnd(file);
      var it := new Cursor(db.Keys);
      it.Seek(prefix);
      ghost var run := WithPrefix(db.Keys, prefix);
      ghost var path := ShardScan(db, file);
      ghost var j := 0;
      PrefixRun(db.Keys, prefix);
      ScanUpStart(run, db.Keys, prefix, it.at);
      while it.at.Some?
        invariant it.keys == db.Keys
        invariant StandsAt(path, j, it.at)
        invariant it.at.Some? ==> it.at.value in db
        invariant indices == ReadIndices(path[..j], |prefix|)
        decreases |path| - j
      {
        var key := it.at.value;
        if !(prefix <= key) { break; }
        assert key in path;
        assert path[..j + 1][..j] == path[..j];
        match StoulU32(key[|prefix|..]) {
          case Some(i) => indices := indices + [i];
          case None =>
        }
        it.Next();
        ScanUpStep(run, db.Keys, prefix, j, it.at);
        j := j + 1;
      }
      assert j == |path|;
      assert path[..j] == path;
    }

    /** Skips `offset` scene entries, then collects up to `limit` documents, upwards or downwards. */
    method ListDir(dir: string, offset: int, limit: int, order: int) returns (results: seq<MetaFile>)
      ensures results == MetadataListing.ListDir(db, dir, offset, limit, order)
    {
      hide ScenePrefix, ScanOrder, Resolve, ResolveEntry, StandsAt, TakeLimit, Drop;
      results := [];
      if offset < 0 || limit == 0 { return; }
      var data := db;
      var prefix := ScenePrefix(dir);
      var it := Position(data, dir, order);
      var skipped, fetched := 0, 0;
      var stop := false;
      ghost var path := ScanOrder(data, dir, order);
      ghost var j := 0;
      ResolveNone(data);
      assert path[0..0] == [];
      while it.at.Some? && !stop
        invariant it.keys == data.Keys
        invariant j <= |path| && StandsAt(path, j, it.at)
        invariant it.at.Some? ==> it.at.value in data
        invariant skipped == (if j < offset then j else offset)
        invariant results == Resolve(data, path[skipped..j]) && fetched == |results|
        invariant limit > 0 && !stop ==> fetched < limit
        invariant stop ==> fetched == limit > 0 && j >= offset
        decreases |path| - j
      {
        var key := it.at.value;
        OnPath(data, dir, order, j, it.at);
        if !(prefix <= key) { break; }
        if skipped < offset {
          skipped := skipped + 1;
          assert path[skipped..j + 1] == [];
        } else {
          ResolveNext(data, path, skipped, j);
          var found := ResolveEntry(data, key);
          if found.Some? {
            results := results + [found.value];
            fetched := fetched + 1;
          }
          if fetched >= limit && limit > 0 { stop := true; }
        }
        Advance(data, it, dir, order, j);
        j := j + 1;
      }
      if !stop { OnPath(data, dir, order, j, it.at); }
      ListedSoFar(data, path, j, offset, limit, stop);
    }

    /** Recounts the decodable NORMAL documents among all keys of md5 length. */
    method RepairStat()
      modifies this
      ensures State() == old(State()).(stat := Recount(db))
    {
      hide SizeSum, Wrap, Counted, Sorted, CountedIn;
      var data := db;
      var count, size := 0, 0;
      var it := new Cursor(data.Keys);
      it.SeekToFirst();
      ghost var path := Sorted(data.Keys);
      ghost var j := 0;
      WholeRun(data.Keys);
      ScanUpStart(data.Keys, data.Keys, "", it.at);
      NoneCounted(data);
      assert path[..0] == [];
      while it.at.Some?
        invariant it.keys == data.Keys && fresh(it)
        invariant unchanged(this)
        invariant StandsAt(path, j, it.at)
        invariant it.at.Some? ==> it.at.value in data
        invariant count == Wrap(|CountedIn(data, path[..j])|) && size == Wrap(SizeSum(CountedIn(data, path[..j])))
        decreases |path| - j
      {
        var key := it.at.value;
        assert key in path;
        CountOne(data, path, j);
        if IsMd5(key) && data[key].Doc? && data[key].meta.status == NORMAL {
          count := Wrap(count + 1);
          size := Wrap(size + data[key].meta.size);
        }
        it.Next();
        ScanUpStep(data.Keys, data.Keys, "", j, it.at);
        j := j + 1;
      }
      assert path[..j] == path;
      AllCounted(data);
      stat := Stat(count, size);
    }
  }

  lemma ResolveNone(db: Db)
    ensures Resolve(db, []) == []
  {
  }

  lemma ResolveNext(db: Db, path: seq<string>, o: nat, j: nat)
    requires o <= j < |path| && forall i :: 0 <= i < |path| ==> path[i] in db
    ensures Resolve(db, path[o..j + 1]) == Resolve(db, path[o..j]) + OneOf(ResolveEntry(db, path[j]))
  {
    hide ResolveEntry, OneOf;
    ResolveSnoc(db, path[o..j], path[j]);
    assert path[o..j + 1] == path[o..j] + [path[j]];
  }

  lemma ResolveSnoc(db: Db, keys: seq<string>, k: string)
    requires k in db && forall i :: 0 <= i < |keys| ==> keys[i] in db
    ensures Resolve(db, keys + [k]) == Resolve(db, keys) + OneOf(ResolveEntry(db, k))
  {
    hide ResolveEntry, OneOf;
    assert (keys + [k])[..|keys|] == keys;
  }

  lemma ShardPrefixEnd(file: string)
    ensures ShardPrefix(file) != [] && ShardPrefix(file)[|ShardPrefix(file)| - 1] == ':'
  {
  }

  lemma ScenePrefixEnd(dir: string)
    ensures ScenePrefix(dir) != [] && ScenePrefix(dir)[|ScenePrefix(dir)| - 1] == ':'
  {
  }

  /** An iterator position is on the scan exactly when its key has the prefix. */
  lemma OnPath(db: Db, dir: string, order: int, j: nat, at: Option<string>)
    requires StandsAt(ScanOrder(db, dir, order), j, at)
    ensures at.Some? && at.value in db ==> (ScenePrefix(dir) <= at.value <==> j < |ScanOrder(db, dir, order)|)
    ensures at.Some? && at.value in db && ScenePrefix(dir) <= at.value ==> at.value == ScanOrder(db, dir, order)[j]
    ensures at.None? ==> j == |ScanOrder(db, dir, order)|
  {
    hide ScenePrefix;
    var path := ScanOrder(db, dir, order);
    assert forall k :: k in path <==> k in db && ScenePrefix(dir) <= k;
    assert j < |path| ==> path[j] in path;
  }

  // ----- recounting -----

  ghost function CountedIn(db: Db, keys: seq<string>): map<string, MetaFile> {
    map k | k in Counted(db) && k in keys :: Counted(db)[k]
  }

  lemma NoneCounted(db: Db)
    ensures Wrap(|CountedIn(db, [])|) == 0 && Wrap(SizeSum(CountedIn(db, []))) == 0
  {
    assert CountedIn(db, []) == map[];
  }

  lemma AllCounted(db: Db)
    ensures CountedIn(db, Sorted(db.Keys)) == Counted(db)
  {
  }

  lemma CountOne(db: Db, path: seq<string>, j: nat)
    requires Ascending(path) && j < |path| && path[j] in db
    ensures var seen, seen', key := CountedIn(db, path[..j]), CountedIn(db, path[..j + 1]), path[j];
            if IsMd5(key) && db[key].Doc? && db[key].meta.status == NORMAL then
              && Wrap(|seen'|) == Wrap(Wrap(|seen|) + 1)
              && Wrap(SizeSum(seen')) == Wrap(Wrap(SizeSum(seen)) + db[key].meta.size)
            else seen' == seen
  {
    hide SizeSum, Wrap, CountedIn, Counted, Ascending;
    var seen, key := CountedIn(db, path[..j]), path[j];
    FreshKey(path, j);
    assert path[..j + 1] == path[..j] + [key];
    CountedSnoc(db, path[..j], key);
    if IsMd5(key) && db[key].Doc? && db[key].meta.status == NORMAL {
      SizeSumInsert(seen, key, db[key].meta);
      WrapAdd(|seen|, 1);
      WrapAdd(SizeSum(seen), db[key].meta.size);
    }
  }

  lemma CountedSnoc(db: Db, keys: seq<string>, key: string)
    requires key in db && key !in keys
    ensures CountedIn(db, keys + [key]) ==
            if IsMd5(key) && db[key].Doc? && db[key].meta.status == NORMAL
            then CountedIn(db, keys)[key := db[key].meta] else CountedIn(db, keys)
    ensures key !in CountedIn(db, keys)
  {
  }

  lemma FreshKey(path: seq<string>, j: nat)
    requires Ascending(path) && j < |path|
    ensures path[j] !in path[..j]
  {
    Irreflexive(path[j]);
  }

  /** When no key is at or above a prefix, the last key does not have it. */
  lemma NothingAbove(keys: set<string>, prefix: string, at: Option<string>)
    requires prefix != [] && prefix[|prefix| - 1] == ':'
    requires IsCeiling(keys, prefix, None) && IsLast(keys, at)
    ensures StandsAt(Reversed(Sorted(WithPrefix(keys, prefix))), 0, at)
  {
    var run := WithPrefix(keys, prefix);
    PrefixRun(keys, prefix);
    Linear();
    assert run == {};
  }

  lemma ListedSoFar(db: Db, path: seq<string>, j: nat, offset: nat, limit: int, stop: bool)
    requires forall i :: 0 <= i < |path| ==> path[i] in db
    requires j <= |path| && (stop ==> j >= offset)
    requires var r := Resolve(db, path[if j < offset then j else offset..j]);
             if stop then |r| == limit else j == |path| && limit != 0 && (limit > 0 ==> |r| < limit)
    ensures Resolve(db, path[if j < offset then j else offset..j]) ==
            TakeLimit(Resolve(db, Drop(path, offset)), limit)
  {
    var rest := Drop(path, offset);
    if stop {
      assert rest[..j - offset] == path[offset..j];
      ResolvePrefix(db, rest, j - offset);
    } else if offset <= j {
      assert rest == path[offset..j];
    } else {
      assert rest == path[j..j];
    }
  }
}
