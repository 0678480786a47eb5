/**
  What every sequential run of the metadata store keeps: indexes that agree with the documents,
  statistics that drift by a constant, and shard records that are never lost.
 */
module MetadataRuns {
  import opened Decimal
  import opened Metadata

  datatype Op =
    | SaveOp(meta: MetaFile, writeOk: bool)
    | DeleteOp(md5: string, writeOk: bool)
    | UpdateStatusOp(md5: string, status: Status, writeOk: bool)
    | UpdateMetaOp(meta: MetaFile, deleteOk: bool, saveOk: bool)
    | SaveShardOp(index: nat, file: string, shardMd5: string, writeOk: bool)
    | RepairOp
    | ReopenOp

  ghost function Step(s: Store, op: Op): Store {
    match op
    case SaveOp(meta, ok) => Save(s, meta, ok)
    case DeleteOp(md5, ok) => Delete(s, md5, ok)
    case UpdateStatusOp(md5, status, ok) => UpdateStatus(s, md5, status, ok)
    case UpdateMetaOp(meta, deleteOk, saveOk) => UpdateMeta(s, meta, deleteOk, saveOk)
    case SaveShardOp(index, file, shardMd5, ok) => SaveShard(s, index, file, shardMd5, ok)
    case RepairOp => s.(stat := Recount(s.db))
    case ReopenOp => s.(stat := Stat(0, 0))
  }

  ghost function Run(s: Store, ops: seq<Op>): Store
    decreases |ops|
  {
    if ops == [] then s else Run(Step(s, ops[0]), ops[1..])
  }

  /** Saved documents carry a 32-character, colon-free md5 and a shard index is a `uint32_t`; the other
      arguments are arbitrary. */
  predicate WellFormed(op: Op) {
    match op
    case SaveOp(meta, _) => IsId(meta.md5)
    case UpdateMetaOp(meta, _, _) => IsId(meta.md5)
    case SaveShardOp(index, _, _, _) => index < UINT32
    case _ => true
  }

  ghost predicate AllWellFormed(ops: seq<Op>) {
    forall i :: 0 <= i < |ops| ==> WellFormed(ops[i])
  }

  // ----- indexes -----

  ghost predicate SceneEntryOk(db: Db, k: string)
    requires k in db
  {
    db[k].Raw? && Live(db, db[k].text) && k == SceneKeyOf(db[db[k].text].meta)
  }

  ghost predicate PathEntryOk(db: Db, k: string)
    requires k in db
  {
    db[k].Raw? && Live(db, db[k].text) && k == PathKey(db[db[k].text].meta.path)
  }

  ghost predicate DocOk(db: Db, k: string)
    requires Live(db, k)
  {
    && IsId(k) && db[k].meta.md5 == k
    && SceneKeyOf(db[k].meta) in db && db[SceneKeyOf(db[k].meta)] == Raw(k)
  }

  /** Documents are stored under their ids and have their own scene entries; all else has a colon. */
  ghost predicate DocsOk(db: Db) {
    forall k :: k in db ==> if db[k].Doc? then DocOk(db, k) else ':' in k
  }

  /** Every index entry resolves to a live document it describes, and every live document has its
      scene entry. */
  ghost predicate Indexed(db: Db) {
    && DocsOk(db)
    && (forall k :: k in db && IsSceneKey(k) ==> SceneEntryOk(db, k))
    && (forall k :: k in db && IsPathKey(k) ==> PathEntryOk(db, k))
  }

  lemma SaveKeepsIndexed(s: Store, meta: MetaFile)
    requires Indexed(s.db) && IsId(meta.md5) && meta.md5 !in s.db
    ensures Indexed(CommitSave(s, meta, true).db)
  {
    hide SceneKey, PathKey, IsSceneKey, IsPathKey, IsShardKey;
    var db := s.db;
    var db' := CommitSave(s, meta, true).db;
    var sk, pk := SceneKeyOf(meta), PathKey(meta.path);
    KeyKinds(meta.path, meta.scene, meta.mtime, meta.md5, "", 0);
    KeyKind(sk); KeyKind(pk);
    assert db'[meta.md5] == Doc(Stored(meta)) && db'[pk] == Raw(meta.md5) && db'[sk] == Raw(meta.md5);
    assert sk !in db by {
      if sk in db {
        var m := db[db[sk].text].meta;
        SceneKeyInjective(meta.scene, meta.mtime, meta.md5, m.scene, m.mtime, m.md5);
      }
    }
    forall k | k in db && k != pk ensures db'[k] == db[k] {}
    forall k | Live(db', k) ensures DocOk(db', k) {
      if k != meta.md5 {
        KeyKinds("", db[k].meta.scene, db[k].meta.mtime, k, "", 0);
        KeyKind(SceneKeyOf(db[k].meta));
        assert DocOk(db, k);
      }
    }
    forall k | k in db' && IsSceneKey(k) ensures SceneEntryOk(db', k) {
      KeyKind(k);
      if k != sk { assert SceneEntryOk(db, k); }
    }
    forall k | k in db' && IsPathKey(k) ensures PathEntryOk(db', k) {
      KeyKind(k);
      if k != pk { assert PathEntryOk(db, k); }
    }
  }

  lemma DeleteKeepsIndexed(s: Store, md5: string)
    requires Indexed(s.db) && Live(s.db, md5)
    ensures Indexed(Delete(s, md5, true).db)
  {
    hide SceneKey, PathKey, IsSceneKey, IsPathKey, IsShardKey;
    var db, meta := s.db, s.db[md5].meta;
    var db' := Delete(s, md5, true).db;
    var sk, pk := SceneKeyOf(meta), PathKey(meta.path);
    KeyKinds(meta.path, meta.scene, meta.mtime, md5, "", 0);
    KeyKind(sk); KeyKind(pk);
    assert DocOk(db, md5);
    assert db' == db - {md5, pk, sk};
    forall k | Live(db', k) ensures DocOk(db', k) {
      var m := db[k].meta;
      assert DocOk(db, k);
      KeyKinds("", m.scene, m.mtime, k, "", 0);
      KeyKind(SceneKeyOf(m));
      if SceneKeyOf(m) == sk { SceneKeyInjective(m.scene, m.mtime, k, meta.scene, meta.mtime, md5); }
    }
    forall k | k in db' && IsSceneKey(k) ensures SceneEntryOk(db', k) {
      assert SceneEntryOk(db, k);
      KeyKind(k); KeyKind(db[k].text);
    }
    forall k | k in db' && IsPathKey(k) ensures PathEntryOk(db', k) {
      assert PathEntryOk(db, k);
      KeyKind(k); KeyKind(db[k].text);
    }
  }

  lemma UpdateStatusKeepsIndexed(s: Store, md5: string, status: Status)
    requires Indexed(s.db) && Live(s.db, md5)
    ensures Indexed(UpdateStatus(s, md5, status, true).db)
  {
    hide SceneKey, PathKey, IsSceneKey, IsPathKey, IsShardKey;
    var db := s.db;
    var db' := UpdateStatus(s, md5, status, true).db;
    assert DocOk(db, md5);
    forall k | k in db' && IsSceneKey(k) ensures SceneEntryOk(db', k) {
      KeyKind(k);
      assert SceneEntryOk(db, k);
    }
    forall k | k in db' && IsPathKey(k) ensures PathEntryOk(db', k) {
      KeyKind(k);
      assert PathEntryOk(db, k);
    }
    forall k | Live(db', k) ensures DocOk(db', k) {
      assert DocOk(db, k);
      KeyKinds("", db[k].meta.scene, db[k].meta.mtime, k, "", 0);
      KeyKind(SceneKeyOf(db[k].meta));
    }
  }

  lemma SaveShardKeepsIndexed(db: Db, key: string, text: string)
    requires Indexed(db) && IsShardKey(key)
    ensures Indexed(db[key := Raw(text)])
  {
    hide SceneKey, PathKey, IsSceneKey, IsPathKey, IsShardKey;
    var db' := db[key := Raw(text)];
    KeyKind(key);
    forall k | Live(db', k) ensures DocOk(db', k) {
      assert DocOk(db, k);
      KeyKinds("", db[k].meta.scene, db[k].meta.mtime, k, "", 0);
    }
    forall k | k in db' && IsSceneKey(k) ensures SceneEntryOk(db', k) { assert SceneEntryOk(db, k); }
    forall k | k in db' && IsPathKey(k) ensures PathEntryOk(db', k) { assert PathEntryOk(db, k); }
  }

  lemma StepKeepsIndexed(s: Store, op: Op)
    requires Indexed(s.db) && WellFormed(op)
    ensures Indexed(Step(s, op).db)
    decreases op.UpdateMetaOp?
  {
    match op
    case SaveOp(meta, ok) => if ok && meta.md5 !in s.db { SaveKeepsIndexed(s, meta); }
    case DeleteOp(md5, ok) => if Live(s.db, md5) { DeleteKeepsIndexed(s, md5); }
    case UpdateStatusOp(md5, st, ok) => if Live(s.db, md5) { UpdateStatusKeepsIndexed(s, md5, st); }
    case UpdateMetaOp(meta, deleteOk, saveOk) =>
      StepKeepsIndexed(s, DeleteOp(meta.md5, deleteOk));
      StepKeepsIndexed(Delete(s, meta.md5, deleteOk), SaveOp(meta, saveOk));
    case SaveShardOp(index, file, shardMd5, ok) =>
      KeyKinds("", "", 0, "", file, index);
      SaveShardKeepsIndexed(s.db, ShardKey(file, index), if shardMd5 != "" then shardMd5 else "1");
    case _ =>
  }

  /** The main invariant: every sequential run, with any batch writes failing, keeps the indexes. */
  lemma {:induction false} RunKeepsIndexed(s: Store, ops: seq<Op>)
    requires Indexed(s.db) && AllWellFormed(ops)
    ensures Indexed(Run(s, ops).db)
    decreases |ops|
  {
    if ops != [] {
      StepKeepsIndexed(s, ops[0]);
      RunKeepsIndexed(Step(s, ops[0]), ops[1..]);
    }
  }

  /** Spelled out: the scene index is exactly the set of live (scene, mtime, md5) triples, and a path
      entry always leads to a live document of that path, by either key. */
  lemma IndexesAgree(ops: seq<Op>, scene: string, mtime: int, md5: string, path: string)
    requires AllWellFormed(ops) && ':' !in md5
    ensures var db := Run(EMPTY, ops).db;
            && ("SCENE:" + scene + ":" + DecInt(mtime) + ":" + md5 in db <==>
                md5 in Docs(db) && Docs(db)[md5].scene == scene && Docs(db)[md5].mtime == mtime)
            && ("PATH:" + path in db ==>
                exists id :: db["PATH:" + path] == Raw(id) && id in Docs(db) && Docs(db)[id].path == path)
            && ("PATH:" + path in db && |path| != 32 ==>
                GetMeta(db, path).Some? && GetMeta(db, path).value.path == path)
            && (md5 in Docs(db) ==> GetMeta(db, md5) == Some(Docs(db)[md5]))
  {
    RunKeepsIndexed(EMPTY, ops);
    var db := Run(EMPTY, ops).db;
    var k := SceneKey(scene, mtime, md5);
    KeyKinds(path, scene, mtime, md5, "", 0);
    if k in db {
      var m := db[db[k].text].meta;
      SceneKeyInjective(scene, mtime, md5, m.scene, m.mtime, m.md5);
    }
    if PathKey(path) in db {
      PathKeyInjective(path, db[db[PathKey(path)].text].meta.path);
    }
  }

  /** What a lookup finds after every run: under 32 characters exactly the live document of that md5, under
      any other key exactly the live document that the path entry of this key leads to, which then has this
      path. */
  lemma LookupExact(ops: seq<Op>, key: string, m: MetaFile)
    requires AllWellFormed(ops)
    ensures var db := Run(EMPTY, ops).db;
            |key| == 32 ==> (GetMeta(db, key) == Some(m) <==> key in Docs(db) && Docs(db)[key] == m)
    ensures var db := Run(EMPTY, ops).db;
            |key| != 32 ==>
              (GetMeta(db, key) == Some(m) <==>
               "PATH:" + key in db &&
               exists id :: db["PATH:" + key] == Raw(id) && id in Docs(db) && Docs(db)[id] == m && m.path == key)
  {
    hide Run, SceneKey, PathKey;
    var db := Run(EMPTY, ops).db;
    EmptyIndexed();
    RunKeepsIndexed(EMPTY, ops);
    var k := "PATH:" + key;
    PathKeyIs(key);
    if k in db {
      assert PathEntryOk(db, k);
      PathKeyInjective(key, db[db[k].text].meta.path);
    }
  }

  lemma PathKeyIs(path: string)
    ensures PathKey(path) == "PATH:" + path && IsPathKey("PATH:" + path)
  {
  }

  // ----- path index -----

  /** Every live document is found under its own path. */
  ghost predicate PathComplete(db: Db) {
    forall k :: Live(db, k) ==> PathKey(db[k].meta.path) in db && db[PathKey(db[k].meta.path)] == Raw(k)
  }

  /** No other live document has this document's path. */
  ghost predicate PathFree(db: Db, meta: MetaFile) {
    forall k :: Live(db, k) && k != meta.md5 ==> db[k].meta.path != meta.path
  }

  /** A committed save keeps the path index complete exactly when its path is free. */
  lemma SavePathExact(s: Store, meta: MetaFile)
    requires Indexed(s.db) && PathComplete(s.db) && IsId(meta.md5) && meta.md5 !in s.db
    ensures PathComplete(CommitSave(s, meta, true).db) <==> PathFree(s.db, meta)
  {
    hide SceneKey, PathKey, IsSceneKey, IsPathKey, IsShardKey;
    var db := s.db;
    var db' := CommitSave(s, meta, true).db;
    var sk, pk := SceneKeyOf(meta), PathKey(meta.path);
    KeyKinds(meta.path, meta.scene, meta.mtime, meta.md5, "", 0);
    KeyKind(sk); KeyKind(pk);
    assert db'[meta.md5] == Doc(Stored(meta)) && db'[pk] == Raw(meta.md5);
    forall k | Live(db, k) ensures db'[k] == db[k] { assert DocOk(db, k); }
    forall k | Live(db', k) && k != meta.md5
      ensures var q := PathKey(db[k].meta.path);
              q in db' && (db'[q] == Raw(k) <==> db[k].meta.path != meta.path)
    {
      assert Live(db, k);
      var q := PathKey(db[k].meta.path);
      KeyKinds(db[k].meta.path, "", 0, "", "", 0);
      KeyKind(q);
      if q == pk { PathKeyInjective(db[k].meta.path, meta.path); }
    }
  }

  lemma DeleteKeepsPaths(s: Store, md5: string)
    requires Indexed(s.db) && PathComplete(s.db) && Live(s.db, md5)
    ensures PathComplete(Delete(s, md5, true).db)
  {
    hide SceneKey, PathKey, IsSceneKey, IsPathKey, IsShardKey;
    var db, meta := s.db, s.db[md5].meta;
    var db' := Delete(s, md5, true).db;
    var sk := SceneKey(meta.scene, meta.mtime, md5);
    KeyKinds(meta.path, meta.scene, meta.mtime, md5, "", 0);
    KeyKind(sk);
    assert DocOk(db, md5);
    forall k | Live(db', k)
      ensures PathKey(db'[k].meta.path) in db' && db'[PathKey(db'[k].meta.path)] == Raw(k)
    {
      assert Live(db, k) && k != md5 && db'[k] == db[k];
      KeyKinds(db[k].meta.path, "", 0, "", "", 0);
      KeyKind(PathKey(db[k].meta.path));
    }
  }

  /** The operation brings in no path that another live document holds. */
  ghost predicate FreshPath(s: Store, op: Op) {
    match op
    case SaveOp(meta, _) => PathFree(s.db, meta)
    case UpdateMetaOp(meta, _, _) => PathFree(s.db, meta)
    case _ => true
  }

  lemma StepKeepsPaths(s: Store, op: Op)
    requires Indexed(s.db) && PathComplete(s.db) && WellFormed(op) && FreshPath(s, op)
    ensures PathComplete(Step(s, op).db)
    decreases op.UpdateMetaOp?
  {
    hide SceneKey, PathKey, ShardKey;
    match op
    case SaveOp(meta, ok) => if ok && meta.md5 !in s.db { SavePathExact(s, meta); }
    case DeleteOp(md5, ok) => if ok && Live(s.db, md5) { DeleteKeepsPaths(s, md5); }
    case UpdateStatusOp(md5, st, ok) =>
      if ok && Live(s.db, md5) {
        assert DocOk(s.db, md5);
        forall k | Live(s.db, k) ensures PathKey(s.db[k].meta.path) != md5 {
          KeyKinds(s.db[k].meta.path, "", 0, "", "", 0);
          KeyKind(PathKey(s.db[k].meta.path));
        }
      }
    case UpdateMetaOp(meta, deleteOk, saveOk) =>
      StepKeepsIndexed(s, DeleteOp(meta.md5, deleteOk));
      StepKeepsPaths(s, DeleteOp(meta.md5, deleteOk));
      StepKeepsPaths(Delete(s, meta.md5, deleteOk), SaveOp(meta, saveOk));
    case SaveShardOp(index, file, shardMd5, ok) =>
      forall k | Live(s.db, k) ensures PathKey(s.db[k].meta.path) != ShardKey(file, index) {
        KeyKinds(s.db[k].meta.path, "", 0, "", file, index);
        KeyKind(PathKey(s.db[k].meta.path));
      }
    case _ =>
  }

  ghost predicate FreshPaths(s: Store, ops: seq<Op>)
    decreases |ops|
  {
    ops != [] ==> FreshPath(s, ops[0]) && FreshPaths(Step(s, ops[0]), ops[1..])
  }

  /** While paths stay distinct, every live document can be found under its path. */
  lemma {:induction false} RunKeepsPaths(s: Store, ops: seq<Op>)
    requires Indexed(s.db) && PathComplete(s.db) && AllWellFormed(ops) && FreshPaths(s, ops)
    ensures PathComplete(Run(s, ops).db)
    decreases |ops|
  {
    if ops != [] {
      StepKeepsIndexed(s, ops[0]);
      StepKeepsPaths(s, ops[0]);
      RunKeepsPaths(Step(s, ops[0]), ops[1..]);
    }
  }

  // ----- statistics -----

  /** How far the counters are from the live documents, modulo 2^64. */
  datatype Drift = Drift(count: nat, size: nat)

  ghost function DriftOf(s: Store): Drift {
    Drift(Wrap(s.stat.fileCount - |Docs(s.db)|), Wrap(s.stat.totalSize - SizeSum(Docs(s.db))))
  }

  lemma WrapShift(a: int, b: int, d: int)
    ensures Wrap(Wrap(a + d) - (b + d)) == Wrap(a - b)
  {
  }

  lemma SaveDocs(s: Store, meta: MetaFile)
    requires DocsOk(s.db) && IsId(meta.md5)
    ensures Docs(CommitSave(s, meta, true).db) == Docs(s.db)[meta.md5 := Stored(meta)]
  {
    hide SceneKey, PathKey, IsSceneKey, IsPathKey, IsShardKey;
    var sk, pk := SceneKeyOf(meta), PathKey(meta.path);
    KeyKinds(meta.path, meta.scene, meta.mtime, meta.md5, "", 0);
    KeyKind(sk); KeyKind(pk);
    var d1 := s.db[meta.md5 := Doc(Stored(meta))];
    DocsPut(s.db, meta.md5, Doc(Stored(meta)));
    DocsPut(d1, pk, Raw(meta.md5));
    DocsPut(d1[pk := Raw(meta.md5)], sk, Raw(meta.md5));
    forall k | k in Docs(s.db) ensures k != sk && k != pk { assert DocOk(s.db, k); }
  }

  lemma DeleteDocs(s: Store, md5: string)
    requires DocsOk(s.db) && Live(s.db, md5)
    ensures Docs(Delete(s, md5, true).db) == Docs(s.db) - {md5}
  {
    hide SceneKey, PathKey, IsSceneKey, IsPathKey, IsShardKey;
    var meta := s.db[md5].meta;
    var sk, pk := SceneKey(meta.scene, meta.mtime, md5), PathKey(meta.path);
    KeyKinds(meta.path, meta.scene, meta.mtime, md5, "", 0);
    KeyKind(sk); KeyKind(pk);
    DocsRemove(s.db, {md5, pk, sk});
    forall k | k in Docs(s.db) ensures k != sk && k != pk { assert DocOk(s.db, k); }
  }

  lemma SaveKeepsDrift(s: Store, meta: MetaFile)
    requires DocsOk(s.db) && IsId(meta.md5) && meta.md5 !in s.db
    ensures DriftOf(CommitSave(s, meta, true)) == DriftOf(s)
  {
    hide SceneKey, PathKey, Wrap, SizeSum, DocsOk, Docs;
    var docs := Docs(s.db);
    SaveDocs(s, meta);
    assert meta.md5 !in docs by { DocsIn(s.db, meta.md5); }
    SizeSumInsert(docs, meta.md5, Stored(meta));
    WrapShift(s.stat.fileCount, |docs|, 1);
    WrapShift(s.stat.totalSize, SizeSum(docs), meta.size);
  }

  lemma DocsIn(db: Db, k: string)
    ensures k in Docs(db) <==> Live(db, k)
    ensures Live(db, k) ==> Docs(db)[k] == db[k].meta
  {
  }

  lemma DeleteKeepsDrift(s: Store, md5: string)
    requires DocsOk(s.db) && Live(s.db, md5)
    ensures DriftOf(Delete(s, md5, true)) == DriftOf(s)
  {
    hide SceneKey, PathKey, Wrap, SizeSum, DocsOk, Docs;
    var docs := Docs(s.db);
    DeleteDocs(s, md5);
    DocsIn(s.db, md5);
    SizeSumRemove(docs, md5);
    CardinalityRemove(docs, md5);
    WrapShift(s.stat.fileCount, |docs|, -1);
    WrapShift(s.stat.totalSize, SizeSum(docs), -docs[md5].size);
  }

  lemma UpdateStatusKeepsDrift(s: Store, md5: string, status: Status)
    requires Live(s.db, md5)
    ensures DriftOf(UpdateStatus(s, md5, status, true)) == DriftOf(s)
  {
    hide SceneKey, PathKey, Wrap, SizeSum, Docs;
    var docs, m := Docs(s.db), s.db[md5].meta.(status := status);
    DocsIn(s.db, md5);
    DocsPut(s.db, md5, Doc(m));
    SizeSumRemove(docs, md5);
    SizeSumRemove(docs[md5 := m], md5);
    assert docs[md5 := m] - {md5} == docs - {md5};
    CardinalityRemove(docs, md5);
    CardinalityRemove(docs[md5 := m], md5);
  }

  lemma SaveShardKeepsDrift(s: Store, key: string, text: string)
    requires DocsOk(s.db) && IsShardKey(key)
    ensures DriftOf(s.(db := s.db[key := Raw(text)])) == DriftOf(s)
  {
    hide Wrap, SizeSum, Docs;
    KeyKind(key);
    DocsPut(s.db, key, Raw(text));
    DocsIn(s.db, key);
    RemoveAbsent(Docs(s.db), key);
  }

  lemma RemoveAbsent(docs: map<string, MetaFile>, k: string)
    requires k !in docs
    ensures docs - {k} == docs
  {
  }

  lemma StepKeepsDrift(s: Store, op: Op)
    requires Indexed(s.db) && WellFormed(op) && !op.RepairOp? && !op.ReopenOp?
    ensures DriftOf(Step(s, op)) == DriftOf(s)
    decreases op.UpdateMetaOp?
  {
    hide SceneKey, PathKey, ShardKey, DriftOf, DocsOk;
    match op
    case SaveOp(meta, ok) => if ok && meta.md5 !in s.db { SaveKeepsDrift(s, meta); }
    case DeleteOp(md5, ok) => if ok && Live(s.db, md5) { DeleteKeepsDrift(s, md5); }
    case UpdateStatusOp(md5, st, ok) => if ok && Live(s.db, md5) { UpdateStatusKeepsDrift(s, md5, st); }
    case UpdateMetaOp(meta, deleteOk, saveOk) =>
      StepKeepsIndexed(s, DeleteOp(meta.md5, deleteOk));
      StepKeepsDrift(s, DeleteOp(meta.md5, deleteOk));
      StepKeepsDrift(Delete(s, meta.md5, deleteOk), SaveOp(meta, saveOk));
    case SaveShardOp(index, file, shardMd5, ok) =>
      KeyKinds("", "", 0, "", file, index);
      SaveShardKeepsDrift(s, ShardKey(file, index), if shardMd5 != "" then shardMd5 else "1");
  }

  // ----- refinement -----

  /** What an operation means for a plain map of documents by md5. */
  function StepDocs(docs: map<string, MetaFile>, op: Op): map<string, MetaFile> {
    match op
    case SaveOp(meta, ok) => if !ok || meta.md5 in docs then docs else docs[meta.md5 := Stored(meta)]
    case DeleteOp(md5, ok) => if ok then docs - {md5} else docs
    case UpdateStatusOp(md5, status, ok) =>
      if ok && md5 in docs then docs[md5 := docs[md5].(status := status)] else docs
    case UpdateMetaOp(meta, deleteOk, saveOk) =>
      var rest := if deleteOk then docs - {meta.md5} else docs;
      if !saveOk || meta.md5 in rest then rest else rest[meta.md5 := Stored(meta)]
    case _ => docs
  }

  function RunDocs(docs: map<string, MetaFile>, ops: seq<Op>): map<string, MetaFile>
    decreases |ops|
  {
    if ops == [] then docs else RunDocs(StepDocs(docs, ops[0]), ops[1..])
  }

  lemma SaveRefines(s: Store, meta: MetaFile, ok: bool)
    requires DocsOk(s.db) && IsId(meta.md5)
    ensures Docs(Save(s, meta, ok).db) ==
            if !ok || meta.md5 in Docs(s.db) then Docs(s.db) else Docs(s.db)[meta.md5 := Stored(meta)]
  {
    hide SceneKey, PathKey, Docs;
    DocsIn(s.db, meta.md5);
    if ok && meta.md5 !in s.db { SaveDocs(s, meta); }
  }

  lemma DeleteRefines(s: Store, md5: string, ok: bool)
    requires DocsOk(s.db)
    ensures Docs(Delete(s, md5, ok).db) == if ok then Docs(s.db) - {md5} else Docs(s.db)
  {
    hide SceneKey, PathKey, Docs, DocsOk;
    DocsIn(s.db, md5);
    if ok {
      if Live(s.db, md5) { DeleteDocs(s, md5); } else { RemoveAbsent(Docs(s.db), md5); }
    }
  }

  lemma StepRefines(s: Store, op: Op)
    requires Indexed(s.db) && WellFormed(op)
    ensures Docs(Step(s, op).db) == StepDocs(Docs(s.db), op)
  {
    hide SceneKey, PathKey, ShardKey, Docs, DocsOk, Save, Delete;
    match op
    case SaveOp(meta, ok) => SaveRefines(s, meta, ok);
    case DeleteOp(md5, ok) => DeleteRefines(s, md5, ok);
    case UpdateStatusOp(md5, st, ok) =>
      DocsIn(s.db, md5);
      if ok && Live(s.db, md5) { DocsPut(s.db, md5, Doc(s.db[md5].meta.(status := st))); }
    case UpdateMetaOp(meta, deleteOk, saveOk) =>
      StepKeepsIndexed(s, DeleteOp(meta.md5, deleteOk));
      DeleteRefines(s, meta.md5, deleteOk);
      SaveRefines(Delete(s, meta.md5, deleteOk), meta, saveOk);
    case SaveShardOp(index, file, shardMd5, ok) =>
      var k := ShardKey(file, index);
      DocsPut(s.db, k, Raw(if shardMd5 != "" then shardMd5 else "1"));
      ShardKeyIsNoDoc(s.db, file, index);
      RemoveAbsent(Docs(s.db), k);
    case _ =>
  }

  lemma ShardKeyIsNoDoc(db: Db, file: string, index: nat)
    requires DocsOk(db)
    ensures ShardKey(file, index) !in Docs(db)
  {
    hide SceneKey, ShardKey;
    KeyKinds("", "", 0, "", file, index);
    KeyKind(ShardKey(file, index));
    DocsIn(db, ShardKey(file, index));
  }

  /** The store with all its indexes refines a plain map: every run leaves exactly the documents that the
      operations leave in the map. */
  lemma {:induction false} RunRefines(s: Store, ops: seq<Op>)
    requires Indexed(s.db) && AllWellFormed(ops)
    ensures Docs(Run(s, ops).db) == RunDocs(Docs(s.db), ops)
    decreases |ops|
  {
    hide Step, StepDocs, Docs, Indexed;
    if ops != [] {
      StepKeepsIndexed(s, ops[0]);
      StepRefines(s, ops[0]);
      RunRefines(Step(s, ops[0]), ops[1..]);
    }
  }

  ghost predicate NoRecount(ops: seq<Op>) {
    forall i :: 0 <= i < |ops| ==> !ops[i].RepairOp? && !ops[i].ReopenOp?
  }

  /** Between two recounts the drift never changes, whatever is saved, deleted or updated. */
  lemma {:induction false} RunKeepsDrift(s: Store, ops: seq<Op>)
    requires Indexed(s.db) && AllWellFormed(ops) && NoRecount(ops)
    ensures DriftOf(Run(s, ops)) == DriftOf(s)
    decreases |ops|
  {
    if ops != [] {
      StepKeepsIndexed(s, ops[0]);
      StepKeepsDrift(s, ops[0]);
      RunKeepsDrift(Step(s, ops[0]), ops[1..]);
    }
  }

  /** The live documents a rescan leaves out. */
  ghost function Uncounted(db: Db): map<string, MetaFile> {
    map k | k in Docs(db) && Docs(db)[k].status != NORMAL :: Docs(db)[k]
  }

  lemma {:induction false} SizeSumSplit(a: map<string, MetaFile>, b: map<string, MetaFile>)
    requires a.Keys !! b.Keys
    ensures SizeSum(a + b) == SizeSum(a) + SizeSum(b)
    decreases |a|
  {
    if a == map[] {
      assert a + b == b;
    } else {
      hide SizeSum;
      var k :| k in a;
      CardinalityRemove(a, k);
      SizeSumSplit(a - {k}, b);
      SizeSumRemove(a, k);
      UnionRemove(a, b, k);
      SizeSumRemove(a + b, k);
    }
  }

  lemma UnionRemove(a: map<string, MetaFile>, b: map<string, MetaFile>, k: string)
    requires a.Keys !! b.Keys && k in a
    ensures (a + b) - {k} == (a - {k}) + b
    ensures (a + b)[k] == a[k]
  {
  }

  lemma CardinalitySplit(a: map<string, MetaFile>, b: map<string, MetaFile>)
    requires a.Keys !! b.Keys
    ensures |a + b| == |a| + |b|
  {
    assert (a + b).Keys == a.Keys + b.Keys;
    assert |a.Keys + b.Keys| == |a.Keys| + |b.Keys|;
  }

  lemma CountedSplit(db: Db)
    requires Indexed(db)
    ensures |Docs(db)| == |Counted(db)| + |Uncounted(db)|
    ensures SizeSum(Docs(db)) == SizeSum(Counted(db)) + SizeSum(Uncounted(db))
  {
    hide SceneKey, PathKey, SizeSum;
    forall k | k in Docs(db) ensures IsMd5(k) { assert DocOk(db, k); }
    assert Counted(db) + Uncounted(db) == Docs(db);
    SizeSumSplit(Counted(db), Uncounted(db));
    CardinalitySplit(Counted(db), Uncounted(db));
  }

  /** A rescan sets the drift to minus the documents whose status is not NORMAL; reopening sets it to
      minus all documents present. */
  lemma DriftAfterRecount(s: Store)
    requires Indexed(s.db)
    ensures DriftOf(Step(s, RepairOp)) == Drift(Wrap(-|Uncounted(s.db)|), Wrap(-SizeSum(Uncounted(s.db))))
    ensures DriftOf(Step(s, ReopenOp)) == Drift(Wrap(-|Docs(s.db)|), Wrap(-SizeSum(Docs(s.db))))
  {
    hide Wrap, SizeSum, Docs, Counted, Uncounted, Indexed;
    var counted, left := Counted(s.db), Uncounted(s.db);
    CountedSplit(s.db);
    WrapShift(0, |left|, |counted|);
    WrapShift(0, SizeSum(left), SizeSum(counted));
  }

  ghost predicate InRange(stat: Stat) {
    stat.fileCount < UINT64 && stat.totalSize < UINT64
  }

  lemma {:induction false} RunInRange(s: Store, ops: seq<Op>)
    requires InRange(s.stat)
    ensures InRange(Run(s, ops).stat)
    decreases |ops|
  {
    if ops != [] {
      hide SceneKey, PathKey, ShardKey;
      RunInRange(Step(s, ops[0]), ops[1..]);
    }
  }

  lemma ZeroDrift(db: Db, stat: Stat)
    requires Indexed(db) && InRange(stat) && DriftOf(Store(db, stat)) == Drift(0, 0)
    ensures stat == Stat(Wrap(|Docs(db)|), Wrap(SizeSum(Docs(db))))
    ensures Recount(db) == stat <==> Wrap(|Uncounted(db)|) == 0 && Wrap(SizeSum(Uncounted(db))) == 0
    ensures (forall k :: k in Docs(db) ==> Docs(db)[k].status == NORMAL) ==> Recount(db) == stat
  {
    hide Wrap, SizeSum, Docs, Counted, Uncounted, Indexed;
    WrapUnique(stat.fileCount, |Docs(db)|);
    WrapUnique(stat.totalSize, SizeSum(Docs(db)));
    CountedSplit(db);
    WrapCancel(|Counted(db)|, |Uncounted(db)|);
    WrapCancel(SizeSum(Counted(db)), SizeSum(Uncounted(db)));
    if forall k :: k in Docs(db) ==> Docs(db)[k].status == NORMAL { AllNormal(db); }
  }

  /** From an empty store, the incremental counters are what a full rescan would compute exactly when
      the documents that are not NORMAL number and weigh nothing, modulo 2^64. */
  lemma CachedStatExact(ops: seq<Op>)
    requires AllWellFormed(ops) && NoRecount(ops)
    ensures var Store(db, stat) := Run(EMPTY, ops);
            && stat == Stat(Wrap(|Docs(db)|), Wrap(SizeSum(Docs(db))))
            && (Recount(db) == stat <==> Wrap(|Uncounted(db)|) == 0 && Wrap(SizeSum(Uncounted(db))) == 0)
            && ((forall k :: k in Docs(db) ==> Docs(db)[k].status == NORMAL) ==> Recount(db) == stat)
  {
    hide Wrap, SizeSum, Docs, Counted, Uncounted, Indexed, Run, Recount, DriftOf;
    var s := Run(EMPTY, ops);
    assert Indexed(EMPTY.db) by { EmptyIndexed(); }
    RunKeepsIndexed(EMPTY, ops);
    RunKeepsDrift(EMPTY, ops);
    RunInRange(EMPTY, ops);
    EmptyDrift();
    ZeroDrift(s.db, s.stat);
  }

  lemma EmptyIndexed()
    ensures Indexed(EMPTY.db)
  {
  }

  lemma EmptyDrift()
    ensures DriftOf(EMPTY) == Drift(0, 0)
  {
    assert Docs(EMPTY.db) == map[];
  }

  lemma AllNormal(db: Db)
    requires forall k :: k in Docs(db) ==> Docs(db)[k].status == NORMAL
    ensures Wrap(|Uncounted(db)|) == 0 && Wrap(SizeSum(Uncounted(db))) == 0
  {
    assert Uncounted(db) == map[];
  }

  lemma WrapUnique(a: int, b: int)
    requires 0 <= a < UINT64 && Wrap(a - b) == 0
    ensures a == Wrap(b)
  {
  }

  lemma WrapCancel(a: int, b: int)
    ensures Wrap(a) == Wrap(a + b) <==> Wrap(b) == 0
  {
  }

  // ----- shard records -----

  /** The shard records a run wrote. */
  ghost function SavedShards(ops: seq<Op>): set<(string, nat)> {
    if ops == [] then {}
    else SavedShards(ops[..|ops| - 1]) +
         (match ops[|ops| - 1]
          case SaveShardOp(index, file, _, true) => {(file, index)}
          case _ => {})
  }

  /** The hash of the shard, or a mark when there is none. */
  function ShardText(shardMd5: string): string {
    if shardMd5 == "" then "1" else shardMd5
  }

  /** What the run last saved under a shard key. */
  ghost function LastSaved(ops: seq<Op>, k: string): Option<string> {
    if ops == [] then None
    else match ops[|ops| - 1]
      case SaveShardOp(index, file, shardMd5, true) =>
        if k == ShardKey(file, index) then Some(ShardText(shardMd5)) else LastSaved(ops[..|ops| - 1], k)
      case _ => LastSaved(ops[..|ops| - 1], k)
  }

  /** A shard record holds what was saved last. */
  lemma {:induction false} ShardValues(ops: seq<Op>, k: string)
    requires AllWellFormed(ops) && IsShardKey(k)
    ensures (if k in Run(EMPTY, ops).db then Some(Run(EMPTY, ops).db[k]) else None) ==
            (match LastSaved(ops, k) case None => None case Some(v) => Some(Raw(v)))
    decreases |ops|
  {
    if ops != [] {
      hide SceneKey, PathKey, ShardKey, IsSceneKey, IsPathKey, IsShardKey, Step;
      var init, op := ops[..|ops| - 1], ops[|ops| - 1];
      RunSnoc(EMPTY, ops);
      EmptyIndexed();
      RunKeepsIndexed(EMPTY, init);
      StepShards(Run(EMPTY, init), op, k);
      ShardValues(init, k);
    }
  }

  lemma StepShards(s: Store, op: Op, k: string)
    requires Indexed(s.db) && WellFormed(op) && IsShardKey(k)
    ensures k in Step(s, op).db <==>
            k in s.db || (op.SaveShardOp? && op.writeOk && k == ShardKey(op.file, op.index))
    ensures k in Step(s, op).db ==>
              Step(s, op).db[k] == if op.SaveShardOp? && op.writeOk && k == ShardKey(op.file, op.index)
                                   then Raw(ShardText(op.shardMd5)) else s.db[k]
    decreases op.UpdateMetaOp?
  {
    hide SceneKey, PathKey, ShardKey, IsSceneKey, IsPathKey, IsShardKey;
    KeyKind(k);
    match op
    case SaveOp(meta, ok) =>
      KeyKinds(meta.path, meta.scene, meta.mtime, meta.md5, "", 0);
    case DeleteOp(md5, ok) =>
      if Live(s.db, md5) {
        assert DocOk(s.db, md5);
        KeyKinds(s.db[md5].meta.path, s.db[md5].meta.scene, s.db[md5].meta.mtime, md5, "", 0);
      }
    case UpdateMetaOp(meta, deleteOk, saveOk) =>
      StepKeepsIndexed(s, DeleteOp(meta.md5, deleteOk));
      StepShards(s, DeleteOp(meta.md5, deleteOk), k);
      StepShards(Delete(s, meta.md5, deleteOk), SaveOp(meta, saveOk), k);
    case _ =>
  }

  lemma {:induction false} RunSnoc(s: Store, ops: seq<Op>)
    requires ops != []
    ensures Run(s, ops) == Step(Run(s, ops[..|ops| - 1]), ops[|ops| - 1])
    decreases |ops|
  {
    if |ops| > 1 {
      RunSnoc(Step(s, ops[0]), ops[1..]);
      assert ops[..|ops| - 1][1..] == ops[1..][..|ops| - 2];
    }
  }

  /** No operation other than saving a shard creates or destroys a shard record. */
  lemma {:induction false} ShardsKept(ops: seq<Op>, k: string)
    requires AllWellFormed(ops) && IsShardKey(k)
    ensures k in Run(EMPTY, ops).db <==> exists r :: r in SavedShards(ops) && k == ShardKey(r.0, r.1)
    decreases |ops|
  {
    if ops != [] {
      hide SceneKey, PathKey, ShardKey, IsSceneKey, IsPathKey, IsShardKey;
      var init, op := ops[..|ops| - 1], ops[|ops| - 1];
      RunSnoc(EMPTY, ops);
      RunKeepsIndexed(EMPTY, init);
      StepShards(Run(EMPTY, init), op, k);
      ShardsKept(init, k);
      forall r ensures r in SavedShards(ops) <==>
        r in SavedShards(init) || (op.SaveShardOp? && op.writeOk && r == (op.file, op.index)) {}
      if op.SaveShardOp? && op.writeOk { assert (op.file, op.index) in SavedShards(ops); }
    }
  }

  // ----- short runs -----

  /** A stored document reads back with every field as it was saved, except that its shards lose their
      paths. */
  lemma StoredFields(m: MetaFile)
    ensures var r := Stored(m);
            && r.(shards := m.shards) == m && |r.shards| == |m.shards|
            && (forall i :: 0 <= i < |m.shards| ==> r.shards[i].(path := m.shards[i].path) == m.shards[i])
            && (r == m <==> forall i :: 0 <= i < |m.shards| ==> m.shards[i].path == "")
  {
    var r := Stored(m);
    if forall i :: 0 <= i < |m.shards| ==> m.shards[i].path == "" {
      assert r.shards == m.shards;
    }
    if r == m {
      forall i | 0 <= i < |m.shards| ensures m.shards[i].path == "" { assert r.shards[i].path == ""; }
    }
  }

  lemma OneSave(m: MetaFile)
    requires IsId(m.md5)
    ensures Run(EMPTY, [SaveOp(m, true)]) == CommitSave(EMPTY, m, true)
    ensures Docs(Run(EMPTY, [SaveOp(m, true)]).db) == map[m.md5 := Stored(m)]
    ensures Indexed(Run(EMPTY, [SaveOp(m, true)]).db) && PathComplete(Run(EMPTY, [SaveOp(m, true)]).db)
  {
    hide CommitSave, Indexed, Docs, IsId, PathComplete, Stored;
    assert [SaveOp(m, true)][1..] == [];
    assert Run(EMPTY, [SaveOp(m, true)]) == CommitSave(EMPTY, m, true);
    EmptyIndexed();
    EmptyPaths(m);
    SaveDocs(EMPTY, m);
    SaveKeepsIndexed(EMPTY, m);
    SavePathExact(EMPTY, m);
  }

  lemma EmptyPaths(m: MetaFile)
    ensures PathComplete(EMPTY.db) && PathFree(EMPTY.db, m) && DocsOk(EMPTY.db) && Docs(EMPTY.db) == map[]
  {
  }

  lemma TwoSaves(a: MetaFile, b: MetaFile)
    requires IsId(a.md5) && IsId(b.md5) && a.md5 != b.md5
    ensures Run(EMPTY, [SaveOp(a, true), SaveOp(b, true)]) == CommitSave(CommitSave(EMPTY, a, true), b, true)
    ensures Docs(Run(EMPTY, [SaveOp(a, true), SaveOp(b, true)]).db) == map[a.md5 := Stored(a)][b.md5 := Stored(b)]
    ensures Indexed(Run(EMPTY, [SaveOp(a, true), SaveOp(b, true)]).db)
  {
    hide CommitSave, Indexed, Docs, PathComplete, Stored;
    var s1 := CommitSave(EMPTY, a, true);
    OneSave(a);
    assert b.md5 !in s1.db by { NotSaved(a, b.md5); }
    var ops := [SaveOp(a, true), SaveOp(b, true)];
    assert ops[1..] == [SaveOp(b, true)] && ops[1..][1..] == [];
    assert Run(EMPTY, ops) == Run(s1, ops[1..]) == Run(CommitSave(s1, b, true), []);
    assert DocsOk(s1.db) by { IndexedHasDocs(s1.db); }
    SaveDocs(s1, b);
    SaveKeepsIndexed(s1, b);
  }

  lemma IndexedHasDocs(db: Db)
    requires Indexed(db)
    ensures DocsOk(db)
  {
  }

  lemma NotSaved(m: MetaFile, k: string)
    requires IsId(k) && k != m.md5
    ensures k !in CommitSave(EMPTY, m, true).db
  {
    hide PathKey, SceneKey;
    KeyKinds(m.path, m.scene, m.mtime, m.md5, "", 0);
    KeyKind(PathKey(m.path));
    KeyKind(SceneKeyOf(m));
  }

  /** A later document with the same path takes over the path entry; when it is deleted, the earlier one is
      still there and no longer found by its path. */
  lemma PathTakenOver(a: MetaFile, b: MetaFile)
    requires IsId(a.md5) && IsId(b.md5) && a.md5 != b.md5 && a.path == b.path && |a.path| != 32
    ensures var s := Run(EMPTY, [SaveOp(a, true), SaveOp(b, true)]);
            var t := Delete(s, b.md5, true);
            && a.md5 in Docs(s.db) && GetMeta(s.db, a.path) == Some(Stored(b))
            && a.md5 in Docs(t.db) && GetMeta(t.db, a.path) == None
  {
    hide CommitSave, Indexed, Docs, PathComplete, Stored, PathKey, SceneKey, Run;
    TwoSaves(a, b);
    var s := Run(EMPTY, [SaveOp(a, true), SaveOp(b, true)]);
    assert DocsOk(s.db) by { IndexedHasDocs(s.db); }
    assert Live(s.db, b.md5) && s.db[b.md5].meta == Stored(b) by { InDocs(s.db, b.md5); }
    PathEntryOfLast(CommitSave(EMPTY, a, true), b);
    DeleteDocs(s, b.md5);
    StoredFields(b);
  }

  lemma InDocs(db: Db, k: string)
    requires k in Docs(db)
    ensures Live(db, k) && db[k].meta == Docs(db)[k]
  {
  }

  lemma PathEntryOfLast(s: Store, m: MetaFile)
    ensures PathKey(m.path) in CommitSave(s, m, true).db
    ensures CommitSave(s, m, true).db[PathKey(m.path)] == Raw(m.md5)
  {
    hide PathKey, SceneKey;
    KeyKinds(m.path, m.scene, m.mtime, m.md5, "", 0);
    KeyKind(PathKey(m.path));
    KeyKind(SceneKeyOf(m));
  }
}
