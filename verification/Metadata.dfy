/**
  The metadata store's data and the meaning of its operations: one key space that holds a document
  per md5 together with a path index, a scene index and shard records, plus cached statistics.
 */
module Metadata {
  import opened Lex
  import opened Decimal

  datatype Status = NORMAL | DELETED | CORRUPTED | SYNCING | LOCKED

  datatype FileShard = FileShard(index: nat, shardId: string, size: nat, md5: string, path: string)

  datatype MetaFile = MetaFile(
    md5: string, path: string, name: string, domain: string, scene: string, src: string,
    size: int, mtime: int, status: Status,
    isSharded: bool, shardStdSize: nat, shardCount: nat, shards: seq<FileShard>,
    uploadedCount: int, uploadedChunks: seq<nat>, peers: seq<string>)

  /** A stored value: the JSON text of a document, or other text, which fails to decode. */
  datatype Value = Doc(meta: MetaFile) | Raw(text: string)

  type Db = map<string, Value>

  /** Both counters are 64-bit and wrap. */
  datatype Stat = Stat(fileCount: nat, totalSize: nat)

  datatype Store = Store(db: Db, stat: Stat)

  const EMPTY := Store(map[], Stat(0, 0))

  function Wrap(n: int): (w: nat)
    ensures w < UINT64
  {
    n % UINT64
  }

  lemma WrapAdd(a: int, b: int)
    ensures Wrap(Wrap(a) + b) == Wrap(a + b)
  {
  }

  /** What serializing and deserializing keeps: everything except the shards' paths. */
  function Stored(m: MetaFile): MetaFile {
    m.(shards := seq(|m.shards|, i requires 0 <= i < |m.shards| => m.shards[i].(path := "")))
  }

  // ----- keys -----

  predicate IsMd5(key: string) {
    |key| == 32
  }

  function PathKey(path: string): string {
    "PATH:" + path
  }

  function ScenePrefix(dir: string): string {
    "SCENE:" + dir + ":"
  }

  function SceneKey(scene: string, mtime: int, md5: string): string {
    "SCENE:" + scene + ":" + DecInt(mtime) + ":" + md5
  }

  function SceneKeyOf(m: MetaFile): string {
    SceneKey(m.scene, m.mtime, m.md5)
  }

  function ShardPrefix(file: string): string {
    "Shard:" + file + ":"
  }

  function ShardKey(file: string, index: nat): string {
    "Shard:" + file + ":" + Dec(index)
  }

  predicate IsPathKey(k: string) {
    "PATH:" <= k
  }

  predicate IsSceneKey(k: string) {
    "SCENE:" <= k
  }

  predicate IsShardKey(k: string) {
    "Shard:" <= k
  }

  // ----- operations -----

  function GetMeta(db: Db, key: string): Option<MetaFile> {
    if IsMd5(key) then Lookup(db, key)
    else if PathKey(key) in db && db[PathKey(key)].Raw? then Lookup(db, db[PathKey(key)].text)
    else None
  }

  predicate Live(db: Db, key: string) {
    key in db && db[key].Doc?
  }

  function Lookup(db: Db, key: string): Option<MetaFile> {
    if Live(db, key) then Some(db[key].meta) else None
  }

  /** The part of saving that runs under the lock: one atomic batch, then the counters. */
  function CommitSave(s: Store, meta: MetaFile, writeOk: bool): Store {
    if !writeOk then s else
      Store(s.db[meta.md5 := Doc(Stored(meta))][PathKey(meta.path) := Raw(meta.md5)][SceneKeyOf(meta) := Raw(meta.md5)],
            Stat(Wrap(s.stat.fileCount + 1), Wrap(s.stat.totalSize + meta.size)))
  }

  /** The duplicate check runs first, without the lock. */
  function Save(s: Store, meta: MetaFile, writeOk: bool): Store {
    if meta.md5 in s.db then s else CommitSave(s, meta, writeOk)
  }

  function Delete(s: Store, md5: string, writeOk: bool): Store {
    if md5 !in s.db || s.db[md5].Raw? || !writeOk then s else
      var meta := s.db[md5].meta;
      Store(s.db - {md5, PathKey(meta.path), SceneKey(meta.scene, meta.mtime, md5)},
            Stat(Wrap(s.stat.fileCount - 1), Wrap(s.stat.totalSize - meta.size)))
  }

  /** On undecodable text the decoder throws before anything is written. */
  function UpdateStatus(s: Store, md5: string, status: Status, writeOk: bool): Store {
    if md5 !in s.db || s.db[md5].Raw? || !writeOk then s else
      s.(db := s.db[md5 := Doc(s.db[md5].meta.(status := status))])
  }

  function UpdateMeta(s: Store, meta: MetaFile, deleteOk: bool, saveOk: bool): Store {
    Save(Delete(s, meta.md5, deleteOk), meta, saveOk)
  }

  function SaveShard(s: Store, index: nat, file: string, shardMd5: string, writeOk: bool): Store {
    if !writeOk then s else
      s.(db := s.db[ShardKey(file, index) := Raw(if shardMd5 != "" then shardMd5 else "1")])
  }

  // ----- the abstract content -----

  /** The live documents, by md5. */
  function Docs(db: Db): map<string, MetaFile> {
    map k | k in db && db[k].Doc? :: db[k].meta
  }

  lemma DocsPut(db: Db, k: string, v: Value)
    ensures Docs(db[k := v]) == if v.Doc? then Docs(db)[k := v.meta] else Docs(db) - {k}
  {
  }

  lemma DocsRemove(db: Db, ks: set<string>)
    ensures Docs(db - ks) == Docs(db) - ks
  {
  }

  ghost function SizeSum(docs: map<string, MetaFile>): int {
    if docs == map[] then 0 else
      var k :| k in docs;
      docs[k].size + SizeSum(docs - {k})
  }

  lemma {:induction false} SizeSumRemove(docs: map<string, MetaFile>, k: string)
    requires k in docs
    ensures SizeSum(docs) == docs[k].size + SizeSum(docs - {k})
    decreases |docs|
  {
    var c :| c in docs && SizeSum(docs) == docs[c].size + SizeSum(docs - {c});
    if c != k {
      assert |docs - {c}| < |docs| by { CardinalityRemove(docs, c); }
      assert |docs - {k}| < |docs| by { CardinalityRemove(docs, k); }
      SizeSumRemove(docs - {c}, k);
      SizeSumRemove(docs - {k}, c);
      assert docs - {c} - {k} == docs - {k} - {c};
    }
  }

  lemma CardinalityRemove<T>(docs: map<string, T>, k: string)
    requires k in docs
    ensures |docs - {k}| == |docs| - 1
  {
    assert (docs - {k}).Keys == docs.Keys - {k};
    assert |docs.Keys - {k}| == |docs.Keys| - 1;
  }

  lemma SizeSumInsert(docs: map<string, MetaFile>, k: string, m: MetaFile)
    requires k !in docs
    ensures SizeSum(docs[k := m]) == SizeSum(docs) + m.size
    ensures |docs[k := m]| == |docs| + 1
  {
    assert docs[k := m] - {k} == docs;
    SizeSumRemove(docs[k := m], k);
    CardinalityRemove(docs[k := m], k);
  }

  /** The documents a full rescan counts: decodable, under a key of md5 length, status NORMAL. */
  function Counted(db: Db): map<string, MetaFile> {
    map k | k in db && IsMd5(k) && db[k].Doc? && db[k].meta.status == NORMAL :: db[k].meta
  }

  ghost function Recount(db: Db): Stat {
    Stat(Wrap(|Counted(db)|), Wrap(SizeSum(Counted(db))))
  }

  // ----- key shapes -----

  /** The md5s the upload path produces: 32 characters, no colon. */
  predicate IsId(md5: string) {
    |md5| == 32 && ':' !in md5
  }

  /** A scene key is read from the right, so scenes may contain colons. */
  lemma SceneKeyInjective(s1: string, t1: int, m1: string, s2: string, t2: int, m2: string)
    requires SceneKey(s1, t1, m1) == SceneKey(s2, t2, m2)
    requires ':' !in m1 && ':' !in m2
    ensures s1 == s2 && t1 == t2 && m1 == m2
  {
    LastSeparator(':', "SCENE:" + s1 + ":" + DecInt(t1), m1, "SCENE:" + s2 + ":" + DecInt(t2), m2);
    DecIntColonFree(t1);
    DecIntColonFree(t2);
    LastSeparator(':', "SCENE:" + s1, DecInt(t1), "SCENE:" + s2, DecInt(t2));
    DecIntInjective(t1, t2);
    assert ("SCENE:" + s1)[6..] == s1 && ("SCENE:" + s2)[6..] == s2;
  }

  lemma ShardKeyInjective(f1: string, i1: nat, f2: string, i2: nat)
    requires ShardKey(f1, i1) == ShardKey(f2, i2)
    ensures f1 == f2 && i1 == i2
  {
    DecIntColonFree(i1);
    DecIntColonFree(i2);
    LastSeparator(':', "Shard:" + f1, Dec(i1), "Shard:" + f2, Dec(i2));
    DecInjective(i1, i2);
    assert ("Shard:" + f1)[6..] == f1 && ("Shard:" + f2)[6..] == f2;
  }

  lemma PathKeyInjective(p: string, q: string)
    requires PathKey(p) == PathKey(q)
    ensures p == q
  {
    assert PathKey(p)[5..] == p && PathKey(q)[5..] == q;
  }

  /** The four kinds of key never meet when md5s are colon-free. */
  lemma KeyKinds(path: string, scene: string, mtime: int, md5: string, file: string, index: nat)
    ensures IsPathKey(PathKey(path)) && IsSceneKey(SceneKey(scene, mtime, md5)) && IsShardKey(ShardKey(file, index))
  {
  }

  lemma KeyKind(k: string)
    ensures IsPathKey(k) || IsSceneKey(k) || IsShardKey(k) ==> ':' in k
    ensures !(IsPathKey(k) && IsSceneKey(k)) && !(IsPathKey(k) && IsShardKey(k)) && !(IsSceneKey(k) && IsShardKey(k))
  {
    if IsPathKey(k) { assert k[1] == "PATH:"[1] && k[4] == "PATH:"[4]; }
    if IsSceneKey(k) { assert k[1] == "SCENE:"[1] && k[5] == "SCENE:"[5]; }
    if IsShardKey(k) { assert k[1] == "Shard:"[1] && k[5] == "Shard:"[5]; }
  }
}
