/**
  Concurrent savers. The duplicate check of a save runs before the lock is taken, so two threads can
  both pass it; the steps below are what the lock makes atomic, and any batch write may fail.
 */
module MetadataRaces {
  import opened Decimal
  import opened Metadata
  import opened MetadataRuns

  /** `pending` holds the documents whose savers passed the check and wait for the lock. The last two
      fields record the committed saves that replaced a present document. */
  datatype Race = Race(store: Store, pending: map<nat, MetaFile>, replaced: nat, replacedSize: int)

  datatype Move =
    | Check(thread: nat, meta: MetaFile)
    | Commit(thread: nat, writeOk: bool)
    | DeleteMove(md5: string, writeOk: bool)
    | StatusMove(md5: string, status: Status, writeOk: bool)
    | ShardMove(index: nat, file: string, shardMd5: string, writeOk: bool)

  const START := Race(EMPTY, map[], 0, 0)

  predicate Enabled(r: Race, m: Move) {
    match m
    case Check(t, _) => t !in r.pending
    case Commit(t, _) => t in r.pending
    case _ => true
  }

  function Next(r: Race, m: Move): Race
    requires Enabled(r, m)
  {
    match m
    case Check(t, meta) => if meta.md5 in r.store.db then r else r.(pending := r.pending[t := meta])
    case Commit(t, ok) => CommitNext(r, t, ok)
    case DeleteMove(md5, ok) => r.(store := Delete(r.store, md5, ok))
    case StatusMove(md5, status, ok) => r.(store := UpdateStatus(r.store, md5, status, ok))
    case ShardMove(index, file, shardMd5, ok) => r.(store := SaveShard(r.store, index, file, shardMd5, ok))
  }

  function CommitNext(r: Race, t: nat, ok: bool): Race
    requires t in r.pending
  {
    var meta := r.pending[t];
    var r' := r.(store := CommitSave(r.store, meta, ok), pending := r.pending - {t});
    if ok && Live(r.store.db, meta.md5) then
      r'.(replaced := r.replaced + 1, replacedSize := r.replacedSize + r.store.db[meta.md5].meta.size)
    else r'
  }

  /** One interleaving: every move is enabled where it happens, and saved ids are well formed. */
  ghost predicate Interleaving(r: Race, moves: seq<Move>)
    decreases |moves|
  {
    moves != [] ==>
      && Enabled(r, moves[0])
      && (moves[0].Check? ==> IsId(moves[0].meta.md5))
      && Interleaving(Next(r, moves[0]), moves[1..])
  }

  function After(r: Race, moves: seq<Move>): Race
    requires Interleaving(r, moves)
    decreases |moves|
  {
    if moves == [] then r else After(Next(r, moves[0]), moves[1..])
  }

  ghost predicate PendingOk(r: Race) {
    forall t :: t in r.pending ==> IsId(r.pending[t].md5)
  }

  /** What every interleaving keeps. */
  ghost predicate Inv(r: Race) {
    && PendingOk(r)
    && DocsOk(r.store.db)
    && DriftOf(r.store) == Drift(Wrap(r.replaced), Wrap(r.replacedSize))
    && (r.replaced == 0 ==> Indexed(r.store.db) && r.replacedSize == 0)
  }

  /** A check followed at once by its commit is a sequential save; a saver that finds the md5 does nothing. */
  lemma SaveInTwoMoves(r: Race, t: nat, meta: MetaFile, ok: bool)
    requires t !in r.pending
    ensures meta.md5 in r.store.db ==> Next(r, Check(t, meta)) == r && Save(r.store, meta, ok) == r.store
    ensures meta.md5 !in r.store.db ==>
              var moves := [Check(t, meta), Commit(t, ok)];
              && (IsId(meta.md5) ==> Interleaving(r, moves))
              && Enabled(Next(r, Check(t, meta)), Commit(t, ok))
              && Next(Next(r, Check(t, meta)), Commit(t, ok)) == r.(store := Save(r.store, meta, ok))
  {
    hide CommitSave;
    if meta.md5 !in r.store.db {
      var r1 := Next(r, Check(t, meta));
      assert r1.pending - {t} == r.pending;
      var moves := [Check(t, meta), Commit(t, ok)];
      assert moves[1..] == [Commit(t, ok)] && moves[1..][1..] == [];
      if IsId(meta.md5) {
        assert Interleaving(Next(r1, Commit(t, ok)), []);
        assert Interleaving(r1, moves[1..]);
      }
    }
  }

  // ----- committing -----

  lemma CommitKeepsDocsOk(s: Store, meta: MetaFile)
    requires DocsOk(s.db) && IsId(meta.md5)
    ensures DocsOk(CommitSave(s, meta, true).db)
  {
    hide SceneKey, PathKey, IsSceneKey, IsPathKey, IsShardKey;
    var db := s.db;
    var db' := CommitSave(s, meta, true).db;
    var sk, pk := SceneKeyOf(meta), PathKey(meta.path);
    KeyKinds(meta.path, meta.scene, meta.mtime, meta.md5, "", 0);
    KeyKind(sk); KeyKind(pk);
    assert db'[meta.md5] == Doc(Stored(meta)) && db'[sk] == Raw(meta.md5);
    forall k | Live(db', k) ensures DocOk(db', k) {
      if k != meta.md5 {
        var m := db[k].meta;
        assert DocOk(db, k);
        KeyKinds("", m.scene, m.mtime, k, "", 0);
        KeyKind(SceneKeyOf(m));
        if SceneKeyOf(m) == sk { SceneKeyInjective(m.scene, m.mtime, k, meta.scene, meta.mtime, meta.md5); }
      }
    }
  }

  lemma ReplaceDrift(s: Store, meta: MetaFile)
    requires DocsOk(s.db) && IsId(meta.md5) && Live(s.db, meta.md5)
    ensures var d, d' := DriftOf(s), DriftOf(CommitSave(s, meta, true));
            && d'.count == Wrap(d.count + 1) && d'.size == Wrap(d.size + s.db[meta.md5].meta.size)
  {
    hide SceneKey, PathKey, Wrap, SizeSum, DocsOk, Docs;
    var docs, md5, new' := Docs(s.db), meta.md5, Stored(meta);
    var docs' := docs[md5 := new'];
    SaveDocs(s, meta);
    DocsIn(s.db, md5);
    SizeSumRemove(docs, md5);
    SizeSumRemove(docs', md5);
    Overwrite(docs, md5, new');
    CardinalityRemove(docs, md5);
    CardinalityRemove(docs', md5);
    var s' := CommitSave(s, meta, true);
    WrapSum(s.stat.fileCount, 1, |docs|, |docs|, 1);
    WrapSum(s.stat.totalSize, meta.size, SizeSum(docs), SizeSum(docs'), docs[md5].size);
  }

  lemma Overwrite(docs: map<string, MetaFile>, k: string, m: MetaFile)
    ensures docs[k := m] - {k} == docs - {k}
  {
  }

  lemma WrapSum(a: int, add: int, b: int, b': int, extra: int)
    requires add - b' == extra - b
    ensures Wrap(Wrap(a + add) - b') == Wrap(Wrap(a - b) + extra)
  {
  }

  lemma AbsentUnlessLive(db: Db, md5: string)
    requires DocsOk(db) && IsId(md5)
    ensures md5 in db <==> Live(db, md5)
  {
  }

  lemma CommitKeepsInv(r: Race, t: nat, ok: bool)
    requires Inv(r) && t in r.pending
    ensures Inv(CommitNext(r, t, ok))
  {
    hide SceneKey, PathKey, DocsOk, Wrap, CommitSave;
    var meta := r.pending[t];
    if ok {
      AbsentUnlessLive(r.store.db, meta.md5);
      CommitKeepsDocsOk(r.store, meta);
      if Live(r.store.db, meta.md5) {
        ReplaceDrift(r.store, meta);
        WrapAdd(r.replaced, 1);
        WrapAdd(r.replacedSize, r.store.db[meta.md5].meta.size);
      } else {
        SaveKeepsDrift(r.store, meta);
        if r.replaced == 0 { SaveKeepsIndexed(r.store, meta); }
      }
    } else {
      NoCommit(r.store, meta);
    }
  }

  lemma NoCommit(s: Store, meta: MetaFile)
    ensures CommitSave(s, meta, false) == s
  {
  }

  // ----- the other moves -----

  lemma DeleteKeepsDocsOk(s: Store, md5: string)
    requires DocsOk(s.db) && Live(s.db, md5)
    ensures DocsOk(Delete(s, md5, true).db)
  {
    hide SceneKey, PathKey, IsSceneKey, IsPathKey, IsShardKey;
    var db, meta := s.db, s.db[md5].meta;
    var db' := Delete(s, md5, true).db;
    var sk, pk := SceneKeyOf(meta), PathKey(meta.path);
    KeyKinds(meta.path, meta.scene, meta.mtime, md5, "", 0);
    KeyKind(sk); KeyKind(pk);
    assert DocOk(db, md5);
    forall k | Live(db', k) ensures DocOk(db', k) {
      var m := db[k].meta;
      assert DocOk(db, k);
      KeyKinds("", m.scene, m.mtime, k, "", 0);
      KeyKind(SceneKeyOf(m));
      if SceneKeyOf(m) == sk { SceneKeyInjective(m.scene, m.mtime, k, meta.scene, meta.mtime, md5); }
    }
  }

  lemma PutKeepsDocsOk(db: Db, key: string, text: string)
    requires DocsOk(db) && IsShardKey(key)
    ensures DocsOk(db[key := Raw(text)])
  {
    hide SceneKey, IsSceneKey, IsPathKey, IsShardKey;
    var db' := db[key := Raw(text)];
    KeyKind(key);
    forall k | Live(db', k) ensures DocOk(db', k) {
      assert DocOk(db, k);
      KeyKinds("", db[k].meta.scene, db[k].meta.mtime, k, "", 0);
    }
  }

  lemma StatusKeepsDocsOk(s: Store, md5: string, status: Status)
    requires DocsOk(s.db) && Live(s.db, md5)
    ensures DocsOk(UpdateStatus(s, md5, status, true).db)
  {
    hide SceneKey, IsSceneKey, IsPathKey, IsShardKey;
    var db := s.db;
    var db' := UpdateStatus(s, md5, status, true).db;
    assert DocOk(db, md5);
    forall k | Live(db', k) ensures DocOk(db', k) {
      assert DocOk(db, k);
      KeyKinds("", db[k].meta.scene, db[k].meta.mtime, k, "", 0);
      KeyKind(SceneKeyOf(db[k].meta));
    }
  }

  lemma MoveKeepsInv(r: Race, m: Move)
    requires Inv(r) && Enabled(r, m) && (m.Check? ==> IsId(m.meta.md5))
    ensures Inv(Next(r, m))
  {
    hide SceneKey, PathKey, ShardKey, DocsOk, Wrap, DriftOf;
    match m
    case Check(t, meta) =>
    case Commit(t, ok) => CommitKeepsInv(r, t, ok);
    case DeleteMove(md5, ok) =>
      if ok && Live(r.store.db, md5) {
        DeleteKeepsDocsOk(r.store, md5);
        DeleteKeepsDrift(r.store, md5);
        if r.replaced == 0 { DeleteKeepsIndexed(r.store, md5); }
      }
    case StatusMove(md5, status, ok) =>
      if ok && Live(r.store.db, md5) {
        StatusKeepsDocsOk(r.store, md5, status);
        UpdateStatusKeepsDrift(r.store, md5, status);
        if r.replaced == 0 { UpdateStatusKeepsIndexed(r.store, md5, status); }
      }
    case ShardMove(index, file, shardMd5, ok) =>
      KeyKinds("", "", 0, "", file, index);
      var text := if shardMd5 != "" then shardMd5 else "1";
      PutKeepsDocsOk(r.store.db, ShardKey(file, index), text);
      SaveShardKeepsDrift(r.store, ShardKey(file, index), text);
      if r.replaced == 0 { SaveShardKeepsIndexed(r.store.db, ShardKey(file, index), text); }
  }

  lemma {:induction false} RunKeepsInv(r: Race, moves: seq<Move>)
    requires Inv(r) && Interleaving(r, moves)
    ensures Inv(After(r, moves))
    decreases |moves|
  {
    hide Inv, Next, Enabled;
    if moves != [] {
      MoveKeepsInv(r, moves[0]);
      RunKeepsInv(Next(r, moves[0]), moves[1..]);
    }
  }

  lemma {:induction false} RaceInRange(r: Race, moves: seq<Move>)
    requires InRange(r.store.stat) && Interleaving(r, moves)
    ensures InRange(After(r, moves).store.stat)
    decreases |moves|
  {
    if moves != [] {
      hide SceneKey, PathKey, ShardKey;
      RaceInRange(Next(r, moves[0]), moves[1..]);
    }
  }

  /** The main result: after every interleaving from the empty store, each live document has its own
      scene entry; the counters exceed the live documents by exactly the replaced ones; and without a
      replacement all indexes agree as in a sequential run. */
  lemma RacesAccounted(moves: seq<Move>, md5: string)
    requires Interleaving(START, moves)
    ensures var Race(Store(db, stat), _, replaced, replacedSize) := After(START, moves);
            && (md5 in Docs(db) ==> SceneKeyOf(Docs(db)[md5]) in db && db[SceneKeyOf(Docs(db)[md5])] == Raw(md5))
            && stat.fileCount == Wrap(|Docs(db)| + replaced)
            && stat.totalSize == Wrap(SizeSum(Docs(db)) + replacedSize)
            && (replaced == 0 ==> Indexed(db) && stat == Stat(Wrap(|Docs(db)|), Wrap(SizeSum(Docs(db)))))
  {
    hide SceneKey, Wrap, SizeSum, Docs, After, Interleaving, Indexed;
    StartOk();
    RunKeepsInv(START, moves);
    RaceInRange(START, moves);
    var r := After(START, moves);
    var db, stat := r.store.db, r.store.stat;
    DocsIn(db, md5);
    WrapMove(stat.fileCount, |Docs(db)|, r.replaced);
    WrapMove(stat.totalSize, SizeSum(Docs(db)), r.replacedSize);
  }

  lemma StartOk()
    ensures Inv(START) && InRange(START.store.stat)
  {
    EmptyDrift();
  }

  lemma WrapMove(a: int, b: int, d: int)
    requires 0 <= a < UINT64 && Wrap(a - b) == Wrap(d)
    ensures a == Wrap(b + d)
  {
  }

  // ----- when a replacement does no harm -----

  /** The replaced document had the same scene and time, and either the same path or a path entry that no
      longer leads to it. */
  predicate Harmless(db: Db, meta: MetaFile)
    requires Live(db, meta.md5)
  {
    var was := db[meta.md5].meta;
    && was.scene == meta.scene && was.mtime == meta.mtime
    && (was.path == meta.path || PathKey(was.path) !in db || db[PathKey(was.path)] != Raw(meta.md5))
  }

  lemma ReplaceKeepsScenes(s: Store, meta: MetaFile)
    requires Indexed(s.db) && IsId(meta.md5) && Live(s.db, meta.md5) && Harmless(s.db, meta)
    ensures var db' := CommitSave(s, meta, true).db;
            forall k :: k in db' && IsSceneKey(k) ==> SceneEntryOk(db', k)
  {
    hide SceneKey, PathKey, IsSceneKey, IsPathKey, IsShardKey;
    var db, db' := s.db, CommitSave(s, meta, true).db;
    var sk, pk := SceneKeyOf(meta), PathKey(meta.path);
    KeyKinds(meta.path, meta.scene, meta.mtime, meta.md5, "", 0);
    KeyKind(sk); KeyKind(pk);
    assert db'[meta.md5] == Doc(Stored(meta)) && db'[sk] == Raw(meta.md5);
    assert DocOk(db, meta.md5);
    forall k | k in db' && IsSceneKey(k) ensures SceneEntryOk(db', k) {
      KeyKind(k);
      if k != sk {
        assert SceneEntryOk(db, k);
        KeyKind(db[k].text);
      }
    }
  }

  lemma ReplaceKeepsPaths(s: Store, meta: MetaFile)
    requires Indexed(s.db) && IsId(meta.md5) && Live(s.db, meta.md5) && Harmless(s.db, meta)
    ensures var db' := CommitSave(s, meta, true).db;
            forall k :: k in db' && IsPathKey(k) ==> PathEntryOk(db', k)
  {
    hide SceneKey, PathKey, IsSceneKey, IsPathKey, IsShardKey;
    var db, db' := s.db, CommitSave(s, meta, true).db;
    var sk, pk := SceneKeyOf(meta), PathKey(meta.path);
    KeyKinds(meta.path, meta.scene, meta.mtime, meta.md5, "", 0);
    KeyKind(sk); KeyKind(pk);
    assert db'[meta.md5] == Doc(Stored(meta)) && db'[pk] == Raw(meta.md5);
    assert DocOk(db, meta.md5);
    forall k | k in db' && IsPathKey(k) ensures PathEntryOk(db', k) {
      KeyKind(k);
      if k != pk {
        assert PathEntryOk(db, k);
        KeyKind(db[k].text);
      }
    }
  }

  lemma HarmSeen(s: Store, meta: MetaFile)
    requires Indexed(s.db) && IsId(meta.md5) && Live(s.db, meta.md5) && !Harmless(s.db, meta)
    ensures !Indexed(CommitSave(s, meta, true).db)
  {
    hide SceneKey, PathKey, IsSceneKey, IsPathKey, IsShardKey;
    var db, db', was := s.db, CommitSave(s, meta, true).db, s.db[meta.md5].meta;
    var sk, pk := SceneKeyOf(was), PathKey(was.path);
    KeyKinds(meta.path, meta.scene, meta.mtime, meta.md5, "", 0);
    KeyKind(SceneKeyOf(meta)); KeyKind(PathKey(meta.path));
    KeyKinds(was.path, was.scene, was.mtime, was.md5, "", 0);
    KeyKind(sk); KeyKind(pk);
    assert DocOk(db, meta.md5);
    assert db'[meta.md5] == Doc(Stored(meta));
    if was.scene != meta.scene || was.mtime != meta.mtime {
      if sk == SceneKeyOf(meta) {
        SceneKeyInjective(was.scene, was.mtime, was.md5, meta.scene, meta.mtime, meta.md5);
      }
      assert db'[sk] == Raw(meta.md5) && !SceneEntryOk(db', sk);
    } else {
      if pk == PathKey(meta.path) { PathKeyInjective(was.path, meta.path); }
      assert db'[pk] == Raw(meta.md5) && !PathEntryOk(db', pk);
    }
  }

  /** A save that replaces a document keeps the indexes in agreement if and only if it is harmless. */
  lemma ReplaceExact(s: Store, meta: MetaFile)
    requires Indexed(s.db) && IsId(meta.md5) && Live(s.db, meta.md5)
    ensures Indexed(CommitSave(s, meta, true).db) <==> Harmless(s.db, meta)
  {
    hide Harmless, SceneKey, PathKey, CommitSave, IsSceneKey, IsPathKey, SceneEntryOk, PathEntryOk, DocsOk;
    if Harmless(s.db, meta) {
      assert DocsOk(s.db);
      CommitKeepsDocsOk(s, meta);
      ReplaceKeepsScenes(s, meta);
      ReplaceKeepsPaths(s, meta);
    } else {
      HarmSeen(s, meta);
    }
  }

  ghost predicate HarmlessMove(r: Race, m: Move) {
    m.Commit? && m.writeOk && m.thread in r.pending && Live(r.store.db, r.pending[m.thread].md5) ==>
      Harmless(r.store.db, r.pending[m.thread])
  }

  /** No replacement of the interleaving does harm. */
  ghost predicate HarmlessRun(r: Race, moves: seq<Move>)
    requires Interleaving(r, moves)
    decreases |moves|
  {
    moves != [] ==> HarmlessMove(r, moves[0]) && HarmlessRun(Next(r, moves[0]), moves[1..])
  }

  lemma HarmlessMoveKeepsIndexed(r: Race, m: Move)
    requires Inv(r) && Indexed(r.store.db) && Enabled(r, m) && HarmlessMove(r, m)
    ensures Indexed(Next(r, m).store.db)
  {
    hide SceneKey, PathKey, ShardKey, Wrap, DriftOf, Indexed, Harmless, DocsOk;
    match m
    case Check(t, meta) =>
    case Commit(t, ok) =>
      var meta := r.pending[t];
      hide CommitSave;
      AbsentUnlessLive(r.store.db, meta.md5);
      if !ok { NoCommit(r.store, meta); }
      else if Live(r.store.db, meta.md5) { ReplaceExact(r.store, meta); }
      else { SaveKeepsIndexed(r.store, meta); }
    case DeleteMove(md5, ok) => if ok && Live(r.store.db, md5) { DeleteKeepsIndexed(r.store, md5); }
    case StatusMove(md5, status, ok) =>
      if ok && Live(r.store.db, md5) { UpdateStatusKeepsIndexed(r.store, md5, status); }
    case ShardMove(index, file, shardMd5, ok) =>
      KeyKinds("", "", 0, "", file, index);
      SaveShardKeepsIndexed(r.store.db, ShardKey(file, index), if shardMd5 != "" then shardMd5 else "1");
  }

  /** Interleavings whose replacements are harmless keep all indexes in agreement. */
  lemma {:induction false} HarmlessRaces(r: Race, moves: seq<Move>)
    requires Inv(r) && Indexed(r.store.db) && Interleaving(r, moves) && HarmlessRun(r, moves)
    ensures Indexed(After(r, moves).store.db)
    decreases |moves|
  {
    hide Inv, Next, Enabled, Indexed, HarmlessMove;
    if moves != [] {
      MoveKeepsInv(r, moves[0]);
      HarmlessMoveKeepsIndexed(r, moves[0]);
      HarmlessRaces(Next(r, moves[0]), moves[1..]);
    }
  }

  /** Two threads that save one md5 at different times: one live document, counted twice, with both
      scene entries left behind. */
  lemma TwoSaversCountTwice(m: MetaFile)
    requires IsId(m.md5) && m.mtime == 1 && m.shards == []
    ensures var moves := [Check(0, m), Check(1, m.(mtime := 2)), Commit(0, true), Commit(1, true)];
            Interleaving(START, moves) &&
            var db := After(START, moves).store.db;
            && |Docs(db)| == 1 && After(START, moves).store.stat.fileCount == 2
            && SceneKey(m.scene, 1, m.md5) in db && SceneKey(m.scene, 2, m.md5) in db
  {
    hide SceneKey, PathKey, IsId;
    var m2 := m.(mtime := 2);
    var r1 := Next(START, Check(0, m));
    var r2 := Next(r1, Check(1, m2));
    var r3 := Next(r2, Commit(0, true));
    var r4 := Next(r3, Commit(1, true));
    OneMove(r3, Commit(1, true), []);
    OneMove(r2, Commit(0, true), [Commit(1, true)]);
    OneMove(r1, Check(1, m2), [Commit(0, true), Commit(1, true)]);
    OneMove(START, Check(0, m), [Check(1, m2), Commit(0, true), Commit(1, true)]);
    assert [Check(0, m)] + [Check(1, m2), Commit(0, true), Commit(1, true)] ==
           [Check(0, m), Check(1, m2), Commit(0, true), Commit(1, true)];
    assert [Check(1, m2)] + [Commit(0, true), Commit(1, true)] == [Check(1, m2), Commit(0, true), Commit(1, true)];
    assert [Commit(0, true)] + [Commit(1, true)] == [Commit(0, true), Commit(1, true)];
    assert [Commit(1, true)] + [] == [Commit(1, true)];
    assert r2.store == EMPTY && r3.store == CommitSave(EMPTY, m, true) && r4.store == CommitSave(r3.store, m2, true);
    SavedTwice(m, m2);
  }

  lemma OneMove(r: Race, m: Move, rest: seq<Move>)
    requires Enabled(r, m) && (m.Check? ==> IsId(m.meta.md5)) && Interleaving(Next(r, m), rest)
    ensures Interleaving(r, [m] + rest) && After(r, [m] + rest) == After(Next(r, m), rest)
  {
    assert ([m] + rest)[1..] == rest;
  }

  lemma SavedTwice(m: MetaFile, m2: MetaFile)
    requires IsId(m.md5) && m2.md5 == m.md5
    ensures var s := CommitSave(CommitSave(EMPTY, m, true), m2, true);
            && |Docs(s.db)| == 1 && s.stat.fileCount == 2
            && SceneKeyOf(m) in s.db && SceneKeyOf(m2) in s.db
  {
    var s1 := CommitSave(EMPTY, m, true);
    var s2 := CommitSave(s1, m2, true);
    EmptyIndexed();
    assert |Docs(s2.db)| == 1 by {
      hide SceneKey, PathKey, Docs, Wrap, CommitSave, DocsOk;
      SaveDocs(EMPTY, m);
      CommitKeepsDocsOk(EMPTY, m);
      SaveDocs(s1, m2);
      NoDocs();
      OverwriteOne(Docs(EMPTY.db), m.md5, Stored(m), Stored(m2));
    }
    assert SceneKeyOf(m) in s1.db && SceneKeyOf(m2) in s2.db && s2.stat.fileCount == 2 by {
      hide SceneKey, PathKey, Docs, SizeSum;
    }
  }

  lemma NoDocs()
    ensures Docs(EMPTY.db) == map[]
  {
  }

  lemma OverwriteOne(docs: map<string, MetaFile>, k: string, a: MetaFile, b: MetaFile)
    requires docs == map[]
    ensures |docs[k := a][k := b]| == 1
  {
    assert docs[k := a][k := b].Keys == {k};
  }
}
