/**
  Uploading: the file is saved before its metadata is recorded, so a record has its file unless a write got
  stuck there; and chunked upload with its merge.
 */
module Uploads {
  import opened Decimal
  import opened TextSearch
  import opened FilePaths
  import opened FileStores
  import opened Filenames
  import opened Chunks
  import opened ChunkDirs
  import opened DiskProtocol
  import opened Metadata
  import opened MetadataRuns
  import opened MetadataStores

  /** A multipart upload request together with what its handling meets: the time, the random suffix of
      the temporary file, the disk failures and whether the metadata batch is written. */
  datatype Upload = Upload(
    queryMd5: string, filename: string, content: string, scene: string,
    mtime: int, suffix: string, faults: Faults, writeOk: bool)

  datatype Config = Config(root: string, allowed: seq<string>, trim: bool, peer: string)

  function Lower(s: string): string {
    seq(|s|, i requires 0 <= i < |s| => if 'A' <= s[i] <= 'Z' then s[i] - 'A' + 'a' else s[i])
  }

  predicate CheckFileExt(filename: string, allowed: seq<string>) {
    allowed == [] || Lower(Extension(filename)) in allowed
  }

  /** The request reaches the disk: it is not answered from the metadata and passes the checks. */
  predicate Accepted(c: Config, db: Db, u: Upload) {
    && !(u.queryMd5 != "" && GetMeta(db, u.queryMd5).Some?)
    && u.content != "" && CheckFileExt(u.filename, c.allowed)
  }

  function CleanName(c: Config, filename: string): string {
    if c.trim then Trim(filename) else filename
  }

  function NewMeta(c: Config, u: Upload, md5: string, path: string): MetaFile {
    MetaFile(md5, path, CleanName(c, u.filename), "", u.scene, "", |u.content|, u.mtime, NORMAL,
             false, 0, 0, [], 0, [], [c.peer])
  }

  datatype World = World(files: Files, store: Store)

  /** How one request changes the files and the metadata: the file first, the record only after success. */
  function Handle(c: Config, hash: string -> string, w: World, u: Upload): World {
    if !Accepted(c, w.store.db, u) then w else
      var md5 := hash(u.content);
      var (files, r) := UploadSaved(c.root, w.files, u.filename, u.content, u.scene, md5, u.suffix, u.faults);
      World(files,
            if r.SavedAs? && CleanName(c, u.filename) != "" then Save(w.store, NewMeta(c, u, md5, r.path), u.writeOk)
            else w.store)
  }

  // ----- what the parts of a request mean -----

  /** Upper-case letters become their lower-case counterparts, all else stays. */
  lemma LowerMeans(s: string, i: nat, k: nat)
    requires i < |s| && k < 26
    ensures |Lower(s)| == |s|
    ensures s[i] as int == 'A' as int + k ==> Lower(s)[i] as int == 'a' as int + k
    ensures !('A' <= s[i] <= 'Z') ==> Lower(s)[i] == s[i]
  {
  }

  /** Without a list of extensions every name passes; otherwise the lower-case extension must be listed. */
  lemma ExtensionChecked(dir: string, stem: string, e: string, allowed: seq<string>)
    requires stem != "" && stem != "." && '/' !in stem && '/' !in e && '.' !in e
    ensures CheckFileExt(dir + "/" + stem + "." + e, allowed) <==> allowed == [] || "." + Lower(e) in allowed
    ensures CheckFileExt(stem + "." + e, allowed) <==> allowed == [] || "." + Lower(e) in allowed
  {
    hide Extension;
    ExtensionRead(dir, stem, e);
    assert dir + "/" + (stem + "." + e) == dir + "/" + stem + "." + e;
    assert Lower("." + e) == "." + Lower(e);
  }

  /** The request gets past the checks: its md5, if it carries one, is not known, it has content, and its
      extension is allowed. */
  predicate Serves(c: Config, db: Db, u: Upload) {
    && (u.queryMd5 == "" || GetMeta(db, u.queryMd5) == None)
    && |u.content| > 0 && (|c.allowed| == 0 || Lower(Extension(u.filename)) in c.allowed)
  }

  /** A file is in place afterwards and the handler knows it: it was there, or nothing goes wrong. */
  predicate FilePlaced(c: Config, files: Files, u: Upload, path: string) {
    && !u.faults.lookup
    && (|| path in files
        || (!u.faults.dirs && Starts(files, path, u.content, u.faults) && !u.faults.write &&
            !GoesWrong(u.content, u.faults)))
  }

  /** The name under which an upload is recorded: the given one, or without special characters and with only
      those dots that stand alone and at neither end. */
  function RecordedName(c: Config, filename: string): string {
    if c.trim then Pick(DropSpecial(filename), Kept(DropSpecial(filename)), 0) else filename
  }

  /** The main result about one request: a document is recorded exactly when the request gets past the
      checks, its file is in place, its name is not empty after cleaning, its md5 is new and the batch is
      written; it has the name, scene, time, size and path of the upload, and is found by md5 and path.
      Otherwise the metadata stays as it is. */
  lemma UploadRecorded(c: Config, hash: string -> string, w: World, u: Upload)
    requires Indexed(w.store.db) && IsDigest(hash(u.content))
    ensures var md5, db, World(files', store') := hash(u.content), w.store.db, Handle(c, hash, w, u);
            var path := AbsPath(c.root, u.scene, md5, Extension(u.filename));
            if Serves(c, db, u) && FilePlaced(c, w.files, u, path) && RecordedName(c, u.filename) != "" &&
               md5 !in Docs(db) && u.writeOk
            then
              var m := MetaFile(md5, RelPath(u.scene, md5, Extension(u.filename)), RecordedName(c, u.filename), "",
                                u.scene, "", |u.content|, u.mtime, NORMAL, false, 0, 0, [], 0, [], [c.peer]);
              && Docs(store'.db) == Docs(db)[md5 := m]
              && GetMeta(store'.db, md5) == Some(m) && GetMeta(store'.db, m.path) == Some(m)
              && Join(c.root, m.path) == path && path in files' && (path !in w.files ==> files'[path] == u.content)
            else store' == w.store
    ensures !Serves(c, w.store.db, u) ==> Handle(c, hash, w, u) == w
  {
    hide Join, RelPath, AbsPath, Extension, Trim, UploadSaved, Indexed, Docs, Save, GetMeta, Lower, Starts, GoesWrong;
    hide DropSpecial, Pick, Kept, StuckUpload;
    var md5, s := hash(u.content), w.store;
    var ext := Extension(u.filename);
    UploadSavedMeans(c.root, w.files, u.filename, u.content, u.scene, md5, u.suffix, u.faults);
    TrimKeeps(u.filename);
    KnownMd5(s.db, md5);
    var m := NewMeta(c, u, md5, RelPath(u.scene, md5, ext));
    RelPathLong(u.scene, md5, ext);
    RecordedPathReads(c.root, u.scene, md5, ext);
    NotSavedTwice(s, m, u.writeOk);
    if md5 !in Docs(s.db) && u.writeOk { RecordFound(s, m); }
  }

  lemma KnownMd5(db: Db, md5: string)
    requires Indexed(db) && IsDigest(md5)
    ensures md5 in db <==> md5 in Docs(db)
  {
    hide SceneKey, PathKey;
  }

  lemma NotSavedTwice(s: Store, m: MetaFile, writeOk: bool)
    ensures m.md5 in s.db || !writeOk ==> Save(s, m, writeOk) == s
  {
  }

  /** A document that has just been saved is found by its md5 and by its path, as it was given. */
  lemma RecordFound(s: Store, m: MetaFile)
    requires Indexed(s.db) && IsDigest(m.md5) && m.md5 !in Docs(s.db) && m.shards == [] && |m.path| != 32
    ensures var db := Save(s, m, true).db;
            && Docs(db) == Docs(s.db)[m.md5 := m]
            && GetMeta(db, m.md5) == Some(m) && GetMeta(db, m.path) == Some(m)
  {
    hide Indexed, Docs, CommitSave, PathKey;
    KnownMd5(s.db, m.md5);
    StoredFields(m);
    assert DocsOk(s.db) by { IndexedHasDocs(s.db); }
    SaveDocs(s, m);
    PathEntryOfLast(s, m);
    InDocs(Save(s, m, true).db, m.md5);
  }

  class FileCtl {
    const config: Config
    const hash: string -> string
    const fileStore: FileStore
    const metaStore: MetadataStore

    ghost function State(): World
      reads fileStore, metaStore
    {
      World(fileStore.files, metaStore.State())
    }

    constructor (config: Config, hash: string -> string, fileStore: FileStore, metaStore: MetadataStore)
      ensures this.config == config && this.hash == hash && this.fileStore == fileStore && this.metaStore == metaStore
    {
      this.config, this.hash, this.fileStore, this.metaStore := config, hash, fileStore, metaStore;
    }

    method HandleUpload(u: Upload)
      requires fileStore.root == config.root
      modifies fileStore, metaStore
      ensures State() == Handle(config, hash, old(State()), u)
    {
      hide GetMeta, Save, Extension, RelPath, AbsPath, Trim, UploadSaved, Normal, Letters;
      if u.queryMd5 != "" && GetMeta(metaStore.db, u.queryMd5).Some? { return; }
      if u.content == "" { return; }
      if !CheckFileExt(u.filename, config.allowed) { return; }
      var cleanName := u.filename;
      if config.trim { cleanName := TrimFilename(u.filename); }
      var md5 := hash(u.content);
      ghost var s := metaStore.State();
      var r := fileStore.SaveUpload(u.filename, u.content, u.scene, md5, hash, u.suffix, u.faults);
      assert metaStore.State() == s;
      if cleanName != "" && r.SavedAs? {
        var m := NewMeta(config, u, md5, r.path);
        assert cleanName == m.name;
        var ok := metaStore.SaveMeta(m, u.writeOk);
      }
    }

    /** Saves one chunk under the temporary directory of its file. Whatever fails, only that directory
        changes; without failures exactly the chunk's entry is set. */
    method HandleChunkUpload(tempDir: string, md5: string, chunk: string, content: string, suffix: string, f: Faults)
      returns (ok: bool)
      requires fileStore.root == config.root
      modifies fileStore
      ensures md5 == "" || content == "" || chunk == "" ==> !ok && fileStore.files == old(fileStore.files)
      ensures md5 != "" && content != "" && chunk != "" ==>
                var path := tempDir + "/" + md5 + "/" + chunk;
                var (files, r) := ChunkSaved(config.root, old(fileStore.files), content, path, suffix, f);
                fileStore.files == files && (ok <==> r == Yes)
      ensures '/' !in chunk && '/' !in suffix ==>
                OnlyDirChanged(old(fileStore.files), fileStore.files, UploadDir(config.root, tempDir, md5))
      ensures md5 != "" && content != "" && chunk != "" && f == NO_FAULTS && '/' !in chunk && '/' !in suffix &&
              Find(tempDir + "/" + md5 + "/" + chunk, "..", 0).None? &&
              TempPath(UploadDir(config.root, tempDir, md5) + "/" + chunk, suffix) !in old(fileStore.files) ==>
                && ok
                && DirView(fileStore.files, UploadDir(config.root, tempDir, md5)) ==
                   PutChunk(DirView(old(fileStore.files), UploadDir(config.root, tempDir, md5)), chunk, content)
    {
      hide Find, Join, DirView, PutChunk, UploadDir, TempPath, ChunkSaved, OnlyDirChanged, HasSize;
      ghost var files, dir := fileStore.files, UploadDir(config.root, tempDir, md5);
      NothingChanged(files, dir);
      if md5 == "" || content == "" || chunk == "" { return false; }
      var path := tempDir + "/" + md5 + "/" + chunk;
      var r := fileStore.SaveChunk(content, path, suffix, f);
      ChunkPathInDir(config.root, tempDir, md5, chunk);
      ChunkSavedMeans(config.root, files, content, path, suffix, f);
      if Find(path, "..", 0).None? { ChunkSavedWell(config.root, files, content, path, suffix); }
      if '/' !in chunk && '/' !in suffix {
        ChunkInDir(files, fileStore.files, dir, chunk, suffix);
        if TempPath(dir + "/" + chunk, suffix) !in files { SavedChunkView(files, dir, chunk, content, suffix); }
      }
      return r == Yes;
    }

    /** Joins the chunks of `dirPath`, moves the result to its final place, removes the chunks and records
        the document under the md5 that the client gave, with the size found on disk. */
    method HandleMerge(dirPath: string, names: seq<string>, md5: string, filename: string, scene: string,
                       mtime: int, f: MergeFaults, writeOk: bool) returns (a: Answer)
      requires fileStore.root == config.root
      requires IsListingOf(names, DirView(fileStore.files, dirPath))
      modifies fileStore, metaStore
      ensures md5 == "" || filename == "" ==> a == Refused && State() == old(State())
      ensures md5 != "" && filename != "" ==>
                exists merged ::
                  && MergesTo(DirView(old(fileStore.files), dirPath) - f.unreadable, names, merged)
                  && (fileStore.files, a) ==
                     MergeOutcome(config.root, old(fileStore.files), dirPath, md5, filename, scene, merged, f)
      ensures a.Recorded? ==>
                && |md5| >= 4 && AbsPath(config.root, scene, md5, Extension(filename)) in fileStore.files
                && metaStore.State() ==
                   Save(old(metaStore.State()),
                        MergedMeta(config, md5, filename, scene, mtime,
                                   |fileStore.files[AbsPath(config.root, scene, md5, Extension(filename))]|), writeOk)
      ensures a.Recorded? && IsDigest(md5) && Indexed(old(metaStore.db)) && md5 !in Docs(old(metaStore.db)) &&
              writeOk ==>
                MergeRecorded(config, md5, filename, scene, mtime, fileStore.files, metaStore.db)
      ensures !a.Recorded? ==> metaStore.State() == old(metaStore.State())
    {
      hide AbsPath, RelPath, Extension, Save, DirView, Join, MergesTo, IsListingOf, MergeOutcome, MergedMeta;
      hide MergeRecorded, Indexed, Docs, SameAt, GetMeta, IsDigest;
      if md5 == "" || filename == "" { return Refused; }
      var content := map n | n in names && dirPath + "/" + n in fileStore.files :: fileStore.files[dirPath + "/" + n];
      SameView(fileStore.files, dirPath, names, content);
      var merged := Merge(content - f.unreadable, names);
      a := StoreMerged(dirPath, md5, filename, scene, mtime, merged, f, writeOk);
    }

    /** The second half of a merge: what happens to the joined bytes. */
    method StoreMerged(dirPath: string, md5: string, filename: string, scene: string, mtime: int,
                       merged: MergeResult, f: MergeFaults, writeOk: bool) returns (a: Answer)
      modifies fileStore, metaStore
      ensures (fileStore.files, a) ==
              MergeOutcome(config.root, old(fileStore.files), dirPath, md5, filename, scene, merged, f)
      ensures a.Recorded? ==>
                && |md5| >= 4 && AbsPath(config.root, scene, md5, Extension(filename)) in fileStore.files
                && metaStore.State() ==
                   Save(old(metaStore.State()),
                        MergedMeta(config, md5, filename, scene, mtime,
                                   |fileStore.files[AbsPath(config.root, scene, md5, Extension(filename))]|), writeOk)
      ensures a.Recorded? && IsDigest(md5) && Indexed(old(metaStore.db)) && md5 !in Docs(old(metaStore.db)) &&
              writeOk ==>
                MergeRecorded(config, md5, filename, scene, mtime, fileStore.files, metaStore.db)
      ensures !a.Recorded? ==> metaStore.State() == old(metaStore.State())
    {
      hide AbsPath, RelPath, Extension, Save, Join, MergedTemp, Renamed, WithoutDir, Flushed, MergedMeta;
      hide MergeRecorded, Indexed, Docs;
      if f.probe || f.scan { return Broken; }
      if merged.NoChunks? { return Refused; }
      if f.opening { return Broken; }
      var temp := MergedTemp(dirPath, md5);
      var bytes := if merged.Merged? then merged.bytes else merged.written;
      var filled := fileStore.files[temp := if f.lost then Flushed(bytes, f.kept) else bytes];
      fileStore.files := filled;
      if merged.CannotOpen? || |md5| < 4 || f.dirs || f.rename { return Broken; }
      var path := AbsPath(config.root, scene, md5, Extension(filename));
      var moved := Renamed(filled, temp, path);
      fileStore.files := moved;
      fileStore.files := WithoutDir(moved, dirPath, if f.removal then f.survivors else {});
      if f.removal || f.sizing || path !in fileStore.files { return Broken; }
      if IsDigest(md5) && Indexed(metaStore.db) && md5 !in Docs(metaStore.db) {
        MergeFound(config, md5, filename, scene, mtime, fileStore.files, metaStore.State());
      }
      var m := MergedMeta(config, md5, filename, scene, mtime, |fileStore.files[path]|);
      var ok := metaStore.SaveMeta(m, writeOk);
      return Recorded;
    }
  }

  // ----- the merge on disk -----

  /** The merged document is found by md5 and by path, with the given name, scene and time, and its path
      names a present file of the recorded size. */
  ghost predicate MergeRecorded(c: Config, md5: string, filename: string, scene: string, mtime: int, files: Files,
                                db: Db) {
    md5 in Docs(db) &&
    var m := Docs(db)[md5];
    && GetMeta(db, md5) == Some(m) && GetMeta(db, m.path) == Some(m)
    && m.md5 == md5 && m.name == filename && m.scene == scene && m.mtime == mtime && m.status == NORMAL
    && m.peers == [c.peer] && !m.isSharded && m.shards == []
    && Join(c.root, m.path) in files && |files[Join(c.root, m.path)]| == m.size
    && Join(c.root, m.path) == AbsPathOf(c.root, scene, md5, filename)
  }

  function AbsPathOf(root: string, scene: string, md5: string, filename: string): string {
    if |md5| < 4 then "" else AbsPath(root, scene, md5, Extension(filename))
  }

  lemma MergeFound(c: Config, md5: string, filename: string, scene: string, mtime: int, files: Files, s: Store)
    requires Indexed(s.db) && IsDigest(md5) && md5 !in Docs(s.db)
    requires AbsPath(c.root, scene, md5, Extension(filename)) in files
    ensures var size := |files[AbsPath(c.root, scene, md5, Extension(filename))]|;
            MergeRecorded(c, md5, filename, scene, mtime, files,
                          Save(s, MergedMeta(c, md5, filename, scene, mtime, size), true).db)
  {
    hide Join, RelPath, AbsPath, Extension, Indexed, Docs, Save, GetMeta;
    var ext := Extension(filename);
    RelPathLong(scene, md5, ext);
    RecordedPathReads(c.root, scene, md5, ext);
    RecordFound(s, MergedMeta(c, md5, filename, scene, mtime, |files[AbsPath(c.root, scene, md5, ext)]|));
  }

  datatype Answer = Refused | Broken | Recorded

  /** What can go wrong in a merge: querying and listing the directory, creating the output file, chunks
      that cannot be opened, bytes lost on the way to the output file, and the later file-system calls. */
  datatype MergeFaults = MergeFaults(
    probe: bool, scan: bool, opening: bool, unreadable: set<string>, lost: bool, kept: nat,
    dirs: bool, rename: bool, removal: bool, survivors: set<string>, sizing: bool)

  const NO_MERGE_FAULTS := MergeFaults(false, false, false, {}, false, 0, false, false, false, {}, false)

  /** The output file next to the chunk directory. */
  function MergedTemp(dirPath: string, md5: string): string {
    Join(Parent(dirPath), md5 + ".merged")
  }

  function Renamed(files: Files, from: string, to: string): Files
    requires from in files
  {
    (files - {from})[to := files[from]]
  }

  /** After `remove_all`, with the files that a failing removal leaves. */
  function WithoutDir(files: Files, dirPath: string, survivors: set<string>): Files {
    map q | q in files && (!(dirPath + "/" <= q) || q in survivors) :: files[q]
  }

  function MergeOutcome(root: string, files: Files, dirPath: string, md5: string, filename: string, scene: string,
                        merged: MergeResult, f: MergeFaults): (Files, Answer) {
    if f.probe || f.scan then (files, Broken)
    else if merged.NoChunks? then (files, Refused)
    else if f.opening then (files, Broken)
    else
      var temp := MergedTemp(dirPath, md5);
      var bytes := if merged.Merged? then merged.bytes else merged.written;
      var filled := files[temp := if f.lost then Flushed(bytes, f.kept) else bytes];
      if merged.CannotOpen? || |md5| < 4 || f.dirs || f.rename then (filled, Broken)
      else
        var path := AbsPath(root, scene, md5, Extension(filename));
        var after := WithoutDir(Renamed(filled, temp, path), dirPath, if f.removal then f.survivors else {});
        (after, if f.removal || f.sizing || path !in after then Broken else Recorded)
  }

  /** A merge is recorded exactly when all chunks open, no call fails and the final path is outside the
      chunk directory, and refused exactly when there are no chunks. When it is recorded the final file
      holds the joined chunks, unless bytes were lost, which nobody notices, and the chunks are gone. A
      merge that stops before its rename changes no file but its output file, which stays behind. */
  lemma MergeOutcomeMeans(root: string, files: Files, dirPath: string, md5: string, filename: string, scene: string,
                          merged: MergeResult, f: MergeFaults)
    requires md5 != ""
    ensures var (after, a) := MergeOutcome(root, files, dirPath, md5, filename, scene, merged, f);
            var temp := MergedTemp(dirPath, md5);
            && (a.Recorded? ==>
                  var path := AbsPath(root, scene, md5, Extension(filename));
                  && merged.Merged? && path in after && after[path] <= merged.bytes
                  && (temp != path ==> temp !in after)
                  && (after[path] == merged.bytes <==> !(f.lost && f.kept < |merged.bytes|))
                  && (forall q :: q in after ==> !(dirPath + "/" <= q))
                  && (forall q :: q != temp && q != path && !(dirPath + "/" <= q) ==> SameAt(files, after, q)))
            && (a.Recorded? <==>
                && merged.Merged? && |md5| >= 4
                && !(f.probe || f.scan || f.opening || f.dirs || f.rename || f.removal || f.sizing)
                && !(dirPath + "/" <= AbsPath(root, scene, md5, Extension(filename))))
            && (a.Refused? <==> merged.NoChunks? && !f.probe && !f.scan)
            && (!merged.Merged? || |md5| < 4 || f.dirs || f.rename ==>
                  && !a.Recorded? && (forall q :: q != temp ==> SameAt(files, after, q))
                  && (!merged.NoChunks? && !f.probe && !f.scan && !f.opening ==> temp in after))
  {
    hide AbsPath, Extension, MergedTemp;
  }

  /** The output file lies next to the chunk directory and not in it. */
  lemma OutputBeside(parent: string, md5: string)
    requires parent != "" && parent[|parent| - 1] != '/' && md5 != "" && '/' !in md5
    ensures var dir := parent + "/" + md5;
            MergedTemp(dir, md5) == dir + ".merged" && !(dir + "/" <= MergedTemp(dir, md5))
  {
    hide Parent;
    var dir := parent + "/" + md5;
    ParentOf(parent, md5);
    assert (md5 + ".merged")[0] == md5[0];
    assert parent + "/" + (md5 + ".merged") == dir + ".merged";
    assert (dir + ".merged")[|dir|] == '.' && (dir + "/")[|dir|] == '/';
  }

  /** A merge whose only failure is that bytes are lost is recorded with the bytes that are left. */
  lemma LossyMergeRecorded(root: string, files: Files, dirPath: string, md5: string, filename: string, scene: string,
                           bytes: string, kept: nat)
    requires |md5| >= 4 && kept < |bytes| && !(dirPath + "/" <= AbsPath(root, scene, md5, Extension(filename)))
    ensures var f := NO_MERGE_FAULTS.(lost := true, kept := kept);
            var (after, a) := MergeOutcome(root, files, dirPath, md5, filename, scene, Merged(bytes), f);
            var path := AbsPath(root, scene, md5, Extension(filename));
            a == Recorded && path in after && after[path] == bytes[..kept]
  {
    hide AbsPath, Extension, MergedTemp;
  }

  /** The client sends the slices with the given indices, in any order and with repeats. */
  method UploadChunks(ctl: FileCtl, tempDir: string, md5: string, file: string, size: nat, uploads: seq<nat>,
                      suffix: string)
    requires ctl.fileStore.root == ctl.config.root
    requires size > 0 && forall i :: i in uploads ==> i < ChunkCount(file, size)
    requires md5 != "" && '/' !in suffix && Find(tempDir + "/" + md5 + "/", "..", 0).None?
    requires DirView(ctl.fileStore.files, UploadDir(ctl.config.root, tempDir, md5)) == map[]
    modifies ctl.fileStore
    ensures DirView(ctl.fileStore.files, UploadDir(ctl.config.root, tempDir, md5)) ==
            UploadAll(map[], file, size, uploads)
    ensures OnlyDirChanged(old(ctl.fileStore.files), ctl.fileStore.files, UploadDir(ctl.config.root, tempDir, md5))
  {
    hide Find, DirView, UploadDir, Dec, Slice, UploadAll, Offset, ChunkCount, TempPath, OnlyDirChanged, ChunkSaved;
    var dir := UploadDir(ctl.config.root, tempDir, md5);
    ghost var files := ctl.fileStore.files;
    NothingUploaded(file, size);
    NothingChanged(files, dir);
    var j := 0;
    while j < |uploads|
      invariant 0 <= j <= |uploads|
      invariant OnlyDirChanged(files, ctl.fileStore.files, dir)
      invariant DirView(ctl.fileStore.files, dir) == UploadAll(map[], file, size, uploads[..j])
    {
      var i := uploads[j];
      assert i in uploads;
      ghost var before := ctl.fileStore.files;
      SliceReady(before, dir, tempDir, md5, file, size, uploads[..j], i, suffix);
      var ok := ctl.HandleChunkUpload(tempDir, md5, Dec(i), Slice(file, size, i), suffix, NO_FAULTS);
      ChangesJoin(files, before, ctl.fileStore.files, dir);
      UploadOneMore(map[], file, size, uploads[..j], i);
      assert uploads[..j + 1] == uploads[..j] + [i];
      j := j + 1;
    }
    assert uploads[..j] == uploads;
  }

  /** The client and the server together, with the merge pointed at the directory the uploads use: if
      nothing fails, the original bytes end up under the final path with a matching record. */
  method ChunkedUpload(ctl: FileCtl, tempDir: string, md5: string, file: string, size: nat, uploads: seq<nat>,
                       suffix: string, filename: string, scene: string, mtime: int, writeOk: bool) returns (a: Answer)
    requires ctl.fileStore.root == ctl.config.root
    requires size > 0 && file != "" && ChunkCount(file, size) <= INT_MAX + 1
    requires forall i: nat :: i in uploads <==> i < ChunkCount(file, size)
    requires |md5| >= 4 && filename != "" && '/' !in suffix && Find(tempDir + "/" + md5 + "/", "..", 0).None?
    requires DirView(ctl.fileStore.files, UploadDir(ctl.config.root, tempDir, md5)) == map[]
    requires !(UploadDir(ctl.config.root, tempDir, md5) + "/" <=
               AbsPath(ctl.config.root, scene, md5, Extension(filename)))
    modifies ctl.fileStore, ctl.metaStore
    ensures a == Recorded
    ensures var path := AbsPath(ctl.config.root, scene, md5, Extension(filename));
            path in ctl.fileStore.files && ctl.fileStore.files[path] == file
    ensures IsDigest(md5) && Indexed(old(ctl.metaStore.db)) && md5 !in Docs(old(ctl.metaStore.db)) && writeOk ==>
              && MergeRecorded(ctl.config, md5, filename, scene, mtime, ctl.fileStore.files, ctl.metaStore.db)
              && Docs(ctl.metaStore.db)[md5].size == |file|
              && ctl.fileStore.files[Join(ctl.config.root, Docs(ctl.metaStore.db)[md5].path)] == file
    ensures ctl.metaStore.State() ==
            Save(old(ctl.metaStore.State()), MergedMeta(ctl.config, md5, filename, scene, mtime, |file|), writeOk)
  {
    hide Find, DirView, UploadDir, AbsPath, RelPath, Extension, Save, UploadAll, MergesTo, ChunkCount, IsListingOf;
    hide OnlyDirChanged, MergeOutcome, Gathered, Indexed, Docs, GetMeta, Join;
    var dir := UploadDir(ctl.config.root, tempDir, md5);
    UploadChunks(ctl, tempDir, md5, file, size, uploads, suffix);
    ghost var files := ctl.fileStore.files;
    var names := ListDirectory(ctl.fileStore.files, dir);
    a := ctl.HandleMerge(dir, names, md5, filename, scene, mtime, NO_MERGE_FAULTS, writeOk);
    ghost var view := DirView(files, dir);
    assert view - {} == view;
    ghost var merged :| MergesTo(view - {}, names, merged) &&
      (ctl.fileStore.files, a) ==
      MergeOutcome(ctl.config.root, files, dir, md5, filename, scene, merged, NO_MERGE_FAULTS);
    MergeRestores(file, size, uploads, names, merged);
    MergeOutcomeMeans(ctl.config.root, files, dir, md5, filename, scene, merged, NO_MERGE_FAULTS);
  }

  /** The same as shipped: the merge looks in another directory. Unless files happen to lie there, it is
      refused and nothing is recorded, whatever was uploaded. */
  method ChunkedUploadAsShipped(ctl: FileCtl, tempDir: string, md5: string, file: string, size: nat,
                                uploads: seq<nat>, suffix: string, filename: string, scene: string, mtime: int,
                                writeOk: bool) returns (a: Answer)
    requires ctl.fileStore.root == ctl.config.root
    requires size > 0 && forall i :: i in uploads ==> i < ChunkCount(file, size)
    requires md5 != "" && '/' !in suffix && Find(tempDir + "/" + md5 + "/", "..", 0).None?
    requires tempDir != "" && tempDir[0] != '/' && tempDir[|tempDir| - 1] != '/' && md5[0] != '/'
    requires DirView(ctl.fileStore.files, UploadDir(ctl.config.root, tempDir, md5)) == map[]
    requires DirView(ctl.fileStore.files, MergeDir(ctl.config.root, tempDir, md5)) == map[]
    modifies ctl.fileStore, ctl.metaStore
    ensures a == Refused && ctl.metaStore.State() == old(ctl.metaStore.State())
    ensures DirView(ctl.fileStore.files, UploadDir(ctl.config.root, tempDir, md5)) ==
            UploadAll(map[], file, size, uploads)
  {
    hide Find, DirView, UploadDir, MergeDir, UploadAll, MergesTo, ChunkCount, IsListingOf;
    hide OnlyDirChanged, MergeOutcome, Save, AbsPath, Extension, MergeRecorded, Indexed, Docs;
    var dir := MergeDir(ctl.config.root, tempDir, md5);
    ghost var files := ctl.fileStore.files;
    Directories(ctl.config.root, tempDir, md5);
    UploadChunks(ctl, tempDir, md5, file, size, uploads, suffix);
    ghost var uploaded := ctl.fileStore.files;
    OtherDirsKept(files, uploaded, UploadDir(ctl.config.root, tempDir, md5), dir);
    var names := ListDirectory(ctl.fileStore.files, dir);
    NothingListed(names);
    a := ctl.HandleMerge(dir, names, md5, filename, scene, mtime, NO_MERGE_FAULTS, writeOk);
    if filename != "" {
      ghost var merged :| MergesTo(DirView(uploaded, dir) - {}, names, merged) &&
        (ctl.fileStore.files, a) ==
        MergeOutcome(ctl.config.root, uploaded, dir, md5, filename, scene, merged, NO_MERGE_FAULTS);
      NothingMerged(DirView(uploaded, dir) - {}, merged);
      MergeRefused(ctl.config.root, uploaded, dir, md5, filename, scene);
    }
  }

  lemma NothingListed(names: seq<string>)
    requires IsListingOf(names, map[])
    ensures names == []
  {
    if names != [] { FirstMember(names); }
  }

  lemma FirstMember(names: seq<string>)
    requires names != []
    ensures names[0] in names
  {
  }

  lemma NothingMerged(dir: Dir, r: MergeResult)
    requires MergesTo(dir, [], r)
    ensures r == NoChunks
  {
  }

  lemma MergeRefused(root: string, files: Files, dirPath: string, md5: string, filename: string, scene: string)
    ensures MergeOutcome(root, files, dirPath, md5, filename, scene, NoChunks, NO_MERGE_FAULTS) == (files, Refused)
  {
  }

  lemma NothingUploaded(file: string, size: nat)
    ensures UploadAll(map[], file, size, []) == map[]
  {
  }

  /** What the chunk handler asks of the next slice. */
  lemma SliceReady(files: Files, dir: string, tempDir: string, md5: string, file: string, size: nat,
                   done: seq<nat>, i: nat, suffix: string)
    requires size > 0 && i < ChunkCount(file, size) && '/' !in suffix
    requires Find(tempDir + "/" + md5 + "/", "..", 0).None?
    requires DirView(files, dir) == UploadAll(map[], file, size, done)
    ensures Dec(i) != "" && '/' !in Dec(i) && Slice(file, size, i) != ""
    ensures Find(tempDir + "/" + md5 + "/" + Dec(i), "..", 0).None?
    ensures TempPath(dir + "/" + Dec(i), suffix) !in files
  {
    hide DirView, UploadAll, ChunkCount, Offset, Find, Dec;
    OffsetStep(file, size, i);
    NoDotsAdded(tempDir + "/" + md5 + "/", Dec(i));
    EmptyHolds(file, size);
    UploadsHold(map[], file, size, done, {});
    var n := TempPath(Dec(i), suffix);
    TempNotDecimal(i, suffix);
    assert TempPath(dir + "/" + Dec(i), suffix) == dir + "/" + n;
    DirViewHas(files, dir, n);
  }

  lemma TempNotDecimal(i: nat, suffix: string)
    requires '/' !in suffix
    ensures !IsDecimal(TempPath(Dec(i), suffix)) && '/' !in TempPath(Dec(i), suffix)
  {
    var n := TempPath(Dec(i), suffix);
    assert n[|Dec(i)|] == '.';
    assert forall k :: 0 <= k < |Dec(i)| ==> IsDigit(Dec(i)[k]);
    assert '/' !in Dec(i) && '/' !in ".tmp.";
    forall m: nat ensures n != Dec(m) {
      assert AllDigits(Dec(m));
    }
  }

  /** A path ending in a slash gets no double dot from a number. */
  lemma NoDotsAdded(p: string, d: string)
    requires Find(p, "..", 0).None? && p != "" && p[|p| - 1] == '/' && AllDigits(d)
    ensures Find(p + d, "..", 0).None?
  {
    hide Find;
    forall j: nat ensures !At(p + d, "..", j) {
      if At(p + d, "..", j) {
        AtChar(p + d, "..", j, 0);
        AtChar(p + d, "..", j, 1);
        if j + 2 <= |p| { AtAppend(p, d, "..", j); }
      }
    }
  }

  function MergedMeta(c: Config, md5: string, filename: string, scene: string, mtime: int, size: nat): MetaFile
    requires |md5| >= 4
  {
    MetaFile(md5, RelPath(scene, md5, Extension(filename)), filename, "", scene, "", size, mtime, NORMAL,
             false, 0, 0, [], 0, [], [c.peer])
  }

  lemma SameView(files: Files, dirPath: string, names: seq<string>, content: Dir)
    requires IsListingOf(names, DirView(files, dirPath))
    requires content == map n | n in names && dirPath + "/" + n in files :: files[dirPath + "/" + n]
    ensures content == DirView(files, dirPath)
  {
    forall n ensures n in DirView(files, dirPath) ==> dirPath + "/" + n in files { DirViewHas(files, dirPath, n); }
  }


  // ----- every record has its file -----

  /** The document's file is where its path says, with the recorded size and hash. */
  ghost predicate HasFile(root: string, hash: string -> string, files: Files, m: MetaFile) {
    var p := Join(root, m.path);
    p in files && |files[p]| == m.size && hash(files[p]) == m.md5
  }

  /** The files and the metadata after a sequence of uploads. */
  function RunUploads(c: Config, hash: string -> string, ups: seq<Upload>): World {
    if ups == [] then World(map[], EMPTY)
    else Handle(c, hash, RunUploads(c, hash, ups[..|ups| - 1]), ups[|ups| - 1])
  }

  /** Where this upload leaves a partial file that it cannot remove. */
  function LeavesStuck(c: Config, hash: string -> string, w: World, u: Upload): set<string> {
    var md5 := hash(u.content);
    if Accepted(c, w.store.db, u) && |md5| >= 4 &&
       StuckUpload(c.root, w.files, u.filename, u.content, u.scene, md5, u.faults)
    then {AbsPath(c.root, u.scene, md5, Extension(u.filename))} else {}
  }

  function StuckPaths(c: Config, hash: string -> string, ups: seq<Upload>): set<string> {
    if ups == [] then {} else
      var init := ups[..|ups| - 1];
      StuckPaths(c, hash, init) + LeavesStuck(c, hash, RunUploads(c, hash, init), ups[|ups| - 1])
  }

  /** Hashes are digests, and the contents at hand do not collide. */
  ghost predicate HashOk(hash: string -> string, contents: set<string>) {
    && (forall x :: x in contents ==> IsDigest(hash(x)))
    && (forall x, y :: x in contents && y in contents && hash(x) == hash(y) ==> x == y)
  }

  ghost predicate Generated(m: MetaFile) {
    IsDigest(m.md5) && exists ext :: IsExtension(ext) && m.path == RelPath(m.scene, m.md5, ext)
  }

  /** A file at a generated path holds an uploaded content of the right hash, cut short when stuck. */
  ghost predicate FileOk(hash: string -> string, files: Files, contents: set<string>, stuck: set<string>,
                         p: string, md5: string) {
    if p !in files then p !in stuck
    else exists x :: x in contents && hash(x) == md5 && (if p in stuck then |files[p]| < |x| else files[p] == x)
  }

  ghost predicate FilesOk(root: string, hash: string -> string, files: Files, contents: set<string>,
                          stuck: set<string>) {
    forall scene, md5, ext :: IsDigest(md5) && IsExtension(ext) ==>
      FileOk(hash, files, contents, stuck, AbsPath(root, scene, md5, ext), md5)
  }

  /** A record describes an uploaded content and has some file at its path. */
  ghost predicate RecordOk(root: string, hash: string -> string, files: Files, contents: set<string>, m: MetaFile) {
    && Generated(m) && Join(root, m.path) in files
    && exists x :: x in contents && hash(x) == m.md5 && |x| == m.size
  }

  ghost predicate RecordsOk(root: string, hash: string -> string, w: World, contents: set<string>) {
    forall k :: k in Docs(w.store.db) ==>
      Docs(w.store.db)[k].md5 == k && RecordOk(root, hash, w.files, contents, Docs(w.store.db)[k])
  }

  ghost predicate Inv(root: string, hash: string -> string, w: World, contents: set<string>, stuck: set<string>) {
    && Indexed(w.store.db) && PathComplete(w.store.db)
    && FilesOk(root, hash, w.files, contents, stuck) && RecordsOk(root, hash, w, contents)
  }

  /** Files at generated paths stay. */
  ghost predicate GeneratedKept(root: string, files: Files, files': Files) {
    forall scene, md5, ext :: IsDigest(md5) && IsExtension(ext) && AbsPath(root, scene, md5, ext) in files ==>
      SameAt(files, files', AbsPath(root, scene, md5, ext))
  }

  lemma OtherPathKept(c: Config, hash: string -> string, w: World, u: Upload, contents: set<string>,
                      stuck: set<string>, scene: string, md5: string, ext: string)
    requires IsDigest(hash(u.content)) && '/' !in u.suffix && IsDigest(md5) && IsExtension(ext)
    requires AbsPath(c.root, scene, md5, ext) != AbsPath(c.root, u.scene, hash(u.content), Extension(u.filename))
    requires FileOk(hash, w.files, contents, stuck, AbsPath(c.root, scene, md5, ext), md5)
    ensures var p, w' := AbsPath(c.root, scene, md5, ext), Handle(c, hash, w, u);
            && SameAt(w.files, w'.files, p)
            && FileOk(hash, w'.files, contents, stuck + LeavesStuck(c, hash, w, u), p, md5)
  {
    hide Join, Md5ToRelPath, Extension, TempPath, UploadSaved, RelPath, Accepted, Save, StuckUpload;
    UploadSavedMeans(c.root, w.files, u.filename, u.content, u.scene, hash(u.content), u.suffix, u.faults);
    TempIsNoPath(Join(c.root, u.scene), hash(u.content), Extension(u.filename), u.suffix,
                 Join(c.root, scene), md5, ext);
  }

  lemma OwnPathOk(c: Config, hash: string -> string, w: World, u: Upload, contents: set<string>, stuck: set<string>)
    requires HashOk(hash, contents) && u.content in contents
    requires var md5 := hash(u.content);
             FileOk(hash, w.files, contents, stuck, AbsPath(c.root, u.scene, md5, Extension(u.filename)), md5)
    ensures var md5, w' := hash(u.content), Handle(c, hash, w, u);
            var p := AbsPath(c.root, u.scene, md5, Extension(u.filename));
            && (p in w.files ==> SameAt(w.files, w'.files, p))
            && FileOk(hash, w'.files, contents, stuck + LeavesStuck(c, hash, w, u), p, md5)
  {
    hide Join, AbsPath, Md5ToRelPath, Extension, TempPath, UploadSaved, RelPath, Accepted, Save;
    UploadSavedMeans(c.root, w.files, u.filename, u.content, u.scene, hash(u.content), u.suffix, u.faults);
  }

  lemma HandlingKeepsFiles(c: Config, hash: string -> string, w: World, u: Upload, contents: set<string>,
                           stuck: set<string>)
    requires HashOk(hash, contents) && u.content in contents && '/' !in u.suffix
    requires FilesOk(c.root, hash, w.files, contents, stuck)
    ensures FilesOk(c.root, hash, Handle(c, hash, w, u).files, contents, stuck + LeavesStuck(c, hash, w, u))
    ensures GeneratedKept(c.root, w.files, Handle(c, hash, w, u).files)
  {
    hide AbsPath, Join, Md5ToRelPath, Extension, Handle, LeavesStuck, FileOk;
    var md5, e := hash(u.content), Extension(u.filename);
    var path, w' := AbsPath(c.root, u.scene, md5, e), Handle(c, hash, w, u);
    forall sc, m, x | IsDigest(m) && IsExtension(x)
      ensures FileOk(hash, w'.files, contents, stuck + LeavesStuck(c, hash, w, u), AbsPath(c.root, sc, m, x), m)
      ensures AbsPath(c.root, sc, m, x) in w.files ==> SameAt(w.files, w'.files, AbsPath(c.root, sc, m, x))
    {
      if AbsPath(c.root, sc, m, x) == path {
        SamePathSameMd5(c.root, sc, m, x, u.scene, md5, e);
        OwnPathOk(c, hash, w, u, contents, stuck);
      } else {
        OtherPathKept(c, hash, w, u, contents, stuck, sc, m, x);
      }
    }
  }

  lemma SamePathSameMd5(root: string, a: string, m: string, x: string, b: string, n: string, y: string)
    requires IsDigest(m) && IsDigest(n) && IsExtension(x) && IsExtension(y)
    requires AbsPath(root, a, m, x) == AbsPath(root, b, n, y)
    ensures m == n
  {
    hide Join, Md5ToRelPath;
    PathsInjective(Join(root, a), m, x, Join(root, b), n, y);
  }

  lemma RecordKept(root: string, hash: string -> string, files: Files, files': Files, contents: set<string>,
                   m: MetaFile)
    requires RecordOk(root, hash, files, contents, m) && GeneratedKept(root, files, files')
    ensures RecordOk(root, hash, files', contents, m)
  {
    hide Join, RelPath, AbsPath;
    var ext :| IsExtension(ext) && m.path == RelPath(m.scene, m.md5, ext);
    RecordedPathReads(root, m.scene, m.md5, ext);
    assert SameAt(files, files', AbsPath(root, m.scene, m.md5, ext));
  }

  lemma NewRecordOk(c: Config, hash: string -> string, files: Files, u: Upload, contents: set<string>)
    requires HashOk(hash, contents) && u.content in contents
    requires AbsPath(c.root, u.scene, hash(u.content), Extension(u.filename)) in files
    ensures var m := NewMeta(c, u, hash(u.content), RelPath(u.scene, hash(u.content), Extension(u.filename)));
            RecordOk(c.root, hash, files, contents, m) && Stored(m) == m
  {
    hide Join, RelPath, AbsPath, Extension, Trim;
    var md5, ext := hash(u.content), Extension(u.filename);
    RecordedPathReads(c.root, u.scene, md5, ext);
    var m := NewMeta(c, u, md5, RelPath(u.scene, md5, ext));
    assert IsExtension(ext) && m.path == RelPath(m.scene, m.md5, ext);
    assert Stored(m).shards == m.shards;
  }

  /** Generated paths of different documents differ, so a new document's path is free. */
  lemma NewPathFree(db: Db, m: MetaFile)
    requires Generated(m) && forall k :: k in Docs(db) ==> Docs(db)[k].md5 == k && Generated(Docs(db)[k])
    ensures PathFree(db, m)
  {
    hide Join, Md5ToRelPath;
    var ext :| IsExtension(ext) && m.path == RelPath(m.scene, m.md5, ext);
    forall k | Live(db, k) && k != m.md5 ensures db[k].meta.path != m.path {
      var n := Docs(db)[k];
      var e :| IsExtension(e) && n.path == RelPath(n.scene, n.md5, e);
      if n.path == m.path { PathsInjective(n.scene, n.md5, e, m.scene, m.md5, ext); }
    }
  }

  lemma SaveRecord(s: Store, m: MetaFile, writeOk: bool)
    requires Indexed(s.db) && PathComplete(s.db) && IsDigest(m.md5) && Stored(m) == m && PathFree(s.db, m)
    ensures Indexed(Save(s, m, writeOk).db) && PathComplete(Save(s, m, writeOk).db)
    ensures Docs(Save(s, m, writeOk).db) ==
            if m.md5 !in s.db && writeOk then Docs(s.db)[m.md5 := m] else Docs(s.db)
  {
    hide Indexed, Docs, PathComplete, PathFree;
    if m.md5 !in s.db && writeOk {
      assert DocsOk(s.db) by { IndexedHasDocs(s.db); }
      SaveKeepsIndexed(s, m);
      SavePathExact(s, m);
      SaveDocs(s, m);
    }
  }

  lemma HandlingKeepsRecords(c: Config, hash: string -> string, w: World, u: Upload, contents: set<string>)
    requires HashOk(hash, contents) && u.content in contents
    requires Indexed(w.store.db) && PathComplete(w.store.db) && RecordsOk(c.root, hash, w, contents)
    requires GeneratedKept(c.root, w.files, Handle(c, hash, w, u).files)
    ensures var w' := Handle(c, hash, w, u);
            Indexed(w'.store.db) && PathComplete(w'.store.db) && RecordsOk(c.root, hash, w', contents)
  {
    hide Join, RelPath, AbsPath, Extension, Trim, UploadSaved, Indexed, Docs, Save, Accepted, RecordOk;
    hide PathComplete, PathFree, GeneratedKept;
    var md5, w', db := hash(u.content), Handle(c, hash, w, u), w.store.db;
    forall k | k in Docs(db) ensures RecordOk(c.root, hash, w'.files, contents, Docs(db)[k]) {
      RecordKept(c.root, hash, w.files, w'.files, contents, Docs(db)[k]);
    }
    UploadSavedMeans(c.root, w.files, u.filename, u.content, u.scene, md5, u.suffix, u.faults);
    var (files, r) := UploadSaved(c.root, w.files, u.filename, u.content, u.scene, md5, u.suffix, u.faults);
    if Accepted(c, db, u) && r.SavedAs? && CleanName(c, u.filename) != "" {
      var m := NewMeta(c, u, md5, r.path);
      NewRecordOk(c, hash, files, u, contents);
      forall k | k in Docs(db) ensures Generated(Docs(db)[k]) {
        RecordIsGenerated(c.root, hash, w.files, contents, Docs(db)[k]);
      }
      RecordIsGenerated(c.root, hash, files, contents, m);
      NewPathFree(db, m);
      SaveRecord(w.store, m, u.writeOk);
    }
  }

  lemma RecordIsGenerated(root: string, hash: string -> string, files: Files, contents: set<string>, m: MetaFile)
    requires RecordOk(root, hash, files, contents, m)
    ensures Generated(m)
  {
  }

  /** Suffixes of temporary files are plain digits. */
  ghost predicate PlainSuffixes(ups: seq<Upload>) {
    forall i :: 0 <= i < |ups| ==> '/' !in ups[i].suffix
  }

  lemma {:induction false} UploadsKeepInv(c: Config, hash: string -> string, ups: seq<Upload>, contents: set<string>)
    requires PlainSuffixes(ups) && HashOk(hash, contents) && forall i :: 0 <= i < |ups| ==> ups[i].content in contents
    ensures Inv(c.root, hash, RunUploads(c, hash, ups), contents, StuckPaths(c, hash, ups))
    decreases |ups|
  {
    hide Handle, HashOk, FilesOk, RecordsOk, Indexed, PathComplete, LeavesStuck;
    if ups == [] {
      StartInv(c.root, hash, contents);
    } else {
      var init, u := ups[..|ups| - 1], ups[|ups| - 1];
      UploadsKeepInv(c, hash, init, contents);
      HandlingKeepsFiles(c, hash, RunUploads(c, hash, init), u, contents, StuckPaths(c, hash, init));
      HandlingKeepsRecords(c, hash, RunUploads(c, hash, init), u, contents);
    }
  }

  lemma StartInv(root: string, hash: string -> string, contents: set<string>)
    ensures Inv(root, hash, World(map[], EMPTY), contents, {})
  {
  }

  /** The main result: after every run of uploads, with disk failures at any step and batch writes failing,
      each recorded document is found by its md5 and by its path, and its path names a present file of the
      recorded size and hash, if and only if no write has got stuck at that path. */
  lemma RecordsHaveFiles(c: Config, hash: string -> string, ups: seq<Upload>, md5: string)
    requires PlainSuffixes(ups) && HashOk(hash, set u | u in ups :: u.content)
    requires md5 in Docs(RunUploads(c, hash, ups).store.db)
    ensures var World(files, store) := RunUploads(c, hash, ups);
            var m := Docs(store.db)[md5];
            && GetMeta(store.db, md5) == Some(m) && GetMeta(store.db, m.path) == Some(m)
            && (HasFile(c.root, hash, files, m) <==> Join(c.root, m.path) !in StuckPaths(c, hash, ups))
  {
    hide RunUploads, StuckPaths, HashOk, Indexed, FilesOk, RecordsOk, PathComplete, HasFile;
    var contents := set u | u in ups :: u.content;
    assert forall j :: 0 <= j < |ups| ==> ups[j] in ups;
    UploadsKeepInv(c, hash, ups, contents);
    RecordMeans(c.root, hash, RunUploads(c, hash, ups), contents, StuckPaths(c, hash, ups), md5);
  }

  lemma RecordMeans(root: string, hash: string -> string, w: World, contents: set<string>, stuck: set<string>,
                    md5: string)
    requires Inv(root, hash, w, contents, stuck) && HashOk(hash, contents) && md5 in Docs(w.store.db)
    ensures var m := Docs(w.store.db)[md5];
            && GetMeta(w.store.db, md5) == Some(m) && GetMeta(w.store.db, m.path) == Some(m)
            && (HasFile(root, hash, w.files, m) <==> Join(root, m.path) !in stuck)
  {
    hide Join, RelPath, AbsPath, Indexed;
    var m := Docs(w.store.db)[md5];
    assert RecordOk(root, hash, w.files, contents, m);
    var ext :| IsExtension(ext) && m.path == RelPath(m.scene, m.md5, ext);
    RelPathLong(m.scene, m.md5, ext);
    RecordedPathReads(root, m.scene, m.md5, ext);
    assert FileOk(hash, w.files, contents, stuck, AbsPath(root, m.scene, m.md5, ext), m.md5);
  }

  /** The condition is met by a run: an upload gets stuck, reports an error and leaves its partial file; the
      next upload of the same content takes that file for a duplicate and records it. */
  lemma StuckFileRecorded(c: Config, hash: string -> string, u: Upload)
    requires IsDigest(hash(u.content)) && '/' !in u.suffix
    requires u.content != "" && CheckFileExt(u.filename, c.allowed) && CleanName(c, u.filename) != ""
    requires Stuck(u.content, u.faults) && !u.faults.lookup && !u.faults.dirs
    ensures var World(files, store) := RunUploads(c, hash, [u, u.(faults := NO_FAULTS, writeOk := true)]);
            var md5 := hash(u.content);
            md5 in Docs(store.db) && !HasFile(c.root, hash, files, Docs(store.db)[md5])
  {
    hide Join, RelPath, AbsPath, Extension, Trim, Stuck, CheckFileExt, HasFile, UploadSaved, Docs, GetMeta, Save;
    var md5, ext, v := hash(u.content), Extension(u.filename), u.(faults := NO_FAULTS, writeOk := true);
    var path := AbsPath(c.root, u.scene, md5, ext);
    FirstUpload(c, hash, u);
    var w1 := RunUploads(c, hash, [u]);
    TwoUploads(c, hash, u, v);
    SecondUpload(c, hash, w1, v);
    RecordedPathReads(c.root, u.scene, md5, ext);
    assert forall x :: x in [u, v] ==> x.content == u.content;
    RecordsHaveFiles(c, hash, [u, v], md5);
  }

  lemma TwoUploads(c: Config, hash: string -> string, u: Upload, v: Upload)
    ensures RunUploads(c, hash, [u, v]) == Handle(c, hash, RunUploads(c, hash, [u]), v)
    ensures StuckPaths(c, hash, [u]) <= StuckPaths(c, hash, [u, v])
  {
    hide Handle, LeavesStuck;
    assert [u, v][..1] == [u];
  }

  lemma FirstUpload(c: Config, hash: string -> string, u: Upload)
    requires |hash(u.content)| >= 4 && u.content != "" && CheckFileExt(u.filename, c.allowed)
    requires Stuck(u.content, u.faults) && !u.faults.lookup && !u.faults.dirs
    ensures var path := AbsPath(c.root, u.scene, hash(u.content), Extension(u.filename));
            var w := RunUploads(c, hash, [u]);
            path in w.files && w.store == EMPTY && path in StuckPaths(c, hash, [u])
  {
    hide Join, AbsPath, RelPath, Extension, Trim, Stuck, CheckFileExt, UploadSaved;
    assert [u][..0] == [];
    var md5 := hash(u.content);
    UploadSavedMeans(c.root, map[], u.filename, u.content, u.scene, md5, u.suffix, u.faults);
    assert RunUploads(c, hash, []) == World(map[], EMPTY);
  }

  /** A file already in place is recorded, whatever it holds. */
  lemma SecondUpload(c: Config, hash: string -> string, w: World, v: Upload)
    requires IsDigest(hash(v.content)) && v.content != "" && CheckFileExt(v.filename, c.allowed)
    requires CleanName(c, v.filename) != "" && v.faults == NO_FAULTS && v.writeOk && w.store == EMPTY
    requires AbsPath(c.root, v.scene, hash(v.content), Extension(v.filename)) in w.files
    ensures var md5, docs := hash(v.content), Docs(Handle(c, hash, w, v).store.db);
            md5 in docs && docs[md5].path == RelPath(v.scene, md5, Extension(v.filename))
  {
    hide Join, AbsPath, RelPath, Extension, Trim, CheckFileExt, UploadSaved, Docs;
    var md5 := hash(v.content);
    UploadSavedMeans(c.root, w.files, v.filename, v.content, v.scene, md5, v.suffix, v.faults);
    var m := NewMeta(c, v, md5, RelPath(v.scene, md5, Extension(v.filename)));
    assert DocsOk(EMPTY.db);
    SaveDocs(EMPTY, m);
  }
}
