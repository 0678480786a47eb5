/**
  Chunk directories on disk: which directory each handler uses, what saving a chunk does to it, and a failed
  write whose retry makes the merge return the chunk twice.
 */
module ChunkDirs {
  import opened Lex
  import opened Decimal
  import opened TextSearch
  import opened FilePaths
  import opened DiskProtocol
  import opened FileStores
  import opened Chunks

  function UploadDir(root: string, tempDir: string, md5: string): string {
    Join(root, tempDir + "/" + md5)
  }

  /** The directory that the progress query scans. */
  function QueryDir(root: string, tempDir: string, md5: string): string {
    root + "/" + tempDir + "/" + md5
  }

  /** The directory that the merge scans: its name has a blank after the root's slash. */
  function MergeDir(root: string, tempDir: string, md5: string): string {
    Join(root + "/ " + tempDir, md5)
  }

  /** The merge scans what the query would for a temporary directory with a blank in front. The progress
      query scans the upload directory exactly when the root is a proper name; the merge
      never does, for relative temporary directories and md5s. */
  lemma Directories(root: string, tempDir: string, md5: string)
    requires tempDir != "" && tempDir[0] != '/' && tempDir[|tempDir| - 1] != '/' && (md5 == "" || md5[0] != '/')
    ensures UploadDir(root, tempDir, md5) == QueryDir(root, tempDir, md5) <==> Separator(root) == "/"
    ensures MergeDir(root, tempDir, md5) != UploadDir(root, tempDir, md5)
    ensures MergeDir(root, tempDir, md5) == QueryDir(root, " " + tempDir, md5)
  {
    JoinRelative(root, tempDir + "/" + md5);
    JoinRelative(root + "/ " + tempDir, md5);
    var q := QueryDir(root, tempDir, md5);
    assert q == root + "/" + (tempDir + "/" + md5);
    assert |MergeDir(root, tempDir, md5)| > |UploadDir(root, tempDir, md5)|;
    if Separator(root) != "/" { assert |UploadDir(root, tempDir, md5)| < |q|; }
  }

  predicate InDir(dirPath: string, p: string) {
    dirPath + "/" <= p && '/' !in p[|dirPath| + 1..]
  }

  /** The regular files of a directory by name. */
  ghost function DirView(files: Files, dirPath: string): Dir {
    map n | n in (set p | p in files && InDir(dirPath, p) :: p[|dirPath| + 1..]) && dirPath + "/" + n in files ::
      files[dirPath + "/" + n]
  }

  lemma DirViewHas(files: Files, dirPath: string, n: string)
    ensures n in DirView(files, dirPath) <==> '/' !in n && dirPath + "/" + n in files
  {
    var p := dirPath + "/" + n;
    assert p[|dirPath| + 1..] == n;
    assert dirPath + "/" <= p;
    if n in DirView(files, dirPath) {
      var q :| q in files && InDir(dirPath, q) && q[|dirPath| + 1..] == n;
    }
    if '/' !in n && p in files { assert InDir(dirPath, p) && p[|dirPath| + 1..] == n; }
  }

  /** The names in a directory, in the arbitrary order of a directory iterator. */
  method ListDirectory(files: Files, dirPath: string) returns (names: seq<string>)
    ensures IsListingOf(names, DirView(files, dirPath))
  {
    names := [];
    var rest := set p | p in files && InDir(dirPath, p);
    ghost var dir := DirView(files, dirPath);
    forall p | p in rest
      ensures |p| > |dirPath| && p == dirPath + "/" + p[|dirPath| + 1..] && p[|dirPath| + 1..] in dir
    {
      assert p[..|dirPath| + 1] == dirPath + "/";
      DirViewHas(files, dirPath, p[|dirPath| + 1..]);
    }
    forall n | n in dir ensures dirPath + "/" + n in rest { InView(files, dirPath, n); }
    while rest != {}
      invariant forall p :: p in rest ==>
                  |p| > |dirPath| && p == dirPath + "/" + p[|dirPath| + 1..] && p[|dirPath| + 1..] in dir
      invariant forall i, j :: 0 <= i < j < |names| ==> names[i] != names[j]
      invariant forall n :: n in names ==> n in dir && dirPath + "/" + n !in rest
      invariant forall n :: n in dir ==> n in names || dirPath + "/" + n in rest
      decreases |rest|
    {
      var p :| p in rest;
      var n := p[|dirPath| + 1..];
      forall m ensures dirPath + "/" + m == p <==> m == n { SamePath(dirPath, m, n); }
      rest := rest - {p};
      names := names + [n];
    }
  }

  lemma InView(files: Files, dirPath: string, n: string)
    requires n in DirView(files, dirPath)
    ensures dirPath + "/" + n in files && InDir(dirPath, dirPath + "/" + n)
  {
    DirViewHas(files, dirPath, n);
    var p := dirPath + "/" + n;
    assert p[|dirPath| + 1..] == n && p[..|dirPath| + 1] == dirPath + "/";
  }

  /** What saving a chunk file does to its directory is what the model of the directory says. */
  lemma SavedChunkView(files: Files, dirPath: string, name: string, data: string, suffix: string)
    requires '/' !in name && '/' !in suffix && TempPath(dirPath + "/" + name, suffix) !in files
    ensures var path := dirPath + "/" + name;
            var files' := if HasSize(files, path, |data|) then files
                          else files[path := data] - {TempPath(path, suffix)};
            DirView(files', dirPath) == PutChunk(DirView(files, dirPath), name, data)
  {
    var path := dirPath + "/" + name;
    DirViewHas(files, dirPath, name);
    if !(path in files && |files[path]| == |data|) {
      var files' := files[path := data] - {TempPath(path, suffix)};
      assert |TempPath(path, suffix)| > |path|;
      forall n ensures n in DirView(files', dirPath) <==> n in DirView(files, dirPath)[name := data] {
        DirViewHas(files, dirPath, n);
        DirViewHas(files', dirPath, n);
        SamePath(dirPath, n, name);
      }
      forall n | n in DirView(files', dirPath)
        ensures DirView(files', dirPath)[n] == DirView(files, dirPath)[name := data][n]
      {
        SamePath(dirPath, n, name);
      }
    }
  }

  /** The path of an uploaded chunk lies in the upload directory. */
  lemma ChunkPathInDir(root: string, tempDir: string, md5: string, chunk: string)
    ensures Join(root, tempDir + "/" + md5 + "/" + chunk) == UploadDir(root, tempDir, md5) + "/" + chunk
  {
    var a := tempDir + "/" + md5;
    assert a + ("/" + chunk) == tempDir + "/" + md5 + "/" + chunk;
    JoinAppends(root, a, "/" + chunk);
    assert Join(root, a) + ("/" + chunk) == Join(root, a) + "/" + chunk;
  }

  lemma SamePath(dirPath: string, a: string, b: string)
    ensures dirPath + "/" + a == dirPath + "/" + b <==> a == b
  {
    assert (dirPath + "/" + a)[|dirPath| + 1..] == a && (dirPath + "/" + b)[|dirPath| + 1..] == b;
  }

  // ----- what stays outside the directory -----

  ghost predicate OnlyDirChanged(before: Files, after: Files, dirPath: string) {
    forall q :: !InDir(dirPath, q) ==> SameAt(before, after, q)
  }

  lemma NothingChanged(files: Files, dirPath: string)
    ensures OnlyDirChanged(files, files, dirPath)
  {
  }

  lemma ChangesJoin(a: Files, b: Files, c: Files, dirPath: string)
    requires OnlyDirChanged(a, b, dirPath) && OnlyDirChanged(b, c, dirPath)
    ensures OnlyDirChanged(a, c, dirPath)
  {
    forall q | !InDir(dirPath, q) ensures SameAt(a, c, q) { assert SameAt(a, b, q) && SameAt(b, c, q); }
  }

  /** A chunk's file and its temporary file lie in the directory. */
  lemma ChunkInDir(before: Files, after: Files, dirPath: string, chunk: string, suffix: string)
    requires '/' !in chunk && '/' !in suffix
    requires var path := dirPath + "/" + chunk;
             forall q :: q != path && q != TempPath(path, suffix) ==> SameAt(before, after, q)
    ensures OnlyDirChanged(before, after, dirPath)
  {
    hide SameAt;
    assert (dirPath + "/" + chunk)[|dirPath| + 1..] == chunk;
    assert dirPath + "/" <= dirPath + "/" + chunk && InDir(dirPath, dirPath + "/" + chunk);
    var temp, name := TempPath(dirPath + "/" + chunk, suffix), TempPath(chunk, suffix);
    assert '/' !in name by { assert '/' !in ".tmp."; }
    assert temp == dirPath + "/" + name && temp[|dirPath| + 1..] == name;
    assert InDir(dirPath, temp);
  }

  /** A file lies in one directory only. */
  lemma OneDir(a: string, b: string, q: string)
    requires InDir(a, q) && InDir(b, q)
    ensures a == b
  {
    assert q[..|a| + 1] == a + "/" && q[..|b| + 1] == b + "/";
    assert q == a + ['/'] + q[|a| + 1..] && q == b + ['/'] + q[|b| + 1..];
    LastSeparator('/', a, q[|a| + 1..], b, q[|b| + 1..]);
  }

  lemma OtherDirsKept(before: Files, after: Files, dirPath: string, other: string)
    requires OnlyDirChanged(before, after, dirPath) && other != dirPath
    ensures DirView(after, other) == DirView(before, other)
  {
    hide DirView, InDir;
    forall n ensures n in DirView(after, other) <==> n in DirView(before, other) {
      DirViewHas(before, other, n);
      DirViewHas(after, other, n);
      if '/' !in n { Outside(before, after, dirPath, other, n); }
    }
    forall n | n in DirView(after, other) ensures DirView(after, other)[n] == DirView(before, other)[n] {
      DirViewHas(before, other, n);
      DirViewHas(after, other, n);
      Outside(before, after, dirPath, other, n);
      DirViewAt(before, other, n);
      DirViewAt(after, other, n);
    }
  }

  lemma Outside(before: Files, after: Files, dirPath: string, other: string, n: string)
    requires OnlyDirChanged(before, after, dirPath) && other != dirPath && '/' !in n
    ensures SameAt(before, after, other + "/" + n)
  {
    var q := other + "/" + n;
    assert q[|other| + 1..] == n && q[..|other| + 1] == other + "/";
    assert InDir(other, q);
    if InDir(dirPath, q) { OneDir(dirPath, other, q); }
  }

  lemma DirViewAt(files: Files, dirPath: string, n: string)
    requires n in DirView(files, dirPath)
    ensures dirPath + "/" + n in files && DirView(files, dirPath)[n] == files[dirPath + "/" + n]
  {
  }

  // ----- a failed write and its retry -----

  lemma RetryFiles(root: string, rel: string, data: string, s1: string, s2: string)
    requires s1 != s2 && Find(rel, "..", 0).None?
    ensures var path := Join(root, rel);
            var files := map[TempPath(path, s1) := data];
            && ChunkSaved(root, map[], data, rel, s1, NO_FAULTS.(rename := true)) == (files, No)
            && ChunkSaved(root, files, data, rel, s2, NO_FAULTS) == (files[path := data], Yes)
  {
    hide Find, Join, HasSize;
    var path := Join(root, rel);
    var t1, t2 := TempPath(path, s1), TempPath(path, s2);
    assert t1[|path| + 5..] == s1 && t2[|path| + 5..] == s2;
    var files := map[t1 := data];
    assert files - {path} == files;
    FailedRename(path, data, t1);
    assert path !in files && !HasSize(files, path, |data|) by { NoFile(files, path, |data|); }
    hide Written;
    WrittenWell(files, path, data, t2);
    assert files[path := data] - {t2} == files[path := data];
  }

  lemma NoFile(files: Files, path: string, size: nat)
    requires path !in files
    ensures !HasSize(files, path, size)
  {
  }

  lemma FailedRename(path: string, data: string, temp: string)
    requires temp != path
    ensures Written(map[], path, data, temp, NO_FAULTS.(rename := true)) == (map[temp := data], No)
  {
    assert map[temp := data] - {path} == map[temp := data];
  }

  lemma RetryView(dir: string, data: string, s1: string)
    requires '/' !in s1
    ensures var path := dir + "/" + "0";
            DirView(map[TempPath(path, s1) := data][path := data], dir) == map["0" := data, TempPath("0", s1) := data]
  {
    hide DirView;
    var path, left := dir + "/" + "0", TempPath("0", s1);
    var files := map[TempPath(path, s1) := data][path := data];
    assert TempPath(path, s1) == dir + "/" + left;
    assert '/' !in left by { assert '/' !in ".tmp."; }
    forall n ensures n in DirView(files, dir) <==> n == "0" || n == left {
      DirViewHas(files, dir, n);
      SamePath(dir, n, "0");
      SamePath(dir, n, left);
    }
    forall n | n in DirView(files, dir) ensures DirView(files, dir)[n] == data { DirViewAt(files, dir, n); }
  }

  lemma OneSlice(data: string)
    requires data != ""
    ensures ChunkCount(data, |data|) == 1 && Slice(data, |data|, 0) == data && Dec(0) == "0"
  {
    Ceiling(|data|, |data|, 0);
    Ceiling(|data|, |data|, 1);
    assert data[0..|data|] == data;
  }

  lemma TempPrefix(s: string)
    ensures TempPath("0", "") <= TempPath("0", s)
  {
  }

  lemma RetryHolds(data: string, left: string)
    requires data != "" && LeftoverOf(left, 0)
    ensures HoldsAlso(map["0" := data, left := data], data, |data|, {0}, {left})
  {
    hide Slice, ChunkCount, LeftoverOf;
    OneSlice(data);
    var zero: nat := 0;
    assert zero < ChunkCount(data, |data|) && LeftoverOf(left, zero);
  }

  lemma TwoCopies(data: string, left: string)
    requires data != "" && LeftoverOf(left, 0)
    ensures Gathered(data, |data|, {0}, {left}, 0, 1) == data + data
  {
    hide LeftoverOf, Slice, Stoi;
    OneSlice(data);
    LeftoverReads(left, 0);
    assert Reading({left}, 0) == {left};
    assert Times(data, 2) == data + data by {
      assert Times(data, 0) == "";
      assert Times(data, 1) == data;
    }
    assert Gathered(data, |data|, {0}, {left}, 1, 1) == "";
  }

  /** The first upload of a one-chunk file fails at the rename and leaves its temporary file; the client
      retries and succeeds. Every merge of the directory then returns the content twice. */
  lemma RetriedChunkMergedTwice(root: string, tempDir: string, md5: string, data: string, s1: string, s2: string)
    requires data != "" && '/' !in s1 && s1 != s2 && Find(tempDir + "/" + md5 + "/" + "0", "..", 0).None?
    ensures var path := tempDir + "/" + md5 + "/" + "0";
            var (files, first) := ChunkSaved(root, map[], data, path, s1, NO_FAULTS.(rename := true));
            var (files', second) := ChunkSaved(root, files, data, path, s2, NO_FAULTS);
            var view := DirView(files', UploadDir(root, tempDir, md5));
            && first == No && second == Yes
            && forall names, r :: IsListingOf(names, view) && MergesTo(view, names, r) ==> r == Merged(data + data)
  {
    hide Find, Join, DirView, UploadDir, IsListingOf, MergesTo, TempPath;
    var rel, dir := tempDir + "/" + md5 + "/" + "0", UploadDir(root, tempDir, md5);
    ChunkPathInDir(root, tempDir, md5, "0");
    RetryFiles(root, rel, data, s1, s2);
    RetryView(dir, data, s1);
    var left := TempPath("0", s1);
    var view := map["0" := data, left := data];
    OneSlice(data);
    TempPrefix(s1);
    RetryHolds(data, left);
    TwoCopies(data, left);
    forall names, r | IsListingOf(names, view) && MergesTo(view, names, r) ensures r == Merged(data + data) {
      LeftoversMerged(view, data, |data|, {0}, {left}, names, r);
    }
  }
}
