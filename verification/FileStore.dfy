/**
  The disk store used by one thread at a time: writing through a temporary file with roll-back, saving an
  upload under its md5, and saving a chunk. Injected failures are the fields of `Faults`.
 */
module FileStores {
  import opened TextSearch
  import opened FilePaths
  import opened DiskProtocol

  datatype Faults = Faults(
    lookup: bool, dirs: bool, probe: bool, sizing: bool, opening: bool, write: bool, written: nat,
    close: bool, flushed: nat, rename: bool, status: bool, verifySize: bool, removeBad: bool,
    removeTemp: bool, clean: bool, rollback: bool)

  const NO_FAULTS := Faults(false, false, false, false, false, false, 0, false, 0,
                            false, false, false, false, false, false, false)

  type Files = map<string, string>

  ghost predicate SameAt(a: Files, b: Files, q: string) {
    (q in a <==> q in b) && (q in a ==> a[q] == b[q])
  }

  // ----- one write -----

  /** Both handlers remove the target and report failure; a failing removal lets its exception out. */
  function Cleaned(files: Files, path: string, f: Faults): (Files, Result) {
    if f.clean then (files, Threw) else (files - {path}, No)
  }

  /** After the rename and the check by size. On a wrong size either the removal throws or, the file being
      gone, the size query of the log line does. */
  function Published(files: Files, path: string, data: string, temp: string, f: Faults): (Files, Result)
    requires temp in files
  {
    var renamed := files[path := files[temp]] - {temp};
    if f.rename then Cleaned(files, path, f)
    else if f.status || f.verifySize then Cleaned(renamed, path, f)
    else if |files[temp]| != |data| then Cleaned(if f.removeBad then renamed else renamed - {path}, path, f)
    else (renamed, Yes)
  }

  /** What one write leaves and returns. */
  function Written(files: Files, path: string, data: string, temp: string, f: Faults): (Files, Result) {
    if f.probe || (path in files && f.sizing) then (files, Threw)
    else if HasSize(files, path, |data|) then (files, Yes)
    else if f.opening then (files, No)
    else if f.write then
      var partial := files[temp := Flushed(data, f.written)];
      if f.removeTemp then Cleaned(partial, path, f) else (partial - {temp}, No)
    else Published(files[temp := if f.close then Flushed(data, f.flushed) else data], path, data, temp, f)
  }

  /** The close loses bytes, the file is renamed all the same, and every attempt to remove it fails. */
  predicate Stuck(data: string, f: Faults) {
    !f.probe && !f.opening && !f.write && f.close && f.flushed < |data| && LeftBehind(f)
  }

  predicate LeftBehind(f: Faults) {
    !f.rename && f.clean && (f.status || f.verifySize || f.removeBad)
  }

  /** What a write promises whatever fails: no other file changes; on success the target has the data, or
      kept a content of the same size; otherwise it is absent, untouched or complete, unless stuck. A new
      target is incomplete exactly when the write is stuck, and then it holds what the close left. */
  ghost predicate WroteDisk(before: Files, after: Files, path: string, temp: string, data: string, f: Faults,
                            r: Result) {
    && (forall q :: q != path && q != temp ==> SameAt(before, after, q))
    && (r == Yes ==> path in after && |after[path]| == |data|)
    && (path in after ==> after[path] == data || (path in before && after[path] == before[path]) || Stuck(data, f))
    && (path !in before ==>
          && (path in after && after[path] != data <==> Stuck(data, f))
          && (Stuck(data, f) ==> after[path] == data[..f.flushed] && r == Threw)
          && (r == Yes ==> after[path] == data))
  }

  lemma PublishedMeans(files: Files, path: string, data: string, temp: string, f: Faults)
    requires temp != path && temp in files && files[temp] <= data
    ensures var (after, r) := Published(files, path, data, temp, f);
            && (forall q :: q != path && q != temp ==> SameAt(files, after, q))
            && (r == Yes ==> path in after && after[path] == data)
            && (path in after ==>
                  (path in files && after[path] == files[path]) || after[path] == data ||
                  (files[temp] != data && LeftBehind(f)))
            && (files[temp] != data && LeftBehind(f) ==>
                  path in after && after[path] == files[temp] && r == Threw)
  {
    assert |files[temp]| == |data| ==> files[temp] == data;
  }

  lemma WrittenMeans(files: Files, path: string, data: string, temp: string, f: Faults)
    requires temp != path
    ensures WroteDisk(files, Written(files, path, data, temp, f).0, path, temp, data, f,
                      Written(files, path, data, temp, f).1)
  {
    hide Published;
    if !(f.probe || (path in files && f.sizing) || HasSize(files, path, |data|) || f.opening || f.write) {
      var content := if f.close then Flushed(data, f.flushed) else data;
      var filled := files[temp := content];
      PublishedMeans(filled, path, data, temp, f);
      forall q | q != path && q != temp ensures SameAt(files, Written(files, path, data, temp, f).0, q) {
        assert SameAt(files, filled, q) && SameAt(filled, Published(filled, path, data, temp, f).0, q);
      }
    }
  }

  /** The write gets as far as creating its temporary file. */
  predicate Starts(files: Files, path: string, data: string, f: Faults) {
    !f.probe && !(path in files && f.sizing) && !HasSize(files, path, |data|) && !f.opening
  }

  /** The temporary file is published incomplete, or one of the calls from the rename on fails. */
  predicate GoesWrong(data: string, f: Faults) {
    f.rename || f.status || f.verifySize || (f.close && f.flushed < |data|)
  }

  /** The answer for every combination of failures: true exactly when the file was there with that size or
      nothing went wrong, and an exception exactly when a query fails or the clean-up of a failure does. */
  lemma WrittenAnswer(files: Files, path: string, data: string, temp: string, f: Faults)
    ensures var r := Written(files, path, data, temp, f).1;
            && (r == Yes <==>
                || (!f.probe && !f.sizing && HasSize(files, path, |data|))
                || (Starts(files, path, data, f) && !f.write && !GoesWrong(data, f)))
            && (r == Threw <==>
                || f.probe || (path in files && f.sizing)
                || (Starts(files, path, data, f) && f.clean && if f.write then f.removeTemp else GoesWrong(data, f)))
  {
    if Starts(files, path, data, f) && !f.write {
      var content := if f.close then Flushed(data, f.flushed) else data;
      assert |content| == |data| <==> !(f.close && f.flushed < |data|);
    }
  }

  lemma WrittenWell(files: Files, path: string, data: string, temp: string)
    requires temp != path
    ensures Written(files, path, data, temp, NO_FAULTS) ==
            (if HasSize(files, path, |data|) then files else files[path := data] - {temp}, Yes)
  {
    assert files[temp := data][path := data] - {temp} == files[path := data] - {temp};
  }

  // ----- the write as a run of the protocol -----

  /** The failure that a lone writer meets at each of its steps. */
  function EventAt(pc: Pc, f: Faults): Event {
    match pc
    case Start => Event(0, f.probe, 0)
    case Sizing => Event(0, f.sizing, 0)
    case Opening => Event(0, f.opening, 0)
    case Writing => Event(0, f.write, f.written)
    case Closing => Event(0, f.close, f.flushed)
    case Renaming => Event(0, f.rename, 0)
    case Verifying => Event(0, f.status, 0)
    case VerifySizing => Event(0, f.verifySize, 0)
    case RemovingBad => Event(0, f.removeBad, 0)
    case RemovingTemp => Event(0, f.removeTemp, 0)
    case Cleaning => Event(0, f.clean, 0)
    case _ => Event(0, false, 0)
  }

  function StepsLeft(pc: Pc): nat {
    match pc
    case Start => 10
    case Sizing => 9
    case Opening => 8
    case Writing => 7
    case Closing => 6
    case Renaming => 5
    case Verifying => 4
    case VerifySizing => 3
    case RemovingBad => 2
    case Logging => 1
    case RemovingTemp => 1
    case Cleaning => 0
    case Done(_) => 0
  }

  /** The lone writer stepped until it is done. */
  ghost function Alone(files: Files, w: Writer, path: string, f: Faults): (Files, Result)
    decreases !w.pc.Done?, StepsLeft(w.pc)
  {
    if w.pc.Done? then (files, w.pc.result) else
      var e := EventAt(w.pc, f);
      var (files', pc) := StepWriter(files, w, path, e.fail, e.n);
      Alone(files', w.(pc := pc), path, f)
  }

  lemma AloneSteps(files: Files, w: Writer, path: string, f: Faults, files': Files, pc: Pc)
    requires !w.pc.Done?
    requires (files', pc) == StepWriter(files, w, path, EventAt(w.pc, f).fail, EventAt(w.pc, f).n)
    ensures Alone(files, w, path, f) == Alone(files', w.(pc := pc), path, f)
    ensures pc.Done? ==> Alone(files, w, path, f) == (files', pc.result)
  {
  }

  lemma AloneCleans(files: Files, w: Writer, path: string, f: Faults)
    requires w.pc == Cleaning
    ensures Alone(files, w, path, f) == Cleaned(files, path, f)
  {
    hide Alone;
    var (after, r) := Cleaned(files, path, f);
    AloneSteps(files, w, path, f, after, Done(r));
  }

  lemma AloneRemovesBad(files: Files, w: Writer, path: string, f: Faults)
    requires w.pc == RemovingBad
    ensures Alone(files, w, path, f) == Cleaned(if f.removeBad then files else files - {path}, path, f)
  {
    hide Cleaned, Alone;
    if f.removeBad {
      AloneSteps(files, w, path, f, files, Cleaning);
      AloneCleans(files, w.(pc := Cleaning), path, f);
    } else {
      AloneSteps(files, w, path, f, files - {path}, Logging);
      AloneSteps(files - {path}, w.(pc := Logging), path, f, files - {path}, Cleaning);
      AloneCleans(files - {path}, w.(pc := Cleaning), path, f);
    }
  }

  lemma AloneVerifies(files: Files, w: Writer, path: string, f: Faults)
    requires w.pc == Verifying && path in files
    ensures Alone(files, w, path, f) ==
            if f.status || f.verifySize then Cleaned(files, path, f)
            else if |files[path]| != |w.data| then Cleaned(if f.removeBad then files else files - {path}, path, f)
            else (files, Yes)
  {
    hide Cleaned, Alone;
    AloneCleans(files, w.(pc := Cleaning), path, f);
    AloneRemovesBad(files, w.(pc := RemovingBad), path, f);
    if f.status {
      AloneSteps(files, w, path, f, files, Cleaning);
    } else {
      AloneSteps(files, w, path, f, files, VerifySizing);
      var pc := if f.verifySize then Cleaning else if |files[path]| == |w.data| then Done(Yes) else RemovingBad;
      AloneSteps(files, w.(pc := VerifySizing), path, f, files, pc);
    }
  }

  lemma AlonePublishes(files: Files, w: Writer, path: string, f: Faults)
    requires w.pc == Renaming && w.temp in files && w.temp != path
    ensures Alone(files, w, path, f) == Published(files, path, w.data, w.temp, f)
  {
    hide Cleaned, Alone;
    var renamed := files[path := files[w.temp]] - {w.temp};
    if f.rename {
      AloneSteps(files, w, path, f, files, Cleaning);
      AloneCleans(files, w.(pc := Cleaning), path, f);
    } else {
      AloneSteps(files, w, path, f, renamed, Verifying);
      AloneVerifies(renamed, w.(pc := Verifying), path, f);
    }
  }

  lemma AloneOpens(files: Files, w: Writer, path: string, f: Faults)
    requires w.pc == Opening && w.temp != path && !HasSize(files, path, |w.data|) && !f.probe
    requires !(path in files && f.sizing)
    ensures Alone(files, w, path, f) == Written(files, path, w.data, w.temp, f)
  {
    hide Cleaned, Published, Flushed, Alone;
    var blank := files[w.temp := ""];
    var partial := files[w.temp := Flushed(w.data, f.written)];
    var closed := files[w.temp := if f.close then Flushed(w.data, f.flushed) else w.data];
    if f.opening {
      AloneSteps(files, w, path, f, files, Done(No));
    } else {
      AloneSteps(files, w, path, f, blank, Writing);
      assert blank[w.temp := Flushed(w.data, f.written)] == partial && partial[w.temp := closed[w.temp]] == closed;
      if f.write {
        AloneSteps(blank, w.(pc := Writing), path, f, partial, RemovingTemp);
        AloneRemovesTemp(partial, w.(pc := RemovingTemp), path, f);
      } else {
        AloneSteps(blank, w.(pc := Writing), path, f, partial, Closing);
        AloneSteps(partial, w.(pc := Closing), path, f, closed, Renaming);
        AlonePublishes(closed, w.(pc := Renaming), path, f);
      }
    }
  }

  lemma AloneRemovesTemp(files: Files, w: Writer, path: string, f: Faults)
    requires w.pc == RemovingTemp
    ensures Alone(files, w, path, f) == if f.removeTemp then Cleaned(files, path, f) else (files - {w.temp}, No)
  {
    hide Cleaned, Alone;
    if f.removeTemp {
      AloneSteps(files, w, path, f, files, Cleaning);
      AloneCleans(files, w.(pc := Cleaning), path, f);
    } else {
      AloneSteps(files, w, path, f, files - {w.temp}, Done(No));
    }
  }

  lemma AloneWrites(files: Files, w: Writer, path: string, f: Faults)
    requires w.pc == Start && w.temp != path
    ensures Alone(files, w, path, f) == Written(files, path, w.data, w.temp, f)
  {
    hide Cleaned, Published, Flushed, Alone;
    AloneSteps(files, w, path, f, files, if f.probe then Done(Threw) else if path in files then Sizing else Opening);
    if !f.probe && path in files {
      AloneSteps(files, w.(pc := Sizing), path, f, files,
                 if f.sizing then Done(Threw) else if |files[path]| == |w.data| then Done(Yes) else Opening);
    }
    if !f.probe && !(path in files && f.sizing) && !HasSize(files, path, |w.data|) {
      AloneOpens(files, w.(pc := Opening), path, f);
    }
  }

  lemma {:induction false} AloneRuns(files: Files, w: Writer, path: string, f: Faults) returns (events: seq<Event>)
    ensures var (after, r) := Alone(files, w, path, f);
            Run(Disk(files, map[0 := w]), path, events) == Disk(after, map[0 := w.(pc := Done(r))])
    decreases !w.pc.Done?, StepsLeft(w.pc)
  {
    if w.pc.Done? {
      events := [];
    } else {
      hide Alone, Next;
      var e := EventAt(w.pc, f);
      var (files', pc) := StepWriter(files, w, path, e.fail, e.n);
      Descends(files, w, path, f);
      hide StepWriter, EventAt;
      var rest := AloneRuns(files', w.(pc := pc), path, f);
      events := [e] + rest;
      assert events[1..] == rest;
      AloneSteps(files, w, path, f, files', pc);
      LoneNext(files, w, path, f, files', pc);
    }
  }

  lemma Descends(files: Files, w: Writer, path: string, f: Faults)
    requires !w.pc.Done?
    ensures var (files', pc) := StepWriter(files, w, path, EventAt(w.pc, f).fail, EventAt(w.pc, f).n);
            pc.Done? || StepsLeft(pc) < StepsLeft(w.pc)
  {
  }

  lemma LoneNext(files: Files, w: Writer, path: string, f: Faults, files': Files, pc: Pc)
    requires !w.pc.Done?
    requires (files', pc) == StepWriter(files, w, path, EventAt(w.pc, f).fail, EventAt(w.pc, f).n)
    ensures Next(Disk(files, map[0 := w]), path, EventAt(w.pc, f)) == Disk(files', map[0 := w.(pc := pc)])
  {
    hide StepWriter;
    assert EventAt(w.pc, f).w == 0;
    assert map[0 := w][0 := w.(pc := pc)] == map[0 := w.(pc := pc)];
  }

  /** The sequential write is the concurrent protocol run by one thread, failure by failure. */
  lemma WriteIsProtocolRun(files: Files, path: string, data: string, temp: string, f: Faults)
    requires temp != path
    ensures exists events ::
              Run(Disk(files, map[0 := Writer(temp, data, Start)]), path, events) ==
              Disk(Written(files, path, data, temp, f).0,
                   map[0 := Writer(temp, data, Done(Written(files, path, data, temp, f).1))])
  {
    hide Written, Run, Alone;
    var w := Writer(temp, data, Start);
    AloneWrites(files, w, path, f);
    var events := AloneRuns(files, w, path, f);
  }

  // ----- saving uploads and chunks -----

  datatype Saved = SavedAs(path: string) | Failed | Raised

  /** Saving an upload under an md5: a file already at that path counts as saved. */
  function UploadSaved(root: string, files: Files, filename: string, data: string, scene: string, md5: string,
                       suffix: string, f: Faults): (Files, Saved) {
    if |md5| < 4 || f.lookup then (files, Raised) else
      var ext := Extension(filename);
      var path := AbsPath(root, scene, md5, ext);
      if path in files then (files, SavedAs(RelPath(scene, md5, ext)))
      else if f.dirs then (files, Failed)
      else
        var (after, w) := Written(files, path, data, TempPath(path, suffix), f);
        (after, match w case Yes => SavedAs(RelPath(scene, md5, ext)) case No => Failed case Threw => Raised)
  }

  /** The write happens and leaves a partial file that it cannot remove. */
  predicate StuckUpload(root: string, files: Files, filename: string, data: string, scene: string, md5: string,
                        f: Faults)
    requires |md5| >= 4
  {
    AbsPath(root, scene, md5, Extension(filename)) !in files && !f.lookup && !f.dirs && Stuck(data, f)
  }

  /** The upload is answered with its path exactly when a file is there already or the write reports
      success, and raises exactly when the look-up or the write does; success means that a file is there; a
      present file stays as it is; nothing else has changed; and a new file is incomplete exactly when the
      write took place and got stuck. */
  lemma UploadSavedMeans(root: string, files: Files, filename: string, data: string, scene: string, md5: string,
                         suffix: string, f: Faults)
    requires |md5| >= 4
    ensures var (after, r) := UploadSaved(root, files, filename, data, scene, md5, suffix, f);
            var path := AbsPath(root, scene, md5, Extension(filename));
            var stuck := StuckUpload(root, files, filename, data, scene, md5, f);
            && (r.SavedAs? <==>
                !f.lookup &&
                (path in files || (!f.dirs && Starts(files, path, data, f) && !f.write && !GoesWrong(data, f))))
            && (r.Raised? <==>
                f.lookup || (path !in files && !f.dirs &&
                             (f.probe || (Starts(files, path, data, f) && f.clean &&
                                          if f.write then f.removeTemp else GoesWrong(data, f)))))
            && (r.SavedAs? ==> path in after && r.path == RelPath(scene, md5, Extension(filename)))
            && (path in files ==> after == files)
            && (forall q :: q != path && q != TempPath(path, suffix) ==> SameAt(files, after, q))
            && (path !in files ==> (path in after && after[path] != data <==> stuck))
            && (stuck ==> after[path] == data[..f.flushed])
            && (path !in files && r.SavedAs? ==> after[path] == data)
  {
    hide AbsPath, RelPath, Extension, Written, GoesWrong;
    var path := AbsPath(root, scene, md5, Extension(filename));
    WrittenMeans(files, path, data, TempPath(path, suffix), f);
    WrittenAnswer(files, path, data, TempPath(path, suffix), f);
  }

  /** Saving a chunk; it is removed again when the write reported failure, and an exception passes. */
  function ChunkSaved(root: string, files: Files, data: string, relPath: string, suffix: string, f: Faults)
    : (Files, Result) {
    if Find(relPath, "..", 0).Some? || f.dirs then (files, No) else
      var path := Join(root, relPath);
      var (after, r) := Written(files, path, data, TempPath(path, suffix), f);
      (if r == No && !f.rollback then after - {path} else after, r)
  }

  /** The answer for every combination of failures. Only the chunk's file and its temporary file change, and
      nothing does for a path with two dots or without its directory; success leaves a chunk of that size, the chunk
      itself if there was none; after a reported failure with a working roll-back there is no chunk. */
  lemma ChunkSavedMeans(root: string, files: Files, data: string, relPath: string, suffix: string, f: Faults)
    ensures var (after, r) := ChunkSaved(root, files, data, relPath, suffix, f);
            var path := Join(root, relPath);
            && (forall q :: q != path && q != TempPath(path, suffix) ==> SameAt(files, after, q))
            && (r == Yes <==>
                && Find(relPath, "..", 0).None? && !f.dirs
                && (|| (!f.probe && !f.sizing && HasSize(files, path, |data|))
                    || (Starts(files, path, data, f) && !f.write && !GoesWrong(data, f))))
            && (r == Yes ==> path in after && |after[path]| == |data| && (path !in files ==> after[path] == data))
            && (r == Threw <==>
                && Find(relPath, "..", 0).None? && !f.dirs
                && (f.probe || (path in files && f.sizing) ||
                    (Starts(files, path, data, f) && f.clean && if f.write then f.removeTemp else GoesWrong(data, f))))
            && (Find(relPath, "..", 0).Some? || f.dirs ==> after == files)
            && (r == No && Find(relPath, "..", 0).None? && !f.dirs && !f.rollback ==> path !in after)
  {
    hide Find, Join, Written, GoesWrong, Starts;
    var path := Join(root, relPath);
    WrittenMeans(files, path, data, TempPath(path, suffix), f);
    WrittenAnswer(files, path, data, TempPath(path, suffix), f);
    forall q | q != path && q != TempPath(path, suffix)
      ensures SameAt(files, ChunkSaved(root, files, data, relPath, suffix, f).0, q)
    {
      assert SameAt(files, Written(files, path, data, TempPath(path, suffix), f).0, q);
    }
  }

  /** Without failures exactly the chunk's file is set. */
  lemma ChunkSavedWell(root: string, files: Files, data: string, relPath: string, suffix: string)
    requires Find(relPath, "..", 0).None?
    ensures var path := Join(root, relPath);
            ChunkSaved(root, files, data, relPath, suffix, NO_FAULTS) ==
            (if HasSize(files, path, |data|) then files else files[path := data] - {TempPath(path, suffix)}, Yes)
  {
    hide Find, Join, Written;
    var path := Join(root, relPath);
    WrittenWell(files, path, data, TempPath(path, suffix));
  }

  /** A temporary file is left exactly when its rename, or its removal after a failed write, fails. */
  lemma ChunkLeftover(root: string, files: Files, data: string, relPath: string, suffix: string, f: Faults)
    requires Find(relPath, "..", 0).None? && TempPath(Join(root, relPath), suffix) !in files
    ensures var path := Join(root, relPath);
            TempPath(path, suffix) in ChunkSaved(root, files, data, relPath, suffix, f).0 <==>
            && !f.dirs && !f.probe && !(path in files && f.sizing) && !HasSize(files, path, |data|) && !f.opening
            && (if f.write then f.removeTemp else f.rename)
  {
    hide Find, Join, Written;
    var path := Join(root, relPath);
    WrittenTemp(files, path, data, TempPath(path, suffix), f);
  }

  lemma WrittenTemp(files: Files, path: string, data: string, temp: string, f: Faults)
    requires temp != path && temp !in files
    ensures temp in Written(files, path, data, temp, f).0 <==>
            && !f.probe && !(path in files && f.sizing) && !HasSize(files, path, |data|) && !f.opening
            && (if f.write then f.removeTemp else f.rename)
  {
  }

  class FileStore {
    const root: string
    var files: Files

    constructor (root: string)
      ensures this.root == root && files == map[]
    {
      this.root := root;
      files := map[];
    }

    method WriteDisk(path: string, data: string, temp: string, f: Faults) returns (r: Result)
      requires temp != path
      modifies this
      ensures (files, r) == Written(old(files), path, data, temp, f)
      ensures WroteDisk(old(files), files, path, temp, data, f, r)
    {
      hide WroteDisk;
      WrittenMeans(files, path, data, temp, f);
      if f.probe { return Threw; }
      if path in files {
        if f.sizing { return Threw; }
        if |files[path]| == |data| { return Yes; }
      }
      if f.opening { return No; }
      files := files[temp := Flushed(data, f.written)];
      if f.write {
        if f.removeTemp {
          r := CatchBlock(path, f);
          return;
        }
        files := files - {temp};
        return No;
      }
      var content := if f.close then Flushed(data, f.flushed) else data;
      assert files[temp := content] == old(files)[temp := content];
      files := files[temp := content];
      if f.rename {
        r := CatchBlock(path, f);
        return;
      }
      files := files[path := content] - {temp};
      if f.status || f.verifySize {
        r := CatchBlock(path, f);
        return;
      }
      if |content| != |data| {
        if !f.removeBad { files := files - {path}; }
        r := CatchBlock(path, f);
        return;
      }
      return Yes;
    }

    method CatchBlock(path: string, f: Faults) returns (r: Result)
      modifies this
      ensures (files, r) == Cleaned(old(files), path, f)
    {
      if f.clean { return Threw; }
      files := files - {path};
      return No;
    }

    /** The md5 is computed here when the caller gives none. */
    method SaveUpload(filename: string, data: string, scene: string, md5: string, hash: string -> string,
                      suffix: string, f: Faults) returns (r: Saved)
      modifies this
      ensures var id := if md5 == "" then hash(data) else md5;
              (files, r) == UploadSaved(root, old(files), filename, data, scene, id, suffix, f)
    {
      hide Written, WroteDisk, AbsPath, RelPath, Extension;
      var id := if md5 == "" then hash(data) else md5;
      if |id| < 4 { return Raised; }
      var ext := Extension(filename);
      var path := AbsPath(root, scene, id, ext);
      if f.lookup { return Raised; }
      if path in files { return SavedAs(RelPath(scene, id, ext)); }
      if f.dirs { return Failed; }
      var w := WriteDisk(path, data, TempPath(path, suffix), f);
      match w
      case Yes => return SavedAs(RelPath(scene, id, ext));
      case No => return Failed;
      case Threw => return Raised;
    }

    method SaveChunk(data: string, relPath: string, suffix: string, f: Faults) returns (r: Result)
      modifies this
      ensures (files, r) == ChunkSaved(root, old(files), data, relPath, suffix, f)
    {
      hide Written, WroteDisk, Join, Find;
      if Find(relPath, "..", 0).Some? { return No; }
      var path := Join(root, relPath);
      if f.dirs { return No; }
      r := WriteDisk(path, data, TempPath(path, suffix), f);
      if r == No && !f.rollback { files := files - {path}; }
    }
  }
}
