/**
  Writing one file from many threads: temporary file, atomic rename, check by size, removal on failure.
  Each step below is one file-system call; a failure can be injected at every step, and closing a stream
  can lose buffered bytes without the code noticing.
 */
module DiskProtocol {

  datatype Result = Yes | No | Threw

  datatype Pc =
    | Start        // before exists(target)
    | Sizing       // target existed; before file_size(target), outside the try block
    | Opening      // before opening the temporary file
    | Writing      // bytes are on their way
    | Closing      // the stream was good after the write
    | Renaming     // before rename(temp, target)
    | Verifying    // before status(target)
    | VerifySizing // before file_size(target)
    | RemovingBad  // wrong size: before remove(target)
    | Logging      // the log line asks for file_size(target)
    | RemovingTemp // the write failed: before remove(temp)
    | Cleaning     // in a catch block: before remove(target)
    | Done(result: Result)

  datatype Writer = Writer(temp: string, data: string, pc: Pc)

  datatype Disk = Disk(files: map<string, string>, writers: map<nat, Writer>)

  /** Writer w takes its next step; `fail` injects a failure and n bytes have reached the disk so far. */
  datatype Event = Event(w: nat, fail: bool, n: nat)

  function Flushed(data: string, n: nat): string {
    if n <= |data| then data[..n] else data
  }

  function HasSize(files: map<string, string>, path: string, size: nat): bool {
    path in files && |files[path]| == size
  }

  /** The files and the program counter after one step of one writer. */
  function StepWriter(files: map<string, string>, w: Writer, target: string, fail: bool, n: nat)
    : (map<string, string>, Pc)
  {
    match w.pc
    case Start =>
      if fail then (files, Done(Threw)) else (files, if target in files then Sizing else Opening)
    case Sizing =>
      if fail || target !in files then (files, Done(Threw))
      else (files, if HasSize(files, target, |w.data|) then Done(Yes) else Opening)
    case Opening =>
      if fail then (files, Done(No)) else (files[w.temp := ""], Writing)
    case Writing =>
      (files[w.temp := Flushed(w.data, n)], if fail then RemovingTemp else Closing)
    case Closing =>
      (files[w.temp := if fail then Flushed(w.data, n) else w.data], Renaming)
    case Renaming =>
      if fail || w.temp !in files then (files, Cleaning)
      else (files[target := files[w.temp]] - {w.temp}, Verifying)
    case Verifying =>
      if fail then (files, Cleaning) else (files, if target in files then VerifySizing else RemovingBad)
    case VerifySizing =>
      if fail || target !in files then (files, Cleaning)
      else (files, if HasSize(files, target, |w.data|) then Done(Yes) else RemovingBad)
    case RemovingBad =>
      if fail then (files, Cleaning) else (files - {target}, Logging)
    case Logging =>
      (files, if fail || target !in files then Cleaning else Done(No))
    case RemovingTemp =>
      if fail then (files, Cleaning) else (files - {w.temp}, Done(No))
    case Cleaning =>
      if fail then (files, Done(Threw)) else (files - {target}, Done(No))
    case Done(_) => (files, w.pc)
  }

  function Next(d: Disk, target: string, e: Event): Disk {
    if e.w !in d.writers then d else
      var w := d.writers[e.w];
      var (files, pc) := StepWriter(d.files, w, target, e.fail, e.n);
      Disk(files, d.writers[e.w := w.(pc := pc)])
  }

  function Run(d: Disk, target: string, events: seq<Event>): Disk
    decreases |events|
  {
    if events == [] then d else Run(Next(d, target, events[0]), target, events[1..])
  }

  /** The threads start at the beginning with temporary names of their own. */
  ghost predicate Fresh(d: Disk, target: string) {
    && (forall i :: i in d.writers ==> d.writers[i].pc == Start && d.writers[i].temp != target)
    && (forall i, j :: i in d.writers && j in d.writers && i != j ==> d.writers[i].temp != d.writers[j].temp)
  }

  ghost predicate SameCast(d: Disk, d': Disk) {
    && d.writers.Keys == d'.writers.Keys
    && forall i :: i in d.writers ==> d.writers[i].temp == d'.writers[i].temp && d.writers[i].data == d'.writers[i].data
  }

  // ----- what went wrong so far -----

  /** The writers whose close lost bytes, and those that failed where the code then cleans up. */
  datatype Past = Past(cut: set<nat>, failed: set<nat>)

  const NO_PAST := Past({}, {})

  predicate LosesBytes(d: Disk, e: Event) {
    e.w in d.writers && d.writers[e.w].pc == Closing && e.fail && e.n < |d.writers[e.w].data|
  }

  predicate FailsLate(d: Disk, e: Event) {
    e.w in d.writers && e.fail && d.writers[e.w].pc in {Renaming, Verifying, VerifySizing, RemovingTemp}
  }

  function Remember(past: Past, d: Disk, e: Event): Past {
    Past(if LosesBytes(d, e) then past.cut + {e.w} else past.cut,
         if FailsLate(d, e) then past.failed + {e.w} else past.failed)
  }

  /** What is remembered at the end of a run. */
  function PastAfter(past: Past, d: Disk, target: string, events: seq<Event>): Past
    decreases |events|
  {
    if events == [] then past
    else PastAfter(Remember(past, d, events[0]), Next(d, target, events[0]), target, events[1..])
  }

  /** A rename that does not fail publishes a temporary file that its close cut short. */
  predicate PublishesCut(d: Disk, e: Event, past: Past) {
    e.w in d.writers && d.writers[e.w].pc == Renaming && !e.fail && e.w in past.cut
  }

  ghost predicate CutPublished(d: Disk, target: string, events: seq<Event>, past: Past)
    decreases |events|
  {
    events != [] &&
      (PublishesCut(d, events[0], past) ||
       CutPublished(Next(d, target, events[0]), target, events[1..], Remember(past, d, events[0])))
  }

  // ----- what the target may hold -----

  /** Nothing, what it held at first, or (a prefix of) what one writer carries. */
  ghost predicate TargetOk(d: Disk, target: string, first: map<string, string>, whole: bool) {
    target in d.files ==>
      || (target in first && d.files[target] == first[target])
      || exists i :: i in d.writers && FromWriter(d.writers[i], d.files[target], whole)
  }

  ghost predicate FromWriter(w: Writer, content: string, whole: bool) {
    content <= w.data && (whole ==> content == w.data)
  }

  /** A writer owns its temporary file from opening to renaming; before the rename the file is complete
      exactly when the close lost nothing. */
  ghost predicate TempOk(d: Disk, past: Past, i: nat)
    requires i in d.writers
  {
    var w := d.writers[i];
    && (w.pc in {Writing, Closing, Renaming} ==> w.temp in d.files)
    && (w.pc in {Start, Sizing, Opening, Writing, Closing} ==> i !in past.cut)
    && (w.pc == Renaming ==> d.files[w.temp] <= w.data && (d.files[w.temp] == w.data <==> i !in past.cut))
  }

  ghost predicate TempsOk(d: Disk, target: string, past: Past) {
    && (forall i :: i in d.writers ==> d.writers[i].temp != target && TempOk(d, past, i))
    && (forall i, j :: i in d.writers && j in d.writers && i != j ==> d.writers[i].temp != d.writers[j].temp)
  }

  lemma FreshTempsOk(d: Disk, target: string)
    requires Fresh(d, target)
    ensures TempsOk(d, target, NO_PAST)
  {
  }

  lemma StepTemp(d: Disk, target: string, past: Past, e: Event, i: nat)
    requires TempsOk(d, target, past) && e.w in d.writers && i in d.writers
    ensures TempOk(Next(d, target, e), Remember(past, d, e), i)
  {
    assert TempOk(d, past, i) && TempOk(d, past, e.w);
    if i != e.w { assert d.writers[e.w].temp != d.writers[i].temp; }
  }

  lemma StepKeepsTemps(d: Disk, target: string, past: Past, e: Event)
    requires TempsOk(d, target, past)
    ensures TempsOk(Next(d, target, e), target, Remember(past, d, e)) && SameCast(d, Next(d, target, e))
  {
    if e.w in d.writers {
      var d' := Next(d, target, e);
      assert d'.writers.Keys == d.writers.Keys;
      forall i | i in d'.writers ensures TempOk(d', Remember(past, d, e), i) { StepTemp(d, target, past, e, i); }
    }
  }

  lemma StepTarget(d: Disk, target: string, past: Past, first: map<string, string>, whole: bool, e: Event)
    requires TempsOk(d, target, past) && TargetOk(d, target, first, whole)
    requires whole ==> !PublishesCut(d, e, past)
    ensures TargetOk(Next(d, target, e), target, first, whole)
  {
    if e.w in d.writers {
      var w, d' := d.writers[e.w], Next(d, target, e);
      assert TempOk(d, past, e.w) && w.temp != target;
      if target in d'.files {
        if w.pc == Renaming && !e.fail {
          assert d'.files[target] == d.files[w.temp];
          assert FromWriter(d'.writers[e.w], d'.files[target], whole);
        } else {
          assert target in d.files && d'.files[target] == d.files[target];
          if !(target in first && d.files[target] == first[target]) {
            var i :| i in d.writers && FromWriter(d.writers[i], d.files[target], whole);
            assert FromWriter(d'.writers[i], d'.files[target], whole);
          }
        }
      }
    }
  }

  lemma {:induction false} RunKeepsTarget(d: Disk, target: string, past: Past, first: map<string, string>,
                                          whole: bool, events: seq<Event>)
    requires TempsOk(d, target, past) && TargetOk(d, target, first, whole)
    requires whole ==> !CutPublished(d, target, events, past)
    ensures TargetOk(Run(d, target, events), target, first, whole) && SameCast(d, Run(d, target, events))
    decreases |events|
  {
    hide TempsOk, TargetOk, Next, PublishesCut, Remember;
    if events != [] {
      StepKeepsTemps(d, target, past, events[0]);
      StepTarget(d, target, past, first, whole, events[0]);
      RunKeepsTarget(Next(d, target, events[0]), target, Remember(past, d, events[0]), first, whole, events[1..]);
    }
  }

  /** A path that is neither the target nor anyone's temporary file. */
  ghost predicate Bystander(d: Disk, target: string, q: string) {
    q != target && forall i :: i in d.writers ==> d.writers[i].temp != q
  }

  lemma {:induction false} RunKeepsOthers(d: Disk, target: string, events: seq<Event>, q: string)
    requires Bystander(d, target, q)
    ensures q in Run(d, target, events).files <==> q in d.files
    ensures q in d.files ==> Run(d, target, events).files[q] == d.files[q]
    decreases |events|
  {
    if events != [] {
      var d' := Next(d, target, events[0]);
      assert (q in d'.files <==> q in d.files) && (q in d.files ==> d'.files[q] == d.files[q]);
      RunKeepsOthers(d', target, events[1..], q);
    }
  }

  /** The main result for any writers. Whatever fails and however the threads interleave, no other file is
      touched, and the target holds nothing, its first content, or a prefix of one writer's data: the
      complete data, unless a temporary file that its close cut short has been renamed. Every state of a
      run is covered, since a run may stop anywhere. */
  lemma NeverPartial(d: Disk, target: string, events: seq<Event>)
    requires Fresh(d, target)
    ensures forall q :: Bystander(d, target, q) ==>
              (q in Run(d, target, events).files <==> q in d.files) &&
              (q in d.files ==> Run(d, target, events).files[q] == d.files[q])
    ensures TargetOk(Run(d, target, events), target, d.files, false)
    ensures !CutPublished(d, target, events, NO_PAST) ==> TargetOk(Run(d, target, events), target, d.files, true)
    ensures SameCast(d, Run(d, target, events))
  {
    hide Run, CutPublished;
    forall q | Bystander(d, target, q)
      ensures (q in Run(d, target, events).files <==> q in d.files) &&
              (q in d.files ==> Run(d, target, events).files[q] == d.files[q])
    {
      RunKeepsOthers(d, target, events, q);
    }
    FreshTempsOk(d, target);
    RunKeepsTarget(d, target, NO_PAST, d.files, false, events);
    if !CutPublished(d, target, events, NO_PAST) { RunKeepsTarget(d, target, NO_PAST, d.files, true, events); }
  }

  // ----- writers that carry the same data -----

  ghost predicate SameData(d: Disk, data: string) {
    forall i :: i in d.writers ==> d.writers[i].data == data
  }

  predicate Complete(d: Disk, target: string, data: string) {
    target in d.files && d.files[target] == data
  }

  predicate Partial(d: Disk, target: string, data: string) {
    target in d.files && d.files[target] != data
  }

  /** In some state of the run the target is there without its complete data. */
  ghost predicate ShowsPartial(d: Disk, target: string, events: seq<Event>, data: string)
    decreases |events|
  {
    Partial(d, target, data) || (events != [] && ShowsPartial(Next(d, target, events[0]), target, events[1..], data))
  }

  lemma StepPartial(d: Disk, target: string, past: Past, data: string, e: Event)
    requires TempsOk(d, target, past) && SameData(d, data) && !Partial(d, target, data)
    ensures Partial(Next(d, target, e), target, data) <==> PublishesCut(d, e, past)
    ensures SameData(Next(d, target, e), data)
  {
    if e.w in d.writers { assert TempOk(d, past, e.w); }
  }

  lemma {:induction false} PartialFrom(d: Disk, target: string, past: Past, data: string, events: seq<Event>)
    requires TempsOk(d, target, past) && SameData(d, data) && !Partial(d, target, data)
    ensures ShowsPartial(d, target, events, data) <==> CutPublished(d, target, events, past)
    decreases |events|
  {
    hide TempsOk, Next, PublishesCut, Remember, SameData, Partial;
    if events != [] {
      var d' := Next(d, target, events[0]);
      StepKeepsTemps(d, target, past, events[0]);
      StepPartial(d, target, past, data, events[0]);
      if !PublishesCut(d, events[0], past) {
        PartialFrom(d', target, Remember(past, d, events[0]), data, events[1..]);
      } else {
        assert ShowsPartial(d', target, events[1..], data);
      }
    }
  }

  /** Some state of a run shows a partial file if and only if some rename publishes a temporary file that
      its close cut short. */
  lemma PartialExactly(d: Disk, target: string, data: string, events: seq<Event>)
    requires Fresh(d, target) && SameData(d, data) && (target in d.files ==> d.files[target] == data)
    ensures ShowsPartial(d, target, events, data) <==> CutPublished(d, target, events, NO_PAST)
  {
    hide ShowsPartial, CutPublished;
    FreshTempsOk(d, target);
    PartialFrom(d, target, NO_PAST, data, events);
  }

  // ----- once there, always there -----

  /** The writer that failed late now removes the target. */
  predicate CleansUp(d: Disk, target: string, e: Event, past: Past) {
    e.w in past.failed && e.w in d.writers && d.writers[e.w].pc == Cleaning && !e.fail && target in d.files
  }

  /** Some writer fails at its rename, at its checks or at removing its temporary file and then cleans up
      while the target is there, or some rename publishes a cut file. */
  ghost predicate Harmed(d: Disk, target: string, events: seq<Event>, past: Past)
    decreases |events|
  {
    events != [] &&
      (PublishesCut(d, events[0], past) || CleansUp(d, target, events[0], past) ||
       Harmed(Next(d, target, events[0]), target, events[1..], Remember(past, d, events[0])))
  }

  /** Along the run the target is complete whenever it is there, and never goes away again. */
  ghost predicate Stays(d: Disk, target: string, events: seq<Event>, data: string)
    decreases |events|
  {
    && !Partial(d, target, data)
    && (events != [] ==>
          && (target in d.files ==> target in Next(d, target, events[0]).files)
          && Stays(Next(d, target, events[0]), target, events[1..], data))
  }

  /** Nobody has seen anything wrong except its own late failure, and success implies presence. */
  ghost predicate CalmWriter(d: Disk, target: string, past: Past, i: nat)
    requires i in d.writers
  {
    var pc := d.writers[i].pc;
    && pc !in {RemovingBad, Logging}
    && (pc in {Sizing, Verifying, VerifySizing, Done(Yes)} ==> target in d.files)
    && (pc == Cleaning ==> i in past.failed)
  }

  ghost predicate Calm(d: Disk, target: string, past: Past, data: string) {
    && TempsOk(d, target, past) && SameData(d, data) && !Partial(d, target, data)
    && forall i :: i in d.writers ==> CalmWriter(d, target, past, i)
  }

  lemma StepKeepsThere(d: Disk, target: string, past: Past, data: string, e: Event)
    requires Calm(d, target, past, data) && !CleansUp(d, target, e, past)
    ensures target in d.files ==> target in Next(d, target, e).files
  {
    if e.w in d.writers { assert CalmWriter(d, target, past, e.w) && TempOk(d, past, e.w); }
  }

  lemma StepCalmWriter(d: Disk, target: string, past: Past, data: string, e: Event, i: nat)
    requires Calm(d, target, past, data) && !PublishesCut(d, e, past)
    requires target in d.files ==> target in Next(d, target, e).files
    requires e.w in d.writers && i in d.writers
    ensures CalmWriter(Next(d, target, e), target, Remember(past, d, e), i)
  {
    assert CalmWriter(d, target, past, e.w) && TempOk(d, past, e.w);
    assert CalmWriter(d, target, past, i);
  }

  lemma StepKeepsCalm(d: Disk, target: string, past: Past, data: string, e: Event)
    requires Calm(d, target, past, data) && !PublishesCut(d, e, past) && !CleansUp(d, target, e, past)
    ensures Calm(Next(d, target, e), target, Remember(past, d, e), data)
  {
    hide StepWriter, CalmWriter, TempsOk, Partial;
    StepKeepsTemps(d, target, past, e);
    StepPartial(d, target, past, data, e);
    StepKeepsThere(d, target, past, data, e);
    if e.w in d.writers {
      var d' := Next(d, target, e);
      forall i | i in d'.writers ensures CalmWriter(d', target, Remember(past, d, e), i) {
        StepCalmWriter(d, target, past, data, e, i);
      }
    }
  }

  lemma StepHarms(d: Disk, target: string, past: Past, data: string, e: Event)
    requires Calm(d, target, past, data) && (PublishesCut(d, e, past) || CleansUp(d, target, e, past))
    ensures Partial(Next(d, target, e), target, data) || (target in d.files && target !in Next(d, target, e).files)
  {
    StepPartial(d, target, past, data, e);
  }

  lemma {:induction false} StaysFrom(d: Disk, target: string, past: Past, data: string, events: seq<Event>)
    requires Calm(d, target, past, data)
    ensures Stays(d, target, events, data) <==> !Harmed(d, target, events, past)
    ensures !Harmed(d, target, events, past) ==>
              Calm(Run(d, target, events), target, PastAfter(past, d, target, events), data)
    decreases |events|
  {
    assert !Partial(d, target, data);
    hide Calm, Next, PublishesCut, CleansUp, Remember, Partial;
    if events != [] {
      var e := events[0];
      if PublishesCut(d, e, past) || CleansUp(d, target, e, past) {
        StepHarms(d, target, past, data, e);
      } else {
        StepKeepsThere(d, target, past, data, e);
        StepKeepsCalm(d, target, past, data, e);
        StaysFrom(Next(d, target, e), target, Remember(past, d, e), data, events[1..]);
      }
    }
  }

  lemma FreshCalm(d: Disk, target: string, data: string)
    requires Fresh(d, target) && SameData(d, data) && (target in d.files ==> d.files[target] == data)
    ensures Calm(d, target, NO_PAST, data)
  {
    FreshTempsOk(d, target);
  }

  /** The main result for equal data: once there, the complete file stays through all later states if and
      only if no writer fails late and then cleans up while it is there, and no cut file is renamed. All
      other failures do no harm; and without harm, a writer that returned true has its file there. */
  lemma StaysOnceWritten(d: Disk, target: string, data: string, events: seq<Event>, w: nat)
    requires Fresh(d, target) && SameData(d, data) && (target in d.files ==> d.files[target] == data)
    ensures Stays(d, target, events, data) <==> !Harmed(d, target, events, NO_PAST)
    ensures var m := Run(d, target, events);
            !Harmed(d, target, events, NO_PAST) && w in m.writers && m.writers[w].pc == Done(Yes) ==>
              Complete(m, target, data)
  {
    hide Stays, Harmed, Run, PastAfter, TempsOk;
    FreshCalm(d, target, data);
    StaysFrom(d, target, NO_PAST, data, events);
    if !Harmed(d, target, events, NO_PAST) {
      var m, p := Run(d, target, events), PastAfter(NO_PAST, d, target, events);
      if w in m.writers { assert CalmWriter(m, target, p, w); }
    }
  }

  // ----- what a report of success is worth -----

  /** A target of the size of the data is the data. */
  ghost predicate Sound(d: Disk, target: string, past: Past, data: string) {
    && TempsOk(d, target, past) && SameData(d, data)
    && (target in d.files && |d.files[target]| == |data| ==> d.files[target] == data)
  }

  ghost predicate Reported(d: Disk) {
    exists i :: i in d.writers && d.writers[i].pc == Done(Yes)
  }

  /** The steps that take a complete target away: either removal, or publishing a cut file. */
  predicate Destroys(d: Disk, e: Event, past: Past) {
    e.w in d.writers && !e.fail && (d.writers[e.w].pc in {Cleaning, RemovingBad} || PublishesCut(d, e, past))
  }

  ghost predicate DestroyedAfterReport(d: Disk, target: string, events: seq<Event>, past: Past)
    decreases |events|
  {
    events != [] &&
      ((Reported(d) && Destroys(d, events[0], past)) ||
       DestroyedAfterReport(Next(d, target, events[0]), target, events[1..], Remember(past, d, events[0])))
  }

  /** Along the run, from the first report of success on, the target is complete. */
  ghost predicate ReportsHold(d: Disk, target: string, events: seq<Event>, data: string)
    decreases |events|
  {
    && (Reported(d) ==> Complete(d, target, data))
    && (events != [] ==> ReportsHold(Next(d, target, events[0]), target, events[1..], data))
  }

  lemma StepKeepsSound(d: Disk, target: string, past: Past, data: string, e: Event)
    requires Sound(d, target, past, data)
    ensures Sound(Next(d, target, e), target, Remember(past, d, e), data)
  {
    hide TempsOk, Next, Remember;
    StepKeepsTemps(d, target, past, e);
    StepSize(d, target, past, data, e);
  }

  lemma StepSize(d: Disk, target: string, past: Past, data: string, e: Event)
    requires Sound(d, target, past, data)
    ensures var d' := Next(d, target, e);
            SameData(d', data) && (target in d'.files && |d'.files[target]| == |data| ==> d'.files[target] == data)
  {
    if e.w in d.writers { assert TempOk(d, past, e.w) && d.writers[e.w].temp != target; }
  }

  /** Reporting success takes a complete target, and destroying one is what `Destroys` says. */
  lemma StepReports(d: Disk, target: string, past: Past, data: string, e: Event)
    requires Sound(d, target, past, data)
    ensures e.w in d.writers && d.writers[e.w].pc != Done(Yes) &&
            Next(d, target, e).writers[e.w].pc == Done(Yes) ==>
              Complete(Next(d, target, e), target, data)
    ensures Complete(d, target, data) ==> (Complete(Next(d, target, e), target, data) <==> !Destroys(d, e, past))
  {
    if e.w in d.writers { assert TempOk(d, past, e.w); }
  }

  lemma ReportStep(d: Disk, target: string, past: Past, data: string, e: Event)
    requires Sound(d, target, past, data) && (Reported(d) ==> Complete(d, target, data))
    ensures Reported(d) ==> Reported(Next(d, target, e))
    ensures (Reported(Next(d, target, e)) ==> Complete(Next(d, target, e), target, data)) <==>
            !(Reported(d) && Destroys(d, e, past))
  {
    StepReports(d, target, past, data, e);
    hide Sound;
    var d' := Next(d, target, e);
    if Reported(d) {
      var i :| i in d.writers && d.writers[i].pc == Done(Yes);
      assert i in d'.writers && d'.writers[i].pc == Done(Yes);
    } else if Reported(d') {
      var i :| i in d'.writers && d'.writers[i].pc == Done(Yes);
      assert i == e.w;
    }
  }

  lemma {:induction false} ReportsFrom(d: Disk, target: string, past: Past, data: string, events: seq<Event>)
    requires Sound(d, target, past, data) && (Reported(d) ==> Complete(d, target, data))
    ensures ReportsHold(d, target, events, data) <==> !DestroyedAfterReport(d, target, events, past)
    decreases |events|
  {
    hide Sound, Reported, Complete, Next, Destroys, Remember;
    if events != [] {
      var d' := Next(d, target, events[0]);
      StepKeepsSound(d, target, past, data, events[0]);
      ReportStep(d, target, past, data, events[0]);
      if Reported(d) && Destroys(d, events[0], past) {
        assert !ReportsHold(d', target, events[1..], data);
      } else {
        ReportsFrom(d', target, Remember(past, d, events[0]), data, events[1..]);
      }
    }
  }

  /** The first content of the target is absent, right, or of another size. */
  ghost predicate HarmlessStart(d: Disk, target: string, data: string) {
    target in d.files ==> d.files[target] == data || |d.files[target]| != |data|
  }

  lemma FreshSound(d: Disk, target: string, data: string)
    requires Fresh(d, target) && SameData(d, data) && HarmlessStart(d, target, data)
    ensures Sound(d, target, NO_PAST, data)
  {
    FreshTempsOk(d, target);
  }

  /** With equal data, a file that some writer has reported as written is complete in all later states if
      and only if, after a report, nobody removes it and no cut file is renamed over it. */
  lemma ReportedStays(d: Disk, target: string, data: string, events: seq<Event>)
    requires Fresh(d, target) && SameData(d, data) && HarmlessStart(d, target, data)
    ensures ReportsHold(d, target, events, data) <==> !DestroyedAfterReport(d, target, events, NO_PAST)
  {
    hide ReportsHold, DestroyedAfterReport, Sound;
    FreshSound(d, target, data);
    assert !Reported(d);
    ReportsFrom(d, target, NO_PAST, data, events);
  }

  lemma {:induction false} RunKeepsSound(d: Disk, target: string, past: Past, data: string, events: seq<Event>)
    requires Sound(d, target, past, data)
    ensures Sound(Run(d, target, events), target, PastAfter(past, d, target, events), data)
    decreases |events|
  {
    hide Sound, Next, Remember;
    if events != [] {
      StepKeepsSound(d, target, past, data, events[0]);
      RunKeepsSound(Next(d, target, events[0]), target, Remember(past, d, events[0]), data, events[1..]);
    }
  }

  /** With equal data, whatever fails and whatever was lost, the step that lets a writer return true
      happens with the complete data in place. */
  lemma TrueMeansComplete(d: Disk, target: string, data: string, events: seq<Event>, e: Event)
    requires Fresh(d, target) && SameData(d, data) && HarmlessStart(d, target, data)
    requires var m := Run(d, target, events);
             && e.w in m.writers && m.writers[e.w].pc != Done(Yes)
             && Next(m, target, e).writers[e.w].pc == Done(Yes)
    ensures Complete(Next(Run(d, target, events), target, e), target, data)
  {
    hide Run, PastAfter, Sound, Next;
    FreshSound(d, target, data);
    RunKeepsSound(d, target, NO_PAST, data, events);
    StepReports(Run(d, target, events), target, PastAfter(NO_PAST, d, target, events), data, e);
  }

  // ----- concrete runs -----

  lemma {:induction false} RunJoin(d: Disk, target: string, a: seq<Event>, b: seq<Event>)
    ensures Run(d, target, a + b) == Run(Run(d, target, a), target, b)
    decreases |a|
  {
    if a == [] {
      assert a + b == b;
    } else {
      assert (a + b)[1..] == a[1..] + b;
      RunJoin(Next(d, target, a[0]), target, a[1..], b);
    }
  }

  lemma Unroll(d: Disk, target: string, events: seq<Event>)
    ensures Run(d, target, events) == if events == [] then d else Run(Next(d, target, events[0]), target, events[1..])
  {
  }

  lemma TwoEvents(d: Disk, target: string, a: Event, b: Event)
    ensures Run(d, target, [a, b]) == Next(Next(d, target, a), target, b)
  {
    hide Next;
    assert [a, b][1..] == [b] && [b][1..] == [];
    Unroll(d, target, [a, b]);
    Unroll(Next(d, target, a), target, [b]);
    Unroll(Next(Next(d, target, a), target, b), target, []);
  }

  lemma ThreeEvents(d: Disk, target: string, a: Event, b: Event, c: Event)
    ensures Run(d, target, [a, b, c]) == Next(Next(Next(d, target, a), target, b), target, c)
  {
    hide Next;
    assert [a, b, c][1..] == [b, c];
    Unroll(d, target, [a, b, c]);
    TwoEvents(Next(d, target, a), target, b, c);
  }

  /** The first four calls of a writer that finds no target: probe, open, write, and a close that leaves n
      bytes when it fails. */
  function WritePhase(i: nat, fail: bool, n: nat): seq<Event> {
    [Event(i, false, n), Event(i, false, n)] + [Event(i, false, n), Event(i, fail, n)]
  }

  lemma AfterWrite(d: Disk, target: string, i: nat, fail: bool, n: nat)
    requires i in d.writers && d.writers[i].pc == Start && d.writers[i].temp != target && target !in d.files
    ensures var w := d.writers[i];
            Run(d, target, WritePhase(i, fail, n)) ==
            Disk(d.files[w.temp := if fail then Flushed(w.data, n) else w.data], d.writers[i := w.(pc := Renaming)])
  {
    hide Flushed;
    var a, b := Event(i, false, n), Event(i, fail, n);
    var w := d.writers[i];
    var d2 := Disk(d.files[w.temp := ""], d.writers[i := w.(pc := Writing)]);
    TwoEvents(d, target, a, a);
    assert Next(Next(d, target, a), target, a) == d2;
    TwoEvents(d2, target, a, b);
    var d4 := Disk(d.files[w.temp := if fail then Flushed(w.data, n) else w.data], d.writers[i := w.(pc := Renaming)]);
    assert Next(Next(d2, target, a), target, b) == d4;
    RunJoin(d, target, [a, a], [a, b]);
  }

  lemma AfterPublish(d: Disk, target: string, i: nat, e: Event)
    requires i in d.writers && d.writers[i].pc == Renaming && d.writers[i].temp != target
    requires d.writers[i].temp in d.files && d.files[d.writers[i].temp] == d.writers[i].data
    requires e == Event(i, false, 0)
    ensures var w := d.writers[i];
            Run(d, target, [e, e, e]) ==
            Disk(d.files[target := w.data] - {w.temp}, d.writers[i := w.(pc := Done(Yes))])
  {
    var w := d.writers[i];
    var files := d.files[target := w.data] - {w.temp};
    var d1 := Disk(files, d.writers[i := w.(pc := Verifying)]);
    var d2 := Disk(files, d.writers[i := w.(pc := VerifySizing)]);
    assert Next(d, target, e) == d1;
    assert Next(d1, target, e) == d2;
    assert Next(d2, target, e) == Disk(files, d.writers[i := w.(pc := Done(Yes))]);
    ThreeEvents(d, target, e, e, e);
  }

  /** From the start: one writer whose close loses bytes exposes a partial file by its rename; its size
      check then removes the file. */
  lemma LossyCloseExposes(target: string, temp: string, data: string, n: nat)
    requires temp != target && n < |data|
    ensures var d := Disk(map[], map[0 := Writer(temp, data, Start)]);
            var ok := Event(0, false, n);
            && Fresh(d, target)
            && Run(d, target, WritePhase(0, true, n) + [ok]).files == map[target := data[..n]]
            && Run(d, target, (WritePhase(0, true, n) + [ok]) + [ok, ok, ok]).files == map[]
  {
    hide WritePhase, Run, Next;
    var d := Disk(map[], map[0 := Writer(temp, data, Start)]);
    var ok := Event(0, false, n);
    AfterWrite(d, target, 0, true, n);
    var d4 := Disk(map[temp := data[..n]], map[0 := Writer(temp, data, Renaming)]);
    assert Run(d, target, WritePhase(0, true, n)) == d4;
    CutRenamed(target, temp, data, n, ok);
    RunJoin(d, target, WritePhase(0, true, n), [ok]);
    SizeCheck(target, Run(d4, target, [ok]), n, ok);
    RunJoin(d, target, WritePhase(0, true, n) + [ok], [ok, ok, ok]);
  }

  lemma CutRenamed(target: string, temp: string, data: string, n: nat, ok: Event)
    requires temp != target && n < |data| && ok == Event(0, false, n)
    ensures Run(Disk(map[temp := data[..n]], map[0 := Writer(temp, data, Renaming)]), target, [ok]) ==
            Disk(map[target := data[..n]], map[0 := Writer(temp, data, Verifying)])
  {
    var d := Disk(map[temp := data[..n]], map[0 := Writer(temp, data, Renaming)]);
    assert d.files[target := data[..n]] - {temp} == map[target := data[..n]];
    assert d.writers[0 := Writer(temp, data, Verifying)] == map[0 := Writer(temp, data, Verifying)];
    assert [ok][1..] == [];
    Unroll(d, target, [ok]);
  }

  lemma SizeCheck(target: string, d: Disk, n: nat, ok: Event)
    requires 0 in d.writers && d.writers[0].pc == Verifying && n < |d.writers[0].data| && ok == Event(0, false, n)
    requires d.files == map[target := d.writers[0].data[..n]]
    ensures Run(d, target, [ok, ok, ok]).files == map[]
  {
    ThreeEvents(d, target, ok, ok, ok);
    assert d.files - {target} == map[];
  }

  lemma AfterFailedRename(d: Disk, target: string, i: nat, e: Event, e': Event)
    requires i in d.writers && d.writers[i].pc == Renaming && e == Event(i, true, 0) && e' == Event(i, false, 0)
    ensures Run(d, target, [e, e']) == Disk(d.files - {target}, d.writers[i := d.writers[i].(pc := Done(No))])
  {
    var d1 := Disk(d.files, d.writers[i := d.writers[i].(pc := Cleaning)]);
    assert Next(d, target, e) == d1;
    assert Next(d1, target, e') == Disk(d.files - {target}, d.writers[i := d.writers[i].(pc := Done(No))]);
    TwoEvents(d, target, e, e');
  }

  function Rivals(t0: string, t1: string, data: string, pc0: Pc, pc1: Pc): map<nat, Writer> {
    map[0 := Writer(t0, data, pc0), 1 := Writer(t1, data, pc1)]
  }

  lemma BothWrite(target: string, t0: string, t1: string, data: string)
    requires t0 != target && t1 != target && t0 != t1
    ensures Run(Disk(map[], Rivals(t0, t1, data, Start, Start)), target,
                WritePhase(1, false, 0) + WritePhase(0, false, 0)) ==
            Disk(map[t1 := data, t0 := data], Rivals(t0, t1, data, Renaming, Renaming))
  {
    hide WritePhase, Run;
    var d := Disk(map[], Rivals(t0, t1, data, Start, Start));
    var d1 := Disk(map[t1 := data], Rivals(t0, t1, data, Start, Renaming));
    AfterWrite(d, target, 1, false, 0);
    assert Run(d, target, WritePhase(1, false, 0)) == d1;
    AfterWrite(d1, target, 0, false, 0);
    RunJoin(d, target, WritePhase(1, false, 0), WritePhase(0, false, 0));
  }

  /** Both writers have their temporary files when the first publishes and returns true. */
  lemma FirstPublishes(target: string, t0: string, t1: string, data: string, e: Event)
    requires t0 != target && t1 != target && t0 != t1 && e == Event(0, false, 0)
    ensures Run(Disk(map[], Rivals(t0, t1, data, Start, Start)), target,
                WritePhase(1, false, 0) + WritePhase(0, false, 0) + [e, e, e]) ==
            Disk(map[t1 := data, target := data], Rivals(t0, t1, data, Done(Yes), Renaming))
  {
    hide WritePhase, Run;
    var d := Disk(map[], Rivals(t0, t1, data, Start, Start));
    var d2 := Disk(map[t1 := data, t0 := data], Rivals(t0, t1, data, Renaming, Renaming));
    BothWrite(target, t0, t1, data);
    AfterPublish(d2, target, 0, e);
    assert d2.files[target := data] - {t0} == map[t1 := data, target := data];
    RunJoin(d, target, WritePhase(1, false, 0) + WritePhase(0, false, 0), [e, e, e]);
  }

  /** From the start: two writers of the same data. The second writes its temporary file; the first writes,
      publishes and returns true; the second fails its rename, and its clean-up removes the file. */
  lemma FailureRemoves(target: string, t0: string, t1: string, data: string)
    requires t0 != target && t1 != target && t0 != t1
    ensures var d := Disk(map[], Rivals(t0, t1, data, Start, Start));
            var e := Event(0, false, 0);
            var a := WritePhase(1, false, 0) + WritePhase(0, false, 0) + [e, e, e];
            && Fresh(d, target) && SameData(d, data)
            && Run(d, target, a) ==
                 Disk(map[t1 := data, target := data], Rivals(t0, t1, data, Done(Yes), Renaming))
            && Run(d, target, a + [Event(1, true, 0), Event(1, false, 0)]) ==
                 Disk(map[t1 := data], Rivals(t0, t1, data, Done(Yes), Done(No)))
  {
    hide WritePhase, Run;
    var d, e := Disk(map[], Rivals(t0, t1, data, Start, Start)), Event(0, false, 0);
    FirstPublishes(target, t0, t1, data, e);
    var m := Disk(map[t1 := data, target := data], Rivals(t0, t1, data, Done(Yes), Renaming));
    var f, g := Event(1, true, 0), Event(1, false, 0);
    AfterFailedRename(m, target, 1, f, g);
    assert m.files - {target} == map[t1 := data];
    assert Run(m, target, [f, g]).writers == Rivals(t0, t1, data, Done(Yes), Done(No));
    RunJoin(d, target, WritePhase(1, false, 0) + WritePhase(0, false, 0) + [e, e, e], [f, g]);
  }
}
