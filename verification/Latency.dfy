/**
  The maximum-latency gauge: sessions that finish concurrently raise it with a compare-and-swap loop,
  while the status handler reads and resets it.
 */
module Latency {
  import opened Decimal

  /** Where a session is in `on_write`: before the load, or holding the value it last saw. */
  datatype Session = Loading(duration: int) | Trying(duration: int, seen: int) | Finished

  /** The shared gauge, the sessions, and the durations that took effect since the last reset. */
  datatype Gauge = Gauge(max: int, sessions: map<nat, Session>, log: seq<int>)

  datatype Step =
    | Load(id: nat)                    // current_max = load()
    | Swap(id: nat, spurious: bool)    // compare_exchange_weak; may fail without cause
    | GiveUp(id: nat)                  // the loop condition finds duration <= current_max
    | Reset                            // exchange(0)

  /** `(int) duration`: the number of that residue in the range of `int`. */
  function ToInt32(d: int): (r: int)
    ensures -0x8000_0000 <= r <= 0x7FFF_FFFF && (r - d) % 0x1_0000_0000 == 0
  {
    var w := d % 0x1_0000_0000;
    if w > INT_MAX then w - 0x1_0000_0000 else w
  }

  /** A duration that is not positive skips the whole block. */
  function Begin(duration: int): Session {
    if duration > 0 then Loading(duration) else Finished
  }

  predicate Enabled(g: Gauge, s: Step) {
    match s
    case Load(id) => id in g.sessions && g.sessions[id].Loading?
    case Swap(id, _) => id in g.sessions && g.sessions[id].Trying? && g.sessions[id].duration > g.sessions[id].seen
    case GiveUp(id) => id in g.sessions && g.sessions[id].Trying? && g.sessions[id].duration <= g.sessions[id].seen
    case Reset => true
  }

  /** An update takes effect when its swap succeeds, or when it reads a value that makes it pointless. */
  function Observe(g: Gauge, id: nat, duration: int): Gauge {
    g.(sessions := g.sessions[id := Trying(duration, g.max)],
       log := if duration <= g.max then g.log + [duration] else g.log)
  }

  function Next(g: Gauge, s: Step): Gauge
    requires Enabled(g, s)
  {
    match s
    case Load(id) => Observe(g, id, g.sessions[id].duration)
    case Swap(id, spurious) =>
      var t := g.sessions[id];
      if g.max == t.seen && !spurious then
        Gauge(ToInt32(t.duration), g.sessions[id := Finished], g.log + [t.duration])
      else Observe(g, id, t.duration)
    case GiveUp(id) => g.(sessions := g.sessions[id := Finished])
    case Reset => g.(max := 0, log := [])
  }

  ghost predicate Interleaving(g: Gauge, steps: seq<Step>)
    decreases |steps|
  {
    steps != [] ==> Enabled(g, steps[0]) && Interleaving(Next(g, steps[0]), steps[1..])
  }

  function After(g: Gauge, steps: seq<Step>): Gauge
    requires Interleaving(g, steps)
    decreases |steps|
  {
    if steps == [] then g else After(Next(g, steps[0]), steps[1..])
  }

  /** The largest of the durations, or 0. */
  function MaxOf(log: seq<int>): int {
    if log == [] then 0 else
      var m := MaxOf(log[..|log| - 1]);
      if log[|log| - 1] > m then log[|log| - 1] else m
  }

  lemma MaxSnoc(log: seq<int>, d: int)
    ensures MaxOf(log + [d]) == if d > MaxOf(log) then d else MaxOf(log)
  {
    assert (log + [d])[..|log|] == log;
  }

  /** The swap stores the duration itself exactly when it fits an `int`. */
  lemma StoredExactly(d: int)
    requires d > 0
    ensures ToInt32(d) == d <==> d <= INT_MAX
  {
  }

  /** Durations in flight fit an `int`. */
  ghost predicate Fits(g: Gauge) {
    forall id :: id in g.sessions && !g.sessions[id].Finished? ==> 0 < g.sessions[id].duration <= INT_MAX
  }

  ghost predicate Inv(g: Gauge) {
    Fits(g) && g.max == MaxOf(g.log)
  }

  lemma StepKeepsInv(g: Gauge, s: Step)
    requires Inv(g) && Enabled(g, s)
    ensures Inv(Next(g, s))
  {
    hide ToInt32, MaxOf;
    match s
    case Load(id) => MaxSnoc(g.log, g.sessions[id].duration);
    case Swap(id, spurious) =>
      MaxSnoc(g.log, g.sessions[id].duration);
      StoredExactly(g.sessions[id].duration);
    case GiveUp(id) =>
    case Reset => NoDurations();
  }

  lemma NoDurations()
    ensures MaxOf([]) == 0
  {
  }

  lemma {:induction false} RunKeepsInv(g: Gauge, steps: seq<Step>)
    requires Inv(g) && Interleaving(g, steps)
    ensures Inv(After(g, steps))
    decreases |steps|
  {
    hide Inv, Next, Enabled;
    if steps != [] {
      StepKeepsInv(g, steps[0]);
      RunKeepsInv(Next(g, steps[0]), steps[1..]);
    }
  }

  /** The sessions that are to finish, with their durations; the gauge starts at 0. */
  function Start(durations: map<nat, int>): Gauge {
    Gauge(0, map id | id in durations :: Begin(durations[id]), [])
  }

  /** The gauge is the maximum of the durations that took effect since the last reset, or 0. */
  ghost predicate ShowsMaximum(g: Gauge) {
    && (forall d :: d in g.log ==> d <= g.max)
    && (g.max == 0 || g.max in g.log)
    && (g.log == [] ==> g.max == 0)
  }

  /** The main result: the gauge shows the maximum under every interleaving of sessions, spurious failures
      and resets, if and only if all durations fit an `int`. */
  lemma GaugeIsMaximum(durations: map<nat, int>)
    ensures (forall steps | Interleaving(Start(durations), steps) :: ShowsMaximum(After(Start(durations), steps)))
            <==> (forall id :: id in durations ==> durations[id] <= INT_MAX)
  {
    hide Interleaving, After, Start, ShowsMaximum;
    if forall id :: id in durations ==> durations[id] <= INT_MAX {
      forall steps | Interleaving(Start(durations), steps) ensures ShowsMaximum(After(Start(durations), steps)) {
        FittingRun(durations, steps);
      }
    } else {
      var id :| id in durations && durations[id] > INT_MAX;
      LongDurationWraps(durations, id);
    }
  }

  lemma FittingRun(durations: map<nat, int>, steps: seq<Step>)
    requires (forall id :: id in durations ==> durations[id] <= INT_MAX) && Interleaving(Start(durations), steps)
    ensures ShowsMaximum(After(Start(durations), steps))
  {
    assert Inv(Start(durations)) by { NoDurations(); }
    RunKeepsInv(Start(durations), steps);
    MaxMeans(After(Start(durations), steps).log);
  }

  lemma {:induction false} MaxMeans(log: seq<int>)
    ensures forall d :: d in log ==> d <= MaxOf(log)
    ensures MaxOf(log) == 0 || MaxOf(log) in log
    ensures log == [] ==> MaxOf(log) == 0
  {
    if log != [] {
      MaxMeans(log[..|log| - 1]);
      assert log == log[..|log| - 1] + [log[|log| - 1]];
    }
  }

  ghost function Count(steps: seq<Step>, g: Gauge, id: nat): nat
    requires Interleaving(g, steps)
    decreases |steps|
  {
    if steps == [] then 0
    else (if TakesEffect(g, steps[0], id) then 1 else 0) + Count(steps[1..], Next(g, steps[0]), id)
  }

  /** The step is the one at which session `id` takes effect. */
  predicate TakesEffect(g: Gauge, s: Step, id: nat)
    requires Enabled(g, s)
  {
    match s
    case Load(i) => i == id && g.sessions[i].duration <= g.max
    case Swap(i, spurious) => i == id && ((g.max == g.sessions[i].seen && !spurious) || g.sessions[i].duration <= g.max)
    case _ => false
  }

  /** The log has exactly the durations that take effect, from the last reset on. */
  lemma EffectLogged(g: Gauge, s: Step)
    requires Enabled(g, s)
    ensures Next(g, s).log ==
            match s {
              case Load(id) => if TakesEffect(g, s, id) then g.log + [g.sessions[id].duration] else g.log
              case Swap(id, _) => if TakesEffect(g, s, id) then g.log + [g.sessions[id].duration] else g.log
              case GiveUp(_) => g.log
              case Reset => []
            }
  {
  }

  predicate Settled(g: Gauge, id: nat)
    requires id in g.sessions
  {
    match g.sessions[id]
    case Loading(_) => false
    case Trying(d, seen) => d <= seen
    case Finished => true
  }

  /** At the start exactly the sessions without a positive duration have nothing to do. */
  lemma StartSettled(durations: map<nat, int>, id: nat)
    requires id in durations
    ensures id in Start(durations).sessions
    ensures Settled(Start(durations), id) <==> durations[id] <= 0
  {
  }

  /** A step concerns one session only, and a session ends exactly by giving up or by a swap that succeeds. */
  lemma SessionEnds(g: Gauge, s: Step, id: nat)
    requires Enabled(g, s) && id in g.sessions
    ensures id in Next(g, s).sessions
    ensures Next(g, s).sessions[id] != g.sessions[id] ==> !s.Reset? && s.id == id
    ensures Next(g, s).sessions[id].Finished? <==>
            || g.sessions[id].Finished?
            || s == GiveUp(id) || (s == Swap(id, false) && g.max == g.sessions[id].seen)
  {
  }

  /** Each session takes effect exactly once: not yet while it is unsettled, once when it is settled. */
  lemma {:induction false} EffectOnce(g: Gauge, steps: seq<Step>, id: nat)
    requires Interleaving(g, steps) && id in g.sessions
    ensures id in After(g, steps).sessions
    ensures Settled(g, id) ==> Count(steps, g, id) == 0 && Settled(After(g, steps), id)
    ensures !Settled(g, id) ==> Count(steps, g, id) == if Settled(After(g, steps), id) then 1 else 0
    decreases |steps|
  {
    if steps != [] {
      var g' := Next(g, steps[0]);
      assert id in g'.sessions;
      assert Settled(g', id) <==> Settled(g, id) || TakesEffect(g, steps[0], id);
      assert Settled(g, id) ==> !TakesEffect(g, steps[0], id);
      EffectOnce(g', steps[1..], id);
    }
  }

  /** A duration past INT_MAX is stored truncated, by the two steps of a session that meets no other: the
      gauge stays below it, and is negative for the next 2^31 values. */
  lemma LongDurationWraps(durations: map<nat, int>, id: nat)
    requires id in durations && durations[id] > INT_MAX
    ensures var steps := [Load(id), Swap(id, false)];
            && Interleaving(Start(durations), steps)
            && After(Start(durations), steps).log == [durations[id]]
            && After(Start(durations), steps).max < durations[id]
            && !ShowsMaximum(After(Start(durations), steps))
            && (durations[id] < UINT32 ==> After(Start(durations), steps).max < 0)
  {
    var g, d := Start(durations), durations[id];
    var g1 := Next(g, Load(id));
    var g2 := Next(g1, Swap(id, false));
    assert g1.sessions[id] == Trying(d, 0) && g1.max == 0 && g1.log == [];
    assert g2.log == [d] && g2.max == ToInt32(d);
    var steps := [Load(id), Swap(id, false)];
    assert steps[1..] == [Swap(id, false)] && steps[1..][1..] == [];
    assert After(g, steps) == After(g1, steps[1..]) == After(g2, []);
    assert d in g2.log;
  }
}
