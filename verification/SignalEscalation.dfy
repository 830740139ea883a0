/** The parent of a respawned CLI: passing signals on, and escalating when the child does not stop. */
module SignalEscalation {
  import opened Wrappers

  const EXIT_GRACE_MS := 1000
  const FORCE_KILL_GRACE_MS := 1000

  /** A timer variable; it keeps its handle after firing, and is emptied only by clearing it. */
  datatype Timer = Unset | Armed(due: nat) | Fired

  datatype Timers = Timers(exit: Timer, forceKill: Timer)

  datatype Act = Terminate | ForceKill | Exit(code: int)

  /** The two implementations: `runCliRespawnPlan` and `runAlienCompileCacheRespawnPlan`. */
  datatype Variant = CliRunner | CacheRunner

  function ScheduleParentExit(ts: Timers, now: nat): Timers {
    if ts.exit.Unset? then ts.(exit := Armed(now + EXIT_GRACE_MS)) else ts
  }

  function RequestChildTermination(ts: Timers, now: nat): (Timers, seq<Act>) {
    (Timers(Fired, Armed(now + FORCE_KILL_GRACE_MS)), [Terminate])
  }

  function ForceKillAndExit(ts: Timers): (Timers, seq<Act>) {
    (ts.(forceKill := Fired), [ForceKill, Exit(1)])
  }

  /** The calls the exit handler makes if `exit` returned; the second runner has no `return` in between. */
  function ExitCalls(v: Variant, code: Option<int>, signaled: bool): seq<Act> {
    var status := Exit(if code.Some? then code.value else 1);
    match v
    case CliRunner => if signaled then [Exit(1)] else [status]
    case CacheRunner => (if signaled then [Exit(1)] else []) + [status]
  }

  /** `process.exit` never returns: nothing after the first exit happens. */
  function Cut(acts: seq<Act>): seq<Act> {
    if acts == [] then [] else if acts[0].Exit? then [acts[0]] else [acts[0]] + Cut(acts[1..])
  }

  /** The timer variables of one runner and the callbacks that change them. */
  class Supervisor {
    const variant: Variant
    var signalExitTimer: Timer
    var signalForceKillTimer: Timer

    ghost function State(): Timers
      reads this
    {
      Timers(signalExitTimer, signalForceKillTimer)
    }

    constructor (v: Variant)
      ensures State() == Timers(Unset, Unset) && variant == v
    {
      variant, signalExitTimer, signalForceKillTimer := v, Unset, Unset;
    }

    method OnSignal(now: nat)
      modifies this
      ensures State() == ScheduleParentExit(old(State()), now)
    {
      if !signalExitTimer.Unset? {
        return;
      }
      signalExitTimer := Armed(now + EXIT_GRACE_MS);
    }

    method OnExitTimer(now: nat) returns (acts: seq<Act>)
      modifies this
      ensures (State(), acts) == RequestChildTermination(old(State()), now)
    {
      signalExitTimer := Fired;
      acts := [Terminate];
      signalForceKillTimer := Armed(now + FORCE_KILL_GRACE_MS);
    }

    method OnForceKillTimer() returns (acts: seq<Act>)
      modifies this
      ensures (State(), acts) == ForceKillAndExit(old(State()))
    {
      signalForceKillTimer := Fired;
      acts := [ForceKill, Exit(1)];
    }

    method OnChildExit(code: Option<int>, signaled: bool) returns (acts: seq<Act>)
      modifies this
      ensures State() == Timers(Unset, Unset) && acts == ExitCalls(variant, code, signaled)
    {
      signalExitTimer, signalForceKillTimer := Unset, Unset;
      acts := [];
      if signaled {
        acts := [Exit(1)];
        if variant.CliRunner? {
          return;
        }
      }
      acts := acts + [Exit(if code.Some? then code.value else 1)];
    }
  }

  // ---------- timed runs ----------

  /** The parent at time `now`. `firstSignal` and `ended` record when a signal came first and whether the
      child has ended; `log` is everything the parent did, with times. */
  datatype Parent = Parent(now: nat, timers: Timers, alive: bool, firstSignal: Option<nat>, ended: bool,
                           log: seq<(nat, Act)>)

  datatype Step =
    | Tick(ms: nat)
    | Signal
    | ExitTimer
    | ForceKillTimer
    | ChildExit(code: Option<int>, signaled: bool)
    | ChildError

  predicate WaitsFor(t: Timer, until: nat, late: nat) {
    t.Armed? ==> until <= t.due + late
  }

  /** A timer never fires early, and time does not pass a due timer by more than `late`. */
  predicate Enabled(p: Parent, s: Step, late: nat) {
    && p.alive
    && match s
       case Tick(ms) => WaitsFor(p.timers.exit, p.now + ms, late) && WaitsFor(p.timers.forceKill, p.now + ms, late)
       case Signal => true
       case ExitTimer => p.timers.exit.Armed? && p.timers.exit.due <= p.now
       case ForceKillTimer => p.timers.forceKill.Armed? && p.timers.forceKill.due <= p.now
       case ChildExit(_, _) => true
       case ChildError => true
  }

  function Stamped(now: nat, acts: seq<Act>): seq<(nat, Act)> {
    seq(|acts|, i requires 0 <= i < |acts| => (now, acts[i]))
  }

  function Perform(p: Parent, ts: Timers, acts: seq<Act>): Parent {
    var done := Cut(acts);
    p.(timers := ts, log := p.log + Stamped(p.now, done),
       alive := p.alive && forall i :: 0 <= i < |done| ==> !done[i].Exit?)
  }

  function Next(v: Variant, p: Parent, s: Step): Parent {
    match s
    case Tick(ms) => p.(now := p.now + ms)
    case Signal =>
      p.(timers := ScheduleParentExit(p.timers, p.now),
         firstSignal := if p.firstSignal.None? then Some(p.now) else p.firstSignal)
    case ExitTimer =>
      var (ts, acts) := RequestChildTermination(p.timers, p.now);
      Perform(p, ts, acts)
    case ForceKillTimer =>
      var (ts, acts) := ForceKillAndExit(p.timers);
      Perform(p, ts, acts)
    case ChildExit(code, signaled) => Perform(p.(ended := true), Timers(Unset, Unset), ExitCalls(v, code, signaled))
    case ChildError => Perform(p.(ended := true), Timers(Unset, Unset), [Exit(1)])
  }

  const Start := Parent(0, Timers(Unset, Unset), true, None, false, [])

  function After(v: Variant, steps: seq<Step>): Parent {
    if steps == [] then Start else Next(v, After(v, steps[..|steps| - 1]), steps[|steps| - 1])
  }

  ghost predicate IsRun(v: Variant, steps: seq<Step>, late: nat) {
    forall i :: 0 <= i < |steps| ==> Enabled(After(v, steps[..i]), steps[i], late)
  }

  // ---------- what every step keeps ----------

  /** Where the escalation stands while the parent is alive. */
  ghost predicate Escalating(p: Parent, late: nat) {
    match p.firstSignal
    case None => p.timers == Timers(Unset, Unset) && p.log == []
    case Some(t) =>
      || (p.timers == Timers(Armed(t + 1000), Unset) && p.log == [] && t <= p.now <= t + 1000 + late)
      || (&& |p.log| == 1 && p.log[0].1 == Terminate && t + 1000 <= p.log[0].0 <= t + 1000 + late
          && p.timers == Timers(Fired, Armed(p.log[0].0 + 1000))
          && p.log[0].0 <= p.now <= p.log[0].0 + 1000 + late)
  }

  /** What the parent has done once it is gone. */
  ghost predicate Over(p: Parent, late: nat) {
    var n := |p.log| - 1;
    && 0 <= n <= 2 && p.log[n] == (p.now, p.log[n].1) && p.log[n].1.Exit?
    && (n >= 1 ==> && p.firstSignal.Some? && p.log[0].1 == Terminate
                   && p.firstSignal.value + 1000 <= p.log[0].0 <= p.firstSignal.value + 1000 + late)
    && (n == 2 ==> && p.log[1].1 == ForceKill && p.log[0].0 + 1000 <= p.log[1].0 && !p.ended
                   && p.log[2] == (p.log[1].0, Exit(1)))
    && (n < 2 ==> p.ended)
    && (p.firstSignal.Some? ==> p.now <= p.firstSignal.value + 2000 + 2 * late)
  }

  ghost predicate Inv(p: Parent, late: nat) {
    if p.alive then !p.ended && Escalating(p, late) else Over(p, late)
  }

  lemma CutExit(v: Variant, code: Option<int>, signaled: bool)
    ensures Cut(ExitCalls(v, code, signaled)) == [Exit(if signaled || code.None? then 1 else code.value)]
  {
  }

  lemma InvStep(v: Variant, p: Parent, s: Step, late: nat)
    requires Inv(p, late) && Enabled(p, s, late)
    ensures Inv(Next(v, p, s), late)
  {
    match s
    case ChildExit(code, signaled) => CutExit(v, code, signaled);
    case ChildError => assert Cut([Exit(1)]) == [Exit(1)];
    case ForceKillTimer =>
      assert [ForceKill, Exit(1)][1..] == [Exit(1)];
      assert Cut([ForceKill, Exit(1)]) == [ForceKill, Exit(1)];
    case ExitTimer => assert Cut([Terminate]) == [Terminate];
    case _ =>
  }

  lemma {:induction false} RunKeeps(v: Variant, steps: seq<Step>, late: nat)
    requires IsRun(v, steps, late)
    ensures Inv(After(v, steps), late)
  {
    if steps != [] {
      var n := |steps| - 1;
      assert IsRun(v, steps[..n], late) by {
        forall i | 0 <= i < n ensures Enabled(After(v, steps[..n][..i]), steps[..n][i], late) {
          assert steps[..n][..i] == steps[..i] && steps[..n][i] == steps[i];
        }
      }
      RunKeeps(v, steps[..n], late);
      InvStep(v, After(v, steps[..n]), steps[n], late);
    }
  }

  // ---------- main results ----------

  /** A signalled parent is gone 2000 ms after the first signal, give or take the lateness of its two timers. */
  lemma BoundedShutdown(v: Variant, steps: seq<Step>, late: nat)
    requires IsRun(v, steps, late) && After(v, steps).firstSignal.Some?
    ensures After(v, steps).now <= After(v, steps).firstSignal.value + 2000 + 2 * late
    ensures After(v, steps).alive ==>
              || Enabled(After(v, steps), ExitTimer, late) || Enabled(After(v, steps), ForceKillTimer, late)
              || Enabled(After(v, steps), Tick(1), late)
  {
    RunKeeps(v, steps, late);
  }

  /** At most one SIGTERM, no sooner than 1000 ms after the first signal; at most one force kill, at least
      1000 ms after the SIGTERM; nothing after an exit. */
  ghost predicate Ordered(p: Parent) {
    && (forall i, j :: 0 <= i < j < |p.log| ==> p.log[i].1 != p.log[j].1 && !p.log[i].1.Exit?)
    && (forall i :: 0 <= i < |p.log| && p.log[i].1 == Terminate ==>
          p.firstSignal.Some? && p.firstSignal.value + 1000 <= p.log[i].0)
    && (forall j :: 0 <= j < |p.log| && p.log[j].1 == ForceKill ==>
          j == 1 && p.log[0].1 == Terminate && p.log[0].0 + 1000 <= p.log[1].0)
  }

  lemma InvOrders(p: Parent, late: nat)
    requires Inv(p, late)
    ensures Ordered(p)
  {
  }

  /** However many signals arrive, the escalation keeps its order and its spacing, and an exit ends the log. */
  lemma EscalationOrder(v: Variant, steps: seq<Step>, late: nat)
    requires IsRun(v, steps, late)
    ensures Ordered(After(v, steps))
  {
    RunKeeps(v, steps, late);
    InvOrders(After(v, steps), late);
  }

  // ---------- what the parent does, from the events alone ----------

  function Elapsed(steps: seq<Step>): nat {
    if steps == [] then 0
    else Elapsed(steps[..|steps| - 1]) + (if steps[|steps| - 1].Tick? then steps[|steps| - 1].ms else 0)
  }

  lemma {:induction false} NowIsElapsed(v: Variant, steps: seq<Step>)
    ensures After(v, steps).now == Elapsed(steps)
  {
    if steps != [] {
      NowIsElapsed(v, steps[..|steps| - 1]);
    }
  }

  /** The time recorded as the first signal's is that of the first signal. */
  lemma {:induction false} FirstSignalIs(v: Variant, steps: seq<Step>, k: nat)
    requires k < |steps| && steps[k].Signal? && forall i :: 0 <= i < k ==> !steps[i].Signal?
    ensures After(v, steps).firstSignal == Some(Elapsed(steps[..k]))
    decreases |steps|
  {
    var n := |steps| - 1;
    var init := steps[..n];
    if k < n {
      assert init[..k] == steps[..k] && forall i :: 0 <= i <= k ==> init[i] == steps[i];
      FirstSignalIs(v, init, k);
    } else {
      NowIsElapsed(v, init);
      NoSignal(v, init);
    }
  }

  lemma {:induction false} NoSignal(v: Variant, steps: seq<Step>)
    requires forall i :: 0 <= i < |steps| ==> !steps[i].Signal?
    ensures After(v, steps).firstSignal.None?
  {
    if steps != [] {
      NoSignal(v, steps[..|steps| - 1]);
    }
  }

  predicate EndsChild(s: Step) {
    s.ChildExit? || s.ChildError?
  }

  /** Without an end of the child, the exit timer is what sends SIGTERM, and the force-kill timer what kills the
      child and exits with status 1, both at the time they fire; nothing else is ever done. */
  ghost predicate DoneBy(steps: seq<Step>, p: Parent) {
    && (p.alive <==> ForceKillTimer !in steps)
    && (ExitTimer !in steps ==> p.log == [] && p.alive)
    && (ExitTimer in steps && p.alive ==> |p.log| == 1 && p.log[0].1 == Terminate)
    && (!p.alive ==> |p.log| == 3 && p.log[0].1 == Terminate && p.log[1..] == [(p.now, ForceKill), (p.now, Exit(1))])
  }

  lemma {:induction false} RunPrefix(v: Variant, steps: seq<Step>, late: nat)
    requires IsRun(v, steps, late) && steps != []
    ensures IsRun(v, steps[..|steps| - 1], late) && Enabled(After(v, steps[..|steps| - 1]), steps[|steps| - 1], late)
  {
    var n := |steps| - 1;
    forall i | 0 <= i < n ensures Enabled(After(v, steps[..n][..i]), steps[..n][i], late) {
      assert steps[..n][..i] == steps[..i] && steps[..n][i] == steps[i];
    }
  }

  lemma DoneByStep(v: Variant, p: Parent, init: seq<Step>, s: Step, late: nat)
    requires Inv(p, late) && Enabled(p, s, late) && DoneBy(init, p) && !EndsChild(s)
    ensures DoneBy(init + [s], Next(v, p, s))
  {
    var w := init + [s];
    assert (ForceKillTimer in w <==> ForceKillTimer in init || s.ForceKillTimer?)
        && (ExitTimer in w <==> ExitTimer in init || s.ExitTimer?);
    match s
    case ForceKillTimer =>
      assert [ForceKill, Exit(1)][1..] == [Exit(1)];
      assert Cut([ForceKill, Exit(1)]) == [ForceKill, Exit(1)];
      assert Stamped(p.now, [ForceKill, Exit(1)]) == [(p.now, ForceKill), (p.now, Exit(1))];
    case ExitTimer => assert Cut([Terminate]) == [Terminate];
    case _ =>
  }

  lemma TraceStep(v: Variant, init: seq<Step>, s: Step, late: nat)
    requires Inv(After(v, init), late) && Enabled(After(v, init), s, late)
    requires DoneBy(init, After(v, init)) && !EndsChild(s)
    ensures DoneBy(init + [s], After(v, init + [s]))
  {
    assert (init + [s])[..|init|] == init;
    DoneByStep(v, After(v, init), init, s, late);
  }

  lemma {:induction false} EscalationTrace(v: Variant, steps: seq<Step>, late: nat)
    requires IsRun(v, steps, late) && forall i :: 0 <= i < |steps| ==> !EndsChild(steps[i])
    ensures DoneBy(steps, After(v, steps))
    decreases |steps|
  {
    if steps != [] {
      var init, s := LastStep(v, steps, late);
      assert steps[|init|] == s && forall i :: 0 <= i < |init| ==> init[i] == steps[i];
      EscalationTrace(v, init, late);
      TraceStep(v, init, s, late);
    }
  }

  /** A run is a shorter run and one more step that is possible then. */
  lemma LastStep(v: Variant, steps: seq<Step>, late: nat) returns (init: seq<Step>, s: Step)
    requires IsRun(v, steps, late) && steps != []
    ensures steps == init + [s] && IsRun(v, init, late) && Inv(After(v, init), late) && Enabled(After(v, init), s, late)
  {
    init, s := steps[..|steps| - 1], steps[|steps| - 1];
    RunPrefix(v, steps, late);
    RunKeeps(v, init, late);
  }

  lemma StillAlive(v: Variant, steps: seq<Step>, k: nat, late: nat)
    requires IsRun(v, steps, late) && k < |steps|
    ensures After(v, steps[..k]).alive
  {
    assert Enabled(After(v, steps[..k]), steps[k], late);
  }

  lemma DeadIsLast(v: Variant, steps: seq<Step>, k: nat, late: nat)
    requires IsRun(v, steps, late) && k <= |steps| && !After(v, steps[..k]).alive
    ensures k == |steps|
  {
    if k < |steps| {
      StillAlive(v, steps, k, late);
    }
  }

  function Status(s: Step): int {
    if s.ChildExit? && !s.signaled && s.code.Some? then s.code.value else 1
  }

  lemma EndStep(v: Variant, p: Parent, s: Step)
    requires s.ChildExit? || s.ChildError?
    ensures var q := Next(v, p, s); !q.alive && q.log == p.log + [(q.now, Exit(Status(s)))]
  {
    if s.ChildExit? {
      CutExit(v, s.code, s.signaled);
    }
  }

  /** When the child ends, the parent exits at once with the child's status; nothing is sent afterwards. */
  lemma ChildEndIsFinal(v: Variant, steps: seq<Step>, k: nat, late: nat)
    requires IsRun(v, steps, late) && k < |steps| && (steps[k].ChildExit? || steps[k].ChildError?)
    ensures k == |steps| - 1 && !After(v, steps).alive
    ensures After(v, steps).log == After(v, steps[..k]).log + [(After(v, steps).now, Exit(Status(steps[k])))]
  {
    EndStep(v, After(v, steps[..k]), steps[k]);
    assert steps[..k + 1][..k] == steps[..k];
    DeadIsLast(v, steps, k + 1, late);
    assert steps[..|steps|] == steps;
  }

  /** Both runners do the same at the same times on every run. */
  lemma {:induction false} SameTraces(steps: seq<Step>)
    ensures After(CliRunner, steps) == After(CacheRunner, steps)
  {
    if steps != [] {
      var n := |steps| - 1;
      SameTraces(steps[..n]);
      if steps[n].ChildExit? {
        CutExit(CliRunner, steps[n].code, steps[n].signaled);
        CutExit(CacheRunner, steps[n].code, steps[n].signaled);
      }
    }
  }

  /** Only an `exit` that returned could tell them apart, and only for a child killed by a signal. */
  lemma RunnersDiffer(code: Option<int>, signaled: bool)
    ensures ExitCalls(CliRunner, code, signaled) == ExitCalls(CacheRunner, code, signaled) <==> !signaled
  {
    assert |ExitCalls(CacheRunner, code, signaled)| == if signaled then 2 else 1;
  }
}
