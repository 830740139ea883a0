/** `runCommand`: a child process with a timeout, a bounded wait for its end, and one settlement. */
module RunCommand {
  import opened Wrappers

  const KILL_WAIT_MS := 15000

  datatype Timer = Off | Armed(due: nat)

  datatype Failure = TimedOut | NotTerminated | ExitStatus(code: int) | SpawnError

  datatype Outcome = Resolved(exitCode: int, stdout: string, stderr: string) | Rejected(failure: Failure)

  datatype Options = Options(timeoutMs: nat, check: bool, heartbeatMs: nat)

  /** The variables the callbacks share; `outcomes` holds every call of `resolve` or `reject`, with its time. */
  datatype Command = Command(
    now: nat, settled: bool, timedOut: bool, stdout: string, stderr: string,
    timer: Timer, killWaitTimer: Timer, heartbeatTimer: Timer, outcomes: seq<(nat, Outcome)>)

  function ArmedIf(ms: nat, now: nat): Timer {
    if ms > 0 then Armed(now + ms) else Off
  }

  function Started(o: Options): Command {
    Command(0, false, false, "", "", ArmedIf(o.timeoutMs, 0), Off, ArmedIf(o.heartbeatMs, 0), [])
  }

  /** `finalize`: the first caller settles the promise and clears every timer; later callers do nothing. */
  function Finalize(c: Command, o: Outcome): Command {
    if c.settled then c
    else c.(settled := true, timer := Off, killWaitTimer := Off, heartbeatTimer := Off,
            outcomes := c.outcomes + [(c.now, o)])
  }

  /** What the close handler settles with. */
  function Verdict(o: Options, timedOut: bool, code: Option<int>, stdout: string, stderr: string): Outcome {
    var exitCode := if code.Some? then code.value else 1;
    if timedOut then Rejected(TimedOut)
    else if o.check && exitCode != 0 then Rejected(ExitStatus(exitCode))
    else Resolved(exitCode, stdout, stderr)
  }

  datatype Step =
    | Tick(ms: nat)
    | Stdout(chunk: string)
    | Stderr(chunk: string)
    | Timeout
    | KillWait
    | Heartbeat
    | Error
    | Close(code: Option<int>)

  function Next(o: Options, c: Command, s: Step): Command {
    match s
    case Tick(ms) => c.(now := c.now + ms)
    case Stdout(chunk) => c.(stdout := c.stdout + chunk)
    case Stderr(chunk) => c.(stderr := c.stderr + chunk)
    case Timeout => c.(timedOut := true, timer := Off, killWaitTimer := Armed(c.now + KILL_WAIT_MS))
    case KillWait => Finalize(c.(killWaitTimer := Off), Rejected(NotTerminated))
    case Heartbeat => c.(heartbeatTimer := Armed(c.now + o.heartbeatMs))
    case Error => Finalize(c, Rejected(SpawnError))
    case Close(code) => Finalize(c, Verdict(o, c.timedOut, code, c.stdout, c.stderr))
  }

  /** The callbacks on the shared variables. */
  class Runner {
    const options: Options
    var now: nat
    var settled: bool
    var timedOut: bool
    var stdout: string
    var stderr: string
    var timer: Timer
    var killWaitTimer: Timer
    var heartbeatTimer: Timer
    var outcomes: seq<(nat, Outcome)>

    ghost function State(): Command
      reads this
    {
      Command(now, settled, timedOut, stdout, stderr, timer, killWaitTimer, heartbeatTimer, outcomes)
    }

    constructor (o: Options)
      ensures State() == Started(o) && options == o
    {
      options, now, settled, timedOut, stdout, stderr, outcomes := o, 0, false, false, "", "", [];
      timer := if o.timeoutMs > 0 then Armed(o.timeoutMs) else Off;
      killWaitTimer := Off;
      heartbeatTimer := if o.heartbeatMs > 0 then Armed(o.heartbeatMs) else Off;
    }

    method ClearTimers()
      modifies this`timer, this`killWaitTimer, this`heartbeatTimer
      ensures timer.Off? && killWaitTimer.Off? && heartbeatTimer.Off?
    {
      timer, killWaitTimer, heartbeatTimer := Off, Off, Off;
    }

    method FinalizeOnce(o: Outcome)
      modifies this
      ensures State() == Finalize(old(State()), o)
    {
      if settled {
        return;
      }
      settled := true;
      ClearTimers();
      outcomes := outcomes + [(now, o)];
    }

    method OnTimeout()
      modifies this
      ensures State() == Next(options, old(State()), Timeout)
    {
      timedOut, timer := true, Off;
      killWaitTimer := Armed(now + KILL_WAIT_MS);
    }

    method OnKillWait()
      modifies this
      ensures State() == Next(options, old(State()), KillWait)
    {
      killWaitTimer := Off;
      FinalizeOnce(Rejected(NotTerminated));
    }

    method OnError()
      modifies this
      ensures State() == Next(options, old(State()), Error)
    {
      FinalizeOnce(Rejected(SpawnError));
    }

    method OnClose(code: Option<int>)
      modifies this
      ensures State() == Next(options, old(State()), Close(code))
    {
      var exitCode := if code.Some? then code.value else 1;
      if timedOut {
        FinalizeOnce(Rejected(TimedOut));
      } else if options.check && exitCode != 0 {
        FinalizeOnce(Rejected(ExitStatus(exitCode)));
      } else {
        FinalizeOnce(Resolved(exitCode, stdout, stderr));
      }
    }
  }

  // ---------- timed runs over all event orders ----------

  predicate WaitsFor(t: Timer, until: nat, late: nat) {
    t.Armed? ==> until <= t.due + late
  }

  /** Timers fire when due, at most `late` late; output, errors and ends come at any time, in any order. */
  predicate Enabled(c: Command, s: Step, late: nat) {
    match s
    case Tick(ms) =>
      WaitsFor(c.timer, c.now + ms, late) && WaitsFor(c.killWaitTimer, c.now + ms, late)
        && WaitsFor(c.heartbeatTimer, c.now + ms, late)
    case Timeout => c.timer.Armed? && c.timer.due <= c.now
    case KillWait => c.killWaitTimer.Armed? && c.killWaitTimer.due <= c.now
    case Heartbeat => c.heartbeatTimer.Armed? && c.heartbeatTimer.due <= c.now
    case _ => true
  }

  function After(o: Options, steps: seq<Step>): Command {
    if steps == [] then Started(o) else Next(o, After(o, steps[..|steps| - 1]), steps[|steps| - 1])
  }

  ghost predicate IsRun(o: Options, steps: seq<Step>, late: nat) {
    steps != [] ==>
      IsRun(o, steps[..|steps| - 1], late) && Enabled(After(o, steps[..|steps| - 1]), steps[|steps| - 1], late)
  }

  // ---------- an independent account of a run ----------

  predicate Ends(s: Step) {
    s.KillWait? || s.Error? || s.Close?
  }

  /** Everything written to standard output, in order. */
  function Output(steps: seq<Step>): string {
    if steps == [] then ""
    else Output(steps[..|steps| - 1]) + (if steps[|steps| - 1].Stdout? then steps[|steps| - 1].chunk else "")
  }

  function ErrorOutput(steps: seq<Step>): string {
    if steps == [] then ""
    else ErrorOutput(steps[..|steps| - 1]) + (if steps[|steps| - 1].Stderr? then steps[|steps| - 1].chunk else "")
  }

  function Elapsed(steps: seq<Step>): nat {
    if steps == [] then 0
    else Elapsed(steps[..|steps| - 1]) + (if steps[|steps| - 1].Tick? then steps[|steps| - 1].ms else 0)
  }

  /** The outcome the first ending event calls for, given all events before it. */
  function OutcomeAt(o: Options, before: seq<Step>, s: Step): Outcome {
    match s
    case KillWait => Rejected(NotTerminated)
    case Close(code) =>
      if Timeout in before then Rejected(TimedOut)
      else if code == Some(0) || !o.check then
        Resolved(if code.None? then 1 else code.value, Output(before), ErrorOutput(before))
      else Rejected(ExitStatus(if code.None? then 1 else code.value))
    case _ => Rejected(SpawnError)
  }

  /** The whole history of settlements a sequence of events must produce. */
  function Settlements(o: Options, steps: seq<Step>): seq<(nat, Outcome)> {
    if steps == [] then []
    else
      var init, s := steps[..|steps| - 1], steps[|steps| - 1];
      if Settlements(o, init) == [] && Ends(s) then [(Elapsed(init), OutcomeAt(o, init, s))] else Settlements(o, init)
  }

  lemma {:induction false} NowIsElapsed(o: Options, steps: seq<Step>)
    ensures After(o, steps).now == Elapsed(steps)
  {
    if steps != [] {
      NowIsElapsed(o, steps[..|steps| - 1]);
    }
  }

  lemma {:induction false} OutputKept(o: Options, steps: seq<Step>)
    ensures After(o, steps).stdout == Output(steps) && After(o, steps).stderr == ErrorOutput(steps)
  {
    if steps != [] {
      OutputKept(o, steps[..|steps| - 1]);
    }
  }

  lemma {:induction false} TimeoutKept(o: Options, steps: seq<Step>)
    ensures After(o, steps).timedOut <==> Timeout in steps
  {
    if steps != [] {
      TimeoutKept(o, steps[..|steps| - 1]);
      assert steps == steps[..|steps| - 1] + [steps[|steps| - 1]];
    }
  }

  lemma EndingOutcome(o: Options, init: seq<Step>, s: Step)
    requires Ends(s) && !After(o, init).settled
    ensures Next(o, After(o, init), s).outcomes == After(o, init).outcomes + [(Elapsed(init), OutcomeAt(o, init, s))]
  {
    NowIsElapsed(o, init);
    OutputKept(o, init);
    TimeoutKept(o, init);
  }

  /** The callbacks settle exactly as the history of events calls for, and at most once. */
  lemma {:induction false} AccountKept(o: Options, steps: seq<Step>)
    ensures var c := After(o, steps);
            c.outcomes == Settlements(o, steps) && (c.settled <==> c.outcomes != []) && |c.outcomes| <= 1
  {
    if steps != [] {
      var init, s := steps[..|steps| - 1], steps[|steps| - 1];
      AccountKept(o, init);
      if Ends(s) && !After(o, init).settled {
        EndingOutcome(o, init, s);
      }
    }
  }

  // ---------- timers ----------

  /** Once settled no timer is armed; a pending kill wait belongs to a timeout that fired. */
  ghost predicate TimersOk(c: Command, late: nat) {
    && (c.settled ==> c.timer.Off? && c.killWaitTimer.Off? && c.heartbeatTimer.Off?)
    && (c.timedOut ==> c.timer.Off?)
    && (c.timedOut && !c.settled ==> c.killWaitTimer.Armed? && c.now <= c.killWaitTimer.due + late)
    && (!c.timedOut ==> c.killWaitTimer.Off?)
  }

  lemma {:induction false} TimersKept(o: Options, steps: seq<Step>, late: nat)
    requires IsRun(o, steps, late)
    ensures TimersOk(After(o, steps), late)
  {
    if steps != [] {
      TimersKept(o, steps[..|steps| - 1], late);
    }
  }

  lemma DueKept(o: Options, c: Command, s: Step, late: nat)
    requires TimersOk(c, late) && Enabled(c, s, late) && c.timedOut && !Next(o, c, s).settled
    ensures !c.settled && Next(o, c, s).killWaitTimer == c.killWaitTimer
  {
  }

  /** The kill wait is due 15 s after the timeout fired. */
  lemma {:induction false} KillWaitDue(o: Options, steps: seq<Step>, k: nat, late: nat)
    requires IsRun(o, steps, late) && k < |steps| && steps[k].Timeout? && !After(o, steps).settled
    ensures After(o, steps).killWaitTimer == Armed(Elapsed(steps[..k]) + 15000)
    decreases |steps|
  {
    var n := |steps| - 1;
    var init := steps[..n];
    if k < n {
      TimersKept(o, init, late);
      assert init[k] == steps[k] && init[..k] == steps[..k];
      TimeoutKept(o, init);
      assert Timeout in init;
      DueKept(o, After(o, init), steps[n], late);
      KillWaitDue(o, init, k, late);
    } else {
      NowIsElapsed(o, init);
    }
  }

  // ---------- main results ----------

  /** The promise settles at most once, and exactly when some ending event occurs; then no timer is left armed. */
  lemma SettlesOnce(o: Options, steps: seq<Step>, late: nat)
    requires IsRun(o, steps, late)
    ensures var c := After(o, steps);
            && |c.outcomes| <= 1
            && (c.outcomes != [] <==> exists i :: 0 <= i < |steps| && Ends(steps[i]))
            && (c.outcomes != [] ==> c.timer.Off? && c.killWaitTimer.Off? && c.heartbeatTimer.Off?)
  {
    AccountKept(o, steps);
    TimersKept(o, steps, late);
    SettledWhenEnded(o, steps);
  }

  lemma {:induction false} SettledWhenEnded(o: Options, steps: seq<Step>)
    ensures Settlements(o, steps) != [] <==> exists i :: 0 <= i < |steps| && Ends(steps[i])
  {
    if steps != [] {
      var n := |steps| - 1;
      SettledWhenEnded(o, steps[..n]);
      if i :| 0 <= i < n && Ends(steps[i]) {
        assert Ends(steps[..n][i]);
      }
      if i :| 0 <= i < n && Ends(steps[..n][i]) {
        assert Ends(steps[i]);
      }
    }
  }

  /** Step `k` is the first ending event. */
  ghost predicate FirstEnd(steps: seq<Step>, k: nat) {
    && k < |steps| && (steps[k].KillWait? || steps[k].Error? || steps[k].Close?)
    && forall i :: 0 <= i < k ==> !steps[i].KillWait? && !steps[i].Error? && !steps[i].Close?
  }

  /** Every history with an ending event has exactly one outcome, the one its first ending event calls for:
      a close after a timeout rejects as timed out, a close with status 0 or unchecked resolves with that status
      and all output before it, another close rejects with its status, an error and the end of the kill wait
      reject as such. The time is the one of that event. */
  lemma OutcomeOfHistory(o: Options, steps: seq<Step>, k: nat)
    requires FirstEnd(steps, k)
    ensures var outcomes, s := After(o, steps).outcomes, steps[k];
            && |outcomes| == 1 && outcomes[0].0 == Elapsed(steps[..k])
            && (s.KillWait? ==> outcomes[0].1 == Rejected(NotTerminated))
            && (s.Error? ==> outcomes[0].1 == Rejected(SpawnError))
            && (s.Close? ==>
                  var code := if s.code.Some? then s.code.value else 1;
                  outcomes[0].1 ==
                  if exists i :: 0 <= i < k && steps[i].Timeout? then Rejected(TimedOut)
                  else if o.check && code != 0 then Rejected(ExitStatus(code))
                  else Resolved(code, Output(steps[..k]), ErrorOutput(steps[..k])))
  {
    SettledByFirst(o, steps, k);
    var before := steps[..k];
    assert forall i :: 0 <= i < k ==> before[i] == steps[i];
    assert Timeout in before <==> exists i :: 0 <= i < k && steps[i].Timeout?;
  }

  lemma {:induction false} SettledByFirst(o: Options, steps: seq<Step>, k: nat)
    requires FirstEnd(steps, k)
    ensures After(o, steps).outcomes == [(Elapsed(steps[..k]), OutcomeAt(o, steps[..k], steps[k]))]
    decreases |steps|
  {
    var n := |steps| - 1;
    var init := steps[..n];
    assert forall i :: 0 <= i < n ==> init[i] == steps[i];
    AccountKept(o, steps);
    AccountKept(o, init);
    if k < n {
      assert init[..k] == steps[..k];
      SettledByFirst(o, init, k);
    } else {
      SettledWhenEnded(o, init);
    }
  }

  /** The close at step `k` is the first ending event, no timeout came before it, and `r` holds all output so far. */
  ghost predicate ClosedAt(steps: seq<Step>, k: nat, r: Outcome) {
    && k < |steps| && steps[k].Close? && Timeout !in steps[..k]
    && (forall i :: 0 <= i < k ==> !Ends(steps[i]))
    && r == Resolved(if steps[k].code.Some? then steps[k].code.value else 1,
                     Output(steps[..k]), ErrorOutput(steps[..k]))
  }

  /** A promise resolves only by a close without a timeout, with status 0 or checking off, and with all output
      that came before the close. */
  lemma {:induction false} ResolvedMeans(o: Options, steps: seq<Step>) returns (k: nat)
    requires After(o, steps).outcomes != [] && After(o, steps).outcomes[0].1.Resolved?
    ensures var r := After(o, steps).outcomes[0].1;
            (r.exitCode == 0 || !o.check) && ClosedAt(steps, k, r)
  {
    var init := steps[..|steps| - 1];
    AccountKept(o, steps);
    AccountKept(o, init);
    if Settlements(o, init) != [] {
      k := ResolvedMeans(o, init);
      assert init[..k] == steps[..k] && init[k] == steps[k];
      assert forall i :: 0 <= i < k ==> steps[i] == init[i];
    } else {
      k := |steps| - 1;
      SettledWhenEnded(o, init);
      assert forall i :: 0 <= i < k ==> init[i] == steps[i];
    }
  }

  /** A command whose timeout fired never resolves, and is settled 15 s after it, give or take the timer's lateness. */
  lemma TimeoutSettles(o: Options, steps: seq<Step>, k: nat, late: nat)
    requires IsRun(o, steps, late) && k < |steps| && steps[k].Timeout?
    ensures var c := After(o, steps);
            && (c.outcomes != [] ==> c.outcomes[0].1.Rejected?)
            && (c.outcomes == [] ==> c.now <= Elapsed(steps[..k]) + 15000 + late)
  {
    AccountKept(o, steps);
    TimersKept(o, steps, late);
    TimeoutKept(o, steps);
    NowIsElapsed(o, steps);
    if !After(o, steps).settled {
      KillWaitDue(o, steps, k, late);
    } else {
      TimeoutUnsettled(o, steps, k, late);
    }
  }

  lemma {:induction false} TimerArmed(o: Options, steps: seq<Step>)
    ensures After(o, steps).timer.Off? || (o.timeoutMs > 0 && After(o, steps).timer == Armed(o.timeoutMs))
  {
    if steps != [] {
      TimerArmed(o, steps[..|steps| - 1]);
    }
  }

  /** A timeout fires once at most, only if one was asked for, and not before its time. */
  lemma TimeoutIsDue(o: Options, steps: seq<Step>, k: nat, late: nat)
    requires IsRun(o, steps, late) && k < |steps| && steps[k].Timeout?
    ensures 0 < o.timeoutMs <= Elapsed(steps[..k]) && Timeout !in steps[..k]
  {
    RunPrefix(o, steps, k + 1, late);
    var init := steps[..k];
    assert steps[..k + 1][..k] == init && steps[..k + 1][k] == Timeout;
    TimerArmed(o, init);
    NowIsElapsed(o, init);
    TimersKept(o, init, late);
    TimeoutKept(o, init);
  }

  lemma {:induction false} RunPrefix(o: Options, steps: seq<Step>, k: nat, late: nat)
    requires IsRun(o, steps, late) && k <= |steps|
    ensures IsRun(o, steps[..k], late)
    decreases |steps|
  {
    var n := |steps| - 1;
    if k <= n {
      assert steps[..n][..k] == steps[..k];
      RunPrefix(o, steps[..n], k, late);
    } else {
      assert steps[..k] == steps;
    }
  }

  /** Unless it has settled, a command with a timeout does not outlive it by more than the timer's lateness. */
  lemma {:induction false} TimeoutComes(o: Options, steps: seq<Step>, late: nat)
    requires IsRun(o, steps, late) && o.timeoutMs > 0
    ensures After(o, steps).settled || After(o, steps).timedOut
            || (After(o, steps).timer == Armed(o.timeoutMs) && Elapsed(steps) <= o.timeoutMs + late)
  {
    NowIsElapsed(o, steps);
    if steps != [] {
      TimeoutComes(o, steps[..|steps| - 1], late);
    }
  }

  /** Nothing has resolved. */
  predicate Unresolved(c: Command) {
    (c.settled <==> c.outcomes != []) && (c.outcomes != [] ==> c.outcomes[0].1.Rejected?)
  }

  lemma TimeoutNotSettled(o: Options, c: Command, late: nat)
    requires TimersOk(c, late) && Enabled(c, Timeout, late) && (c.settled <==> c.outcomes != [])
    ensures Unresolved(Next(o, c, Timeout))
  {
  }

  lemma UnresolvedKept(o: Options, c: Command, s: Step)
    requires c.timedOut && Unresolved(c)
    ensures Unresolved(Next(o, c, s))
  {
  }

  /** When the timeout fires nothing has settled yet, so whatever settles later rejects. */
  lemma {:induction false} TimeoutUnsettled(o: Options, steps: seq<Step>, k: nat, late: nat)
    requires IsRun(o, steps, late) && k < |steps| && steps[k].Timeout?
    ensures Unresolved(After(o, steps))
    decreases |steps|
  {
    var n := |steps| - 1;
    var init := steps[..n];
    if k < n {
      TimeoutKept(o, init);
      assert init[k] == steps[k];
      assert Timeout in init;
      TimeoutUnsettled(o, init, k, late);
      UnresolvedKept(o, After(o, init), steps[n]);
    } else {
      AccountKept(o, init);
      TimersKept(o, init, late);
      TimeoutNotSettled(o, After(o, init), late);
    }
  }
}
