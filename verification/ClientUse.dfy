/** How a run uses its RPC clients: the actions of `translateBatch`, played against the protocol's world. */
module ClientUse {
  import opened Wrappers
  import opened Batching
  import opened Translation
  import opened BatchRun
  import opened PiRpc

  /** What `translateBatch` does with the RPC client: ask a prompt, which turns out usable or not, or discard it. */
  datatype Action = Asked(usable: bool) | Discarded

  function Actions(timedOut: string -> bool, items: seq<Item>, replies: Replies, at: nat, attempt: nat): seq<Action>
    decreases |items|, 1, MAX_ATTEMPTS - attempt
  {
    var result := Attempt(items, replies(at));
    if result.Done? then [Asked(true)]
    else
      [Asked(false), Discarded] +
      if timedOut(result.message) && |items| > 1 then SplitActions(timedOut, items, replies, at)
      else if timedOut(result.message) || attempt + 1 >= MAX_ATTEMPTS then []
      else Actions(timedOut, items, replies, at + 1, attempt + 1)
  }

  /** The actions on the two halves of a batch that timed out. */
  function SplitActions(timedOut: string -> bool, items: seq<Item>, replies: Replies, at: nat): seq<Action>
    requires |items| > 1
    decreases |items|, 0, 0
  {
    var n := Midpoint(|items|);
    var (left, next) := Translate(timedOut, items[..n], replies, at + 1, 0);
    Actions(timedOut, items[..n], replies, at + 1, 0)
    + if left.Broken? then [] else Actions(timedOut, items[n..], replies, next, 0)
  }

  /** A client that failed is discarded before anything else is asked. */
  ghost predicate Disciplined(actions: seq<Action>) {
    forall i :: 0 <= i < |actions| && actions[i] == Asked(false) ==> i + 1 < |actions| && actions[i + 1] == Discarded
  }

  function Prompts(actions: seq<Action>): nat {
    if actions == [] then 0 else Prompts(actions[..|actions| - 1]) + if actions[|actions| - 1].Asked? then 1 else 0
  }

  lemma {:induction false} PromptsAppend(a: seq<Action>, b: seq<Action>)
    ensures Prompts(a + b) == Prompts(a) + Prompts(b)
    decreases |b|
  {
    if b == [] {
      assert a + b == a;
    } else {
      assert (a + b)[..|a + b| - 1] == a + b[..|b| - 1];
      PromptsAppend(a, b[..|b| - 1]);
    }
  }

  lemma DisciplinedAppend(a: seq<Action>, b: seq<Action>)
    requires Disciplined(a) && Disciplined(b)
    ensures Disciplined(a + b) && Disciplined([Asked(false), Discarded] + a)
  {
    var ab, fa := a + b, [Asked(false), Discarded] + a;
    forall i | 0 <= i < |ab| && ab[i] == Asked(false) ensures i + 1 < |ab| && ab[i + 1] == Discarded {
      if i < |a| { assert a[i] == Asked(false); } else { assert b[i - |a|] == Asked(false); }
    }
    forall i | 0 <= i < |fa| && fa[i] == Asked(false) ensures i + 1 < |fa| && fa[i + 1] == Discarded {
      if i >= 2 { assert a[i - 2] == Asked(false); }
    }
  }

  lemma FailedOnce()
    ensures Prompts([Asked(false), Discarded]) == 1 && Prompts([Asked(true)]) == 1
  {
    assert [Asked(false), Discarded][..1] == [Asked(false)] && [Asked(false)][..0] == [] && [Asked(true)][..0] == [];
  }

  lemma DisciplinedStep(rest: seq<Action>)
    requires Disciplined(rest)
    ensures Disciplined([Asked(false), Discarded] + rest)
            && Prompts([Asked(false), Discarded] + rest) == 1 + Prompts(rest)
  {
    DisciplinedAppend(rest, []);
    PromptsAppend([Asked(false), Discarded], rest);
    FailedOnce();
  }

  /** After every failed prompt, whatever failed about it, the client is discarded before the next prompt; and
      the prompts asked are exactly those counted. */
  lemma {:induction false} DiscardsAfterFailure(
    timedOut: string -> bool, items: seq<Item>, replies: Replies, at: nat, attempt: nat)
    requires attempt < MAX_ATTEMPTS
    ensures var actions := Actions(timedOut, items, replies, at, attempt);
            Disciplined(actions) && at + Prompts(actions) == Translate(timedOut, items, replies, at, attempt).1
    decreases |items|, MAX_ATTEMPTS - attempt
  {
    var result := Attempt(items, replies(at));
    FailedOnce();
    if result.Done? {
    } else if timedOut(result.message) && |items| > 1 {
      var n := Midpoint(|items|);
      var (left, next) := Translate(timedOut, items[..n], replies, at + 1, 0);
      var a := Actions(timedOut, items[..n], replies, at + 1, 0);
      DiscardsAfterFailure(timedOut, items[..n], replies, at + 1, 0);
      if left.Broken? {
        assert a + [] == a;
        DisciplinedStep(a);
      } else {
        var b := Actions(timedOut, items[n..], replies, next, 0);
        DiscardsAfterFailure(timedOut, items[n..], replies, next, 0);
        DisciplinedAppend(a, b);
        PromptsAppend(a, b);
        DisciplinedStep(a + b);
      }
    } else if timedOut(result.message) || attempt + 1 >= MAX_ATTEMPTS {
      DisciplinedStep([]);
    } else {
      DiscardsAfterFailure(timedOut, items, replies, at + 1, attempt + 1);
      DisciplinedStep(Actions(timedOut, items, replies, at + 1, attempt + 1));
    }
  }

  /** A prompt that was usable had a parsed reply; `at` is the number of the first prompt. */
  predicate Honest(actions: seq<Action>, replies: Replies, at: nat) {
    actions == []
    || var init := actions[..|actions| - 1];
       Honest(init, replies, at) && (actions[|init|] == Asked(true) ==> replies(at + Prompts(init)).Parsed?)
  }

  lemma {:induction false} HonestPrefix(actions: seq<Action>, replies: Replies, at: nat, k: nat)
    requires Honest(actions, replies, at) && k < |actions| && actions[k] == Asked(true)
    ensures replies(at + Prompts(actions[..k])).Parsed?
  {
    var n := |actions| - 1;
    if k < n {
      assert actions[..n][..k] == actions[..k];
      HonestPrefix(actions[..n], replies, at, k);
    }
  }

  lemma {:induction false} HonestAppend(a: seq<Action>, b: seq<Action>, replies: Replies, at: nat)
    requires Honest(a, replies, at) && Honest(b, replies, at + Prompts(a))
    ensures Honest(a + b, replies, at)
    decreases |b|
  {
    if b == [] {
      assert a + b == a;
    } else {
      var init := b[..|b| - 1];
      HonestAppend(a, init, replies, at);
      PromptsAppend(a, init);
      assert (a + b)[..|a + b| - 1] == a + init;
    }
  }

  lemma HonestStep(rest: seq<Action>, replies: Replies, at: nat)
    requires Honest(rest, replies, at + 1)
    ensures Honest([Asked(false), Discarded] + rest, replies, at)
  {
    FailedOnce();
    HonestAppend([Asked(false), Discarded], rest, replies, at);
  }

  lemma HonestOnce(replies: Replies, at: nat)
    requires replies(at).Parsed?
    ensures Honest([Asked(true)], replies, at)
  {
    assert [Asked(true)][..0] == [];
  }

  lemma {:induction false} ActionsHonest(
    timedOut: string -> bool, items: seq<Item>, replies: Replies, at: nat, attempt: nat)
    requires attempt < MAX_ATTEMPTS
    ensures Honest(Actions(timedOut, items, replies, at, attempt), replies, at)
    decreases |items|, MAX_ATTEMPTS - attempt
  {
    var result := Attempt(items, replies(at));
    if result.Done? {
      HonestOnce(replies, at);
    } else if timedOut(result.message) && |items| > 1 {
      HonestSplit(timedOut, items, replies, at);
    } else if timedOut(result.message) || attempt + 1 >= MAX_ATTEMPTS {
      HonestStep([], replies, at);
    } else {
      ActionsHonest(timedOut, items, replies, at + 1, attempt + 1);
      HonestStep(Actions(timedOut, items, replies, at + 1, attempt + 1), replies, at);
    }
  }

  lemma {:induction false} HonestSplit(timedOut: string -> bool, items: seq<Item>, replies: Replies, at: nat)
    requires |items| > 1
    ensures Honest([Asked(false), Discarded] + SplitActions(timedOut, items, replies, at), replies, at)
    decreases |items|, 0
  {
    var n := Midpoint(|items|);
    var (left, next) := Translate(timedOut, items[..n], replies, at + 1, 0);
    var a := Actions(timedOut, items[..n], replies, at + 1, 0);
    ActionsHonest(timedOut, items[..n], replies, at + 1, 0);
    if left.Broken? {
      assert a + [] == a;
    } else {
      var b := Actions(timedOut, items[n..], replies, next, 0);
      ActionsHonest(timedOut, items[n..], replies, next, 0);
      DiscardsAfterFailure(timedOut, items[..n], replies, at + 1, 0);
      HonestAppend(a, b, replies, at + 1);
    }
    HonestStep(SplitActions(timedOut, items, replies, at), replies, at);
  }

  // ---------- all batches of a run ----------

  function BatchActions(timedOut: string -> bool, batches: seq<seq<Item>>, replies: Replies): seq<Action> {
    if batches == [] then []
    else
      var n := |batches| - 1;
      var (before, start) := TranslateAll(timedOut, batches[..n], replies);
      BatchActions(timedOut, batches[..n], replies)
      + if before.Broken? then [] else Actions(timedOut, batches[n], replies, start, 0)
  }

  /** The batches until one breaks, and the reset in the `finally` block. */
  function RunActions(timedOut: string -> bool, batches: seq<seq<Item>>, replies: Replies): seq<Action> {
    BatchActions(timedOut, batches, replies) + [Discarded]
  }

  ghost predicate Orderly(actions: seq<Action>, replies: Replies) {
    Disciplined(actions) && Honest(actions, replies, 0)
  }

  lemma {:induction false} BatchesOrderly(timedOut: string -> bool, batches: seq<seq<Item>>, replies: Replies)
    ensures Orderly(BatchActions(timedOut, batches, replies), replies)
    ensures Prompts(BatchActions(timedOut, batches, replies)) == TranslateAll(timedOut, batches, replies).1
  {
    if batches != [] {
      var n := |batches| - 1;
      var (before, start) := TranslateAll(timedOut, batches[..n], replies);
      var a := BatchActions(timedOut, batches[..n], replies);
      BatchesOrderly(timedOut, batches[..n], replies);
      if before.Broken? {
        assert a + [] == a;
      } else {
        var b := Actions(timedOut, batches[n], replies, start, 0);
        DiscardsAfterFailure(timedOut, batches[n], replies, start, 0);
        ActionsHonest(timedOut, batches[n], replies, start, 0);
        DisciplinedAppend(a, b);
        HonestAppend(a, b, replies, 0);
        PromptsAppend(a, b);
      }
    }
  }

  lemma DiscardOnly(replies: Replies, at: nat)
    ensures Disciplined([Discarded]) && Honest([Discarded], replies, at) && Prompts([Discarded]) == 0
  {
    assert [Discarded][..0] == [];
  }

  lemma ThenDiscard(a: seq<Action>, replies: Replies)
    requires Orderly(a, replies)
    ensures Orderly(a + [Discarded], replies) && Prompts(a + [Discarded]) == Prompts(a)
  {
    DiscardOnly(replies, 0 + Prompts(a));
    DisciplinedAppend(a, [Discarded]);
    HonestAppend(a, [Discarded], replies, 0);
    PromptsAppend(a, [Discarded]);
  }

  /** Over all batches: discipline, and exactly the prompts counted. */
  lemma RunOrderly(timedOut: string -> bool, batches: seq<seq<Item>>, replies: Replies)
    ensures Orderly(RunActions(timedOut, batches, replies), replies)
    ensures Prompts(RunActions(timedOut, batches, replies)) == TranslateAll(timedOut, batches, replies).1
  {
    BatchesOrderly(timedOut, batches, replies);
    ThenDiscard(BatchActions(timedOut, batches, replies), replies);
  }

  // ---------- the actions in the world of children, pipes and timers ----------

  /** What the driver is to do, the outcome of every prompt, and the parser that turns texts into outcomes. */
  datatype Plan = Plan(actions: seq<Action>, replies: Replies, parse: string -> Outcome)

  /** The actions done so far, and how each finished prompt was settled; nothing if it never reached a child. */
  datatype Driver = Driver(done: nat, answers: seq<Option<Record>>)

  predicate Turn(plan: Plan, e: Driver, asking: bool) {
    e.done < |plan.actions| && plan.actions[e.done].Asked? == asking
  }

  /** A parsed reply was parsed from the text the prompt was settled with. */
  predicate Backed(plan: Plan, n: nat, answer: Option<Record>) {
    plan.replies(n).Parsed? ==>
      answer.Some? && answer.value.settlement.text.Some?
        && plan.parse(answer.value.settlement.text.value) == plan.replies(n)
  }

  /** The current prompt ends with this settlement. */
  ghost predicate Ends(plan: Plan, e: Driver, answer: Option<Record>, e': Driver) {
    Backed(plan, |e.answers|, answer) && e' == Driver(e.done + 1, e.answers + [answer])
  }

  /** The driver's part in a step of the world from `v` to `w`. It does not know the discipline: it may create a
      client or ask whenever its next action is a prompt. */
  ghost predicate Moves(plan: Plan, v: World, e: Driver, s: Step, w: World, e': Driver) {
    match s
    case Create => Turn(plan, e, true) && e' == e
    case CreateFails => Turn(plan, e, true) && Ends(plan, e, None, e')
    case Ask => Turn(plan, e, true) && if w.phase.Waiting? then e' == e else Ends(plan, e, None, e')
    case Reset => Turn(plan, e, false) && e' == e.(done := e.done + 1)
    case _ =>
      if v.phase.Waiting? && !w.phase.Waiting? then w.log != [] && Ends(plan, e, Some(w.log[|w.log| - 1]), e')
      else e' == e
  }

  ghost predicate Driven(plan: Plan, steps: seq<Step>, w: World, e: Driver)
    decreases |steps|
  {
    if steps == [] then w == Start && e == Driver(0, [])
    else
      var init, s := steps[..|steps| - 1], steps[|steps| - 1];
      exists v, f :: Driven(plan, init, v, f) && Possible(v, s) && w == Next(v, s) && Moves(plan, v, f, s, w, e)
  }

  /** Where the driver stands when the world is in this state. */
  ghost predicate InStep(plan: Plan, w: World, e: Driver) {
    && e.done <= |plan.actions| && |e.answers| == Prompts(plan.actions[..e.done])
    && (w.phase.Waiting? ==> Turn(plan, e, true))
    && (w.phase.MustReset? ==> e.done > 0 && plan.actions[e.done - 1] == Asked(false))
  }

  /** Every parsed reply came with a settlement the callers saw. */
  ghost predicate AllBacked(plan: Plan, w: World, e: Driver) {
    forall n :: 0 <= n < |e.answers| ==>
      Backed(plan, n, e.answers[n]) && (e.answers[n].Some? ==> e.answers[n].value in w.log)
  }

  lemma PromptsNext(actions: seq<Action>, k: nat)
    requires k < |actions|
    ensures Prompts(actions[..k + 1]) == Prompts(actions[..k]) + if actions[k].Asked? then 1 else 0
  {
    assert actions[..k + 1][..k] == actions[..k];
  }

  /** A world event either leaves the caller waiting or settles its prompt, once. */
  lemma EventEffect(v: World, s: Step)
    requires Possible(v, s) && !s.Create? && !s.CreateFails? && !s.Ask? && !s.Reset?
    ensures var w := Next(v, s);
            || (w.phase == v.phase && w.log == v.log)
            || (v.phase.Waiting? && !w.phase.Waiting? && |w.log| == |v.log| + 1 && w.log[..|v.log|] == v.log
                && w.phase == if w.log[|v.log|].settlement.text.Some? then Idle else MustReset)
  {
  }

  /** The settlement of a prompt that was not backed by a text belongs to an unusable prompt. */
  lemma EndsInStep(plan: Plan, w: World, e: Driver, answer: Option<Record>, e': Driver)
    requires Orderly(plan.actions, plan.replies) && Turn(plan, e, true)
             && |e.answers| == Prompts(plan.actions[..e.done])
    requires Ends(plan, e, answer, e') && !w.phase.Waiting?
    requires w.phase.MustReset? ==> answer.None? || answer.value.settlement.text.None?
    ensures InStep(plan, w, e')
  {
    PromptsNext(plan.actions, e.done);
    if plan.actions[e.done] == Asked(true) {
      HonestPrefix(plan.actions, plan.replies, 0, e.done);
    }
  }

  lemma EndsBacked(plan: Plan, v: World, w: World, e: Driver, answer: Option<Record>, e': Driver)
    requires AllBacked(plan, v, e) && Ends(plan, e, answer, e') && v.log <= w.log
             && (answer.Some? ==> answer.value in w.log)
    ensures AllBacked(plan, w, e')
  {
    forall n | 0 <= n < |e'.answers|
      ensures Backed(plan, n, e'.answers[n]) && (e'.answers[n].Some? ==> e'.answers[n].value in w.log)
    {
      if n < |e.answers| {
        assert e'.answers[n] == e.answers[n];
      }
    }
  }

  /** The discipline holds at every prompt, and the driver stays in step. */
  lemma DriverStep(plan: Plan, v: World, e: Driver, s: Step, e': Driver)
    requires Orderly(plan.actions, plan.replies) && InStep(plan, v, e) && AllBacked(plan, v, e)
    requires Possible(v, s) && Moves(plan, v, e, s, Next(v, s), e')
    requires !v.live ==> v.phase.Idle?
    ensures Enabled(v, s) && InStep(plan, Next(v, s), e') && AllBacked(plan, Next(v, s), e')
  {
    var w := Next(v, s);
    if s.CreateFails? || (s.Ask? && !w.phase.Waiting?) {
      EndsInStep(plan, w, e, None, e');
      EndsBacked(plan, v, w, e, None, e');
    } else if s.Reset? {
      PromptsNext(plan.actions, e.done);
    } else if !s.Create? && !s.Ask? {
      EventEffect(v, s);
      if v.phase.Waiting? && !w.phase.Waiting? {
        EndsInStep(plan, w, e, Some(w.log[|w.log| - 1]), e');
        EndsBacked(plan, v, w, e, Some(w.log[|w.log| - 1]), e');
      }
    }
  }

  /** Playing disciplined actions never meets a disabled prompt: the play is a run of the protocol. */
  lemma {:induction false} DrivenIsRun(plan: Plan, steps: seq<Step>, w: World, e: Driver)
    requires Orderly(plan.actions, plan.replies) && Driven(plan, steps, w, e)
    ensures IsRun(steps, w) && InStep(plan, w, e) && AllBacked(plan, w, e)
    decreases |steps|
  {
    if steps != [] {
      var init, s := steps[..|steps| - 1], steps[|steps| - 1];
      var v, f :| Driven(plan, init, v, f) && Possible(v, s) && w == Next(v, s) && Moves(plan, v, f, s, w, e);
      DrivenIsRun(plan, init, v, f);
      RunKeeps(init, v);
      DriverStep(plan, v, f, s, e);
    }
  }

  /** Prompt `n` was answered by a child with a text that parses to `value` for `key`, in answer to that very prompt. */
  ghost predicate Answered(plan: Plan, w: World, e: Driver, n: nat, key: string, value: string) {
    && n < |e.answers| && e.answers[n].Some? && e.answers[n].value in w.log
    && var settled := e.answers[n].value.settlement;
       && settled.answers == settled.id && settled.text.Some?
       && plan.parse(settled.text.value).Parsed? && key in plan.parse(settled.text.value).values
       && plan.parse(settled.text.value).values[key] == value
  }

  lemma BackedIsAnswered(plan: Plan, steps: seq<Step>, w: World, e: Driver, n: nat, key: string, value: string)
    requires IsRun(steps, w) && AllBacked(plan, w, e) && n < |e.answers|
    requires plan.replies(n).Parsed? && key in plan.replies(n).values && plan.replies(n).values[key] == value
    ensures Answered(plan, w, e, n, key, value)
  {
    NoCrossTalk(steps, w);
    assert Backed(plan, n, e.answers[n]);
  }

  /** Whatever the children, pipes and timers do: the actions of a locale's batches never ask on a client that
      failed, every text a caller gets answers the very prompt it sent, and once the actions are done every
      translation of a run that did not break was read off the answer to one of its own prompts. */
  lemma TranslationsAnswerPrompts(
    timedOut: string -> bool, batches: seq<seq<Item>>, replies: Replies, parse: string -> Outcome,
    steps: seq<Step>, w: World, e: Driver)
    requires NoneEmpty(batches)
    requires Driven(Plan(RunActions(timedOut, batches, replies), replies, parse), steps, w, e)
    ensures IsRun(steps, w)
    ensures forall i :: 0 <= i < |w.log| && w.log[i].settlement.text.Some? ==>
              w.log[i].settlement.answers == w.log[i].settlement.id
    ensures var plan, result := Plan(RunActions(timedOut, batches, replies), replies, parse),
                                TranslateAll(timedOut, batches, replies).0;
            e.done == |plan.actions| && result.Done? ==>
              forall key :: key in result.values ==> exists n: nat :: Answered(plan, w, e, n, key, result.values[key])
  {
    var plan := Plan(RunActions(timedOut, batches, replies), replies, parse);
    var (result, end) := TranslateAll(timedOut, batches, replies);
    RunOrderly(timedOut, batches, replies);
    DrivenIsRun(plan, steps, w, e);
    NoCrossTalk(steps, w);
    if e.done == |plan.actions| && result.Done? {
      assert plan.actions[..e.done] == plan.actions;
      AllComplete(timedOut, batches, replies);
      forall key | key in result.values ensures exists n: nat :: Answered(plan, w, e, n, key, result.values[key]) {
        assert Sourced(replies, 0, end, key, result.values[key]);
        var n: nat :|
          n < end && replies(n).Parsed? && key in replies(n).values && replies(n).values[key] == result.values[key];
        BackedIsAnswered(plan, steps, w, e, n, key, result.values[key]);
      }
    }
  }
}
