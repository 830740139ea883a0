/** The RPC client of the translation child, and the way `translateBatch` uses it. */
module PiRpc {
  import opened Wrappers

  /** A line of the child's output. `agent_end` carries no request id; `answers` is the prompt the child
      was working on, which the client cannot see. `text` is missing when it holds an error. */
  datatype Line = Noise | Response(id: nat, success: bool) | AgentEnd(answers: nat, text: Option<string>)

  /** A prompt's promise is settled: with a text from the child, or with an error. */
  datatype Settlement = Settlement(id: nat, text: Option<string>, answers: nat)

  /** The fields of `PiRpcClient`, with the prompts whose timeout is armed. */
  datatype Client = Client(closed: bool, pending: Option<nat>, responseReceived: bool, requestCount: nat,
                           timers: set<nat>)

  const NewClient := Client(false, None, false, 0, {})

  function Rejected(id: nat): Settlement {
    Settlement(id, None, 0)
  }

  /** The body of `prompt` once its turn has come on an open client. */
  function StartPrompt(c: Client): Client {
    var id := c.requestCount + 1;
    c.(requestCount := id, pending := Some(id), responseReceived := false, timers := c.timers + {id})
  }

  function RejectPending(c: Client): (Client, Option<Settlement>) {
    if c.pending.None? then (c, None)
    else (c.(pending := None, timers := c.timers - {c.pending.value}), Some(Rejected(c.pending.value)))
  }

  function OnLine(c: Client, line: Line): (Client, Option<Settlement>) {
    if c.pending.None? then (c, None)
    else
      match line
      case Noise => (c, None)
      case Response(id, success) =>
        if id != c.pending.value then (c, None)
        else if success then (c.(responseReceived := true), None)
        else RejectPending(c)
      case AgentEnd(answers, text) =>
        (c.(pending := None, timers := c.timers - {c.pending.value}), Some(Settlement(c.pending.value, text, answers)))
  }

  function OnTimer(c: Client, id: nat): (Client, Option<Settlement>) {
    var c := c.(timers := c.timers - {id});
    if c.pending == Some(id) then (c.(pending := None, closed := true), Some(Rejected(id))) else (c, None)
  }

  function OnWriteError(c: Client, id: nat): (Client, Option<Settlement>) {
    (c.(timers := c.timers - {id}, pending := if c.pending == Some(id) then None else c.pending), Some(Rejected(id)))
  }

  function OnProcessClose(c: Client): (Client, Option<Settlement>) {
    RejectPending(c.(closed := true))
  }

  /** The client object itself: every callback does to its fields what the functions above say. */
  class PiRpcClient {
    var closed: bool
    var pending: Option<nat>
    var responseReceived: bool
    var requestCount: nat
    var timers: set<nat>

    ghost function State(): Client
      reads this
    {
      Client(closed, pending, responseReceived, requestCount, timers)
    }

    constructor ()
      ensures State() == NewClient
    {
      closed, pending, responseReceived, requestCount, timers := false, None, false, 0, {};
    }

    /** `prompt`, when its turn has come: refuses on a closed client, else registers the pending prompt. */
    method Prompt() returns (id: Option<nat>)
      modifies this
      ensures old(closed) ==> id == None && State() == old(State())
      ensures !old(closed) ==> id == Some(requestCount) && State() == StartPrompt(old(State()))
    {
      if closed {
        return None;
      }
      requestCount := requestCount + 1;
      timers := timers + {requestCount};
      pending, responseReceived := Some(requestCount), false;
      id := Some(requestCount);
    }

    method RejectPendingPrompt() returns (out: Option<Settlement>)
      modifies this
      ensures (State(), out) == RejectPending(old(State()))
    {
      var was := pending;
      pending := None;
      out := None;
      if was.Some? {
        timers := timers - {was.value};
        out := Some(Rejected(was.value));
      }
    }

    method HandleStdoutLine(line: Line) returns (out: Option<Settlement>)
      modifies this
      ensures (State(), out) == OnLine(old(State()), line)
    {
      out := None;
      if pending.None? {
        return;
      }
      match line
      case Noise =>
      case Response(id, success) =>
        if id != pending.value {
          return;
        }
        if !success {
          out := RejectPendingPrompt();
          return;
        }
        responseReceived := true;
      case AgentEnd(answers, text) =>
        out := Some(Settlement(pending.value, text, answers));
        timers := timers - {pending.value};
        pending := None;
    }

    method TimerFired(id: nat) returns (out: Option<Settlement>)
      modifies this
      ensures (State(), out) == OnTimer(old(State()), id)
    {
      out := None;
      timers := timers - {id};
      if pending == Some(id) {
        pending, closed := None, true;
        out := Some(Rejected(id));
      }
    }

    method WriteFailed(id: nat) returns (out: Option<Settlement>)
      modifies this
      ensures (State(), out) == OnWriteError(old(State()), id)
    {
      timers := timers - {id};
      if pending == Some(id) {
        pending := None;
      }
      out := Some(Rejected(id));
    }

    method ProcessClosed() returns (out: Option<Settlement>)
      modifies this
      ensures (State(), out) == OnProcessClose(old(State()))
    {
      closed := true;
      out := RejectPendingPrompt();
    }
  }

  // ---------- what becomes of one prompt ----------

  /** What can happen to a client while one of its prompts is open. */
  datatype Event =
    | Heard(line: Line)
    | Rang(id: nat)
    | Unwritten(id: nat)
    | Failed
    | Exited

  function Handle(c: Client, e: Event): (Client, Option<Settlement>) {
    match e
    case Heard(line) => OnLine(c, line)
    case Rang(id) => OnTimer(c, id)
    case Unwritten(id) => OnWriteError(c, id)
    case Failed => RejectPending(c)
    case Exited => OnProcessClose(c)
  }

  /** The client after some events, and the settlements they made. */
  function Play(c: Client, es: seq<Event>): (Client, seq<Settlement>) {
    if es == [] then (c, [])
    else
      var (before, outs) := Play(c, es[..|es| - 1]);
      var (after, out) := Handle(before, es[|es| - 1]);
      (after, outs + if out.Some? then [out.value] else [])
  }

  /** The events that end prompt `id`: a response that refuses it, any end of turn, its timeout, a failure to
      write it, and the failure or exit of the child. */
  predicate EndsPrompt(e: Event, id: nat) {
    match e
    case Heard(line) => line.AgentEnd? || line == Response(id, false)
    case Rang(other) => other == id
    case Unwritten(other) => other == id
    case Failed => true
    case Exited => true
  }

  /** Only an end of turn that carries a text resolves a prompt; everything else rejects it. */
  function SettlementBy(e: Event, id: nat): Settlement {
    if e.Heard? && e.line.AgentEnd? then Settlement(id, e.line.text, e.line.answers) else Settlement(id, None, 0)
  }

  lemma {:induction false} StillOpen(c: Client, es: seq<Event>)
    requires c.pending.Some? && c.pending.value in c.timers
    requires forall i :: 0 <= i < |es| ==> !EndsPrompt(es[i], c.pending.value)
    ensures var (after, outs) := Play(c, es);
            && after.pending == c.pending && c.pending.value in after.timers && after.closed == c.closed
            && (forall i :: 0 <= i < |outs| ==> outs[i].id != c.pending.value)
            && (after.responseReceived <==>
                c.responseReceived || exists i :: 0 <= i < |es| && es[i] == Heard(Response(c.pending.value, true)))
  {
    if es != [] {
      var n := |es| - 1;
      StillOpen(c, es[..n]);
      assert forall i :: 0 <= i < n ==> es[..n][i] == es[i];
      ReceivedWhen(es, c.pending.value);
    }
  }

  lemma ReceivedWhen(es: seq<Event>, id: nat)
    requires es != []
    ensures var n := |es| - 1;
            (exists i :: 0 <= i < |es| && es[i] == Heard(Response(id, true))) <==>
            (exists i :: 0 <= i < n && es[..n][i] == Heard(Response(id, true))) || es[n] == Heard(Response(id, true))
  {
    var n := |es| - 1;
    if i :| 0 <= i < |es| && es[i] == Heard(Response(id, true)) {
      assert i < n ==> es[..n][i] == es[i];
    }
    if i :| 0 <= i < n && es[..n][i] == Heard(Response(id, true)) {
      assert es[i] == Heard(Response(id, true));
    }
  }

  /** A prompt stays open, with its timer armed and unsettled, until the first event that ends it. That event
      settles it, with the text of an end of turn or else with an error, and disarms its timer; the client is
      closed iff the event was its timeout or the exit of the child. */
  lemma PromptAccount(c: Client, es: seq<Event>, k: nat)
    requires !c.closed && k < |es| && EndsPrompt(es[k], c.requestCount + 1)
    requires forall i :: 0 <= i < k ==> !EndsPrompt(es[i], c.requestCount + 1)
    ensures var id := c.requestCount + 1;
            var (open, outs) := Play(StartPrompt(c), es[..k]);
            var (after, out) := Handle(open, es[k]);
            && open.pending == Some(id) && id in open.timers && !open.closed
            && (forall i :: 0 <= i < |outs| ==> outs[i].id != id)
            && out == Some(SettlementBy(es[k], id)) && after.pending.None? && id !in after.timers
            && (after.closed <==> es[k].Rang? || es[k].Exited?)
  {
    StillOpen(StartPrompt(c), es[..k]);
  }

  // ---------- the children and the driver ----------

  /** A client with its child: lines on their way, and the prompts the child has ended. */
  datatype Link = Link(client: Client, wire: seq<Line>, ended: set<nat>)

  datatype Phase = Idle | Waiting | MustReset

  datatype Record = Record(link: nat, settlement: Settlement)

  /** All clients of a run, the last one possibly in use, and every settlement a caller has seen. */
  datatype World = World(links: seq<Link>, live: bool, phase: Phase, log: seq<Record>)

  datatype Step =
    | Create                        // `getClient` with no client in hand
    | CreateFails                   // the same, but no client comes about
    | Ask                           // `prompt` on the client in hand
    | Reset                         // `resetClient`
    | Emit(at: nat, line: Line)     // a child writes a line
    | Deliver(at: nat)              // its next line reaches the client
    | Timeout(at: nat, id: nat)
    | WriteError(at: nat, id: nat)
    | ProcessError(at: nat)
    | ProcessClose(at: nat)

  /** A child writes a line. */
  function Emitted(l: Link, line: Line): Link {
    l.(wire := l.wire + [line], ended := if line.AgentEnd? then l.ended + {line.answers} else l.ended)
  }

  function Last(w: World): Link
    requires w.links != []
  {
    w.links[|w.links| - 1]
  }

  /** What may happen. A child ends each prompt at most once, and only after it was written; everything else
      about the children, the pipes and the timers is arbitrary. The caller awaits its prompts. */
  predicate Possible(w: World, s: Step) {
    match s
    case Create => !w.live && !w.phase.Waiting?
    case CreateFails => !w.live && !w.phase.Waiting?
    case Ask => w.live && !w.phase.Waiting? && w.links != []
    case Reset => !w.phase.Waiting? && (w.live ==> w.links != [])
    case Emit(at, line) =>
      at < |w.links| &&
      (line.AgentEnd? ==> 1 <= line.answers <= w.links[at].client.requestCount && line.answers !in w.links[at].ended)
    case Deliver(at) => at < |w.links| && w.links[at].wire != []
    case Timeout(at, id) => at < |w.links| && id in w.links[at].client.timers
    case WriteError(at, id) => at < |w.links| && 1 <= id <= w.links[at].client.requestCount
    case ProcessError(at) => at < |w.links|
    case ProcessClose(at) => at < |w.links|
  }

  /** The same under the driver's discipline: after a failed prompt the client is reset before the next one. */
  predicate Enabled(w: World, s: Step) {
    Possible(w, s) && (s.Ask? ==> w.phase.Idle?)
  }

  /** A handler's effect on one client; only the prompt somebody waits for can still settle. */
  function Settle(w: World, at: nat, l: Link, out: Option<Settlement>): World
    requires at < |w.links|
  {
    var w' := w.(links := w.links[at := l]);
    if out.Some? && w.live && at == |w.links| - 1 && w.phase.Waiting? && out.value.id == l.client.requestCount then
      w'.(phase := if out.value.text.Some? then Idle else MustReset, log := w.log + [Record(at, out.value)])
    else w'
  }

  function Next(w: World, s: Step): World
    requires Possible(w, s)
  {
    match s
    case Create => w.(links := w.links + [Link(NewClient, [], {})], live := true)
    case CreateFails => w
    case Ask =>
      var l := Last(w);
      if l.client.closed then w.(phase := MustReset)
      else w.(links := w.links[|w.links| - 1 := l.(client := StartPrompt(l.client))], phase := Waiting)
    case Reset =>
      if !w.live then w
      else
        var l := Last(w);
        w.(links := w.links[|w.links| - 1 := l.(client := l.client.(closed := true))], live := false, phase := Idle)
    case Emit(at, line) =>
      var l := w.links[at];
      w.(links := w.links[at := Emitted(l, line)])
    case Deliver(at) =>
      var l := w.links[at];
      var (c, out) := OnLine(l.client, l.wire[0]);
      Settle(w, at, l.(client := c, wire := l.wire[1..]), out)
    case Timeout(at, id) =>
      var (c, out) := OnTimer(w.links[at].client, id);
      Settle(w, at, w.links[at].(client := c), out)
    case WriteError(at, id) =>
      var (c, out) := OnWriteError(w.links[at].client, id);
      Settle(w, at, w.links[at].(client := c), out)
    case ProcessError(at) =>
      var (c, out) := RejectPending(w.links[at].client);
      Settle(w, at, w.links[at].(client := c), out)
    case ProcessClose(at) =>
      var (c, out) := OnProcessClose(w.links[at].client);
      Settle(w, at, w.links[at].(client := c), out)
  }

  const Start := World([], false, Idle, [])

  ghost predicate IsRun(steps: seq<Step>, w: World)
    decreases |steps|
  {
    if steps == [] then w == Start
    else
      var init, s := steps[..|steps| - 1], steps[|steps| - 1];
      exists v :: IsRun(init, v) && Enabled(v, s) && w == Next(v, s)
  }

  // ---------- what every step keeps ----------

  /** Nobody waits on this client. */
  predicate Quiet(l: Link) {
    l.client.pending.None?
  }

  /** All prompts of this client were answered, and no end of turn is on its way. */
  ghost predicate Drained(l: Link) {
    && Quiet(l)
    && (forall k :: 1 <= k <= l.client.requestCount ==> k in l.ended)
    && (forall i :: 0 <= i < |l.wire| ==> !l.wire[i].AgentEnd?)
  }

  /** The last prompt is pending with its timer armed; an end of turn on its way is the one for that prompt. */
  ghost predicate Awaiting(l: Link) {
    var id := l.client.requestCount;
    && id >= 1 && l.client.pending == Some(id) && id in l.client.timers
    && (forall k :: 1 <= k < id ==> k in l.ended)
    && (forall i :: 0 <= i < |l.wire| && l.wire[i].AgentEnd? ==> l.wire[i].answers == id && id in l.ended)
    && (forall i, j :: 0 <= i < j < |l.wire| ==> !(l.wire[i].AgentEnd? && l.wire[j].AgentEnd?))
    && (id in l.ended ==> exists i :: 0 <= i < |l.wire| && l.wire[i].AgentEnd?)
  }

  ghost predicate LastOk(w: World)
    requires w.links != []
  {
    match w.phase
    case Idle => Drained(Last(w))
    case Waiting => Awaiting(Last(w))
    case MustReset => Quiet(Last(w))
  }

  /** A child only ends prompts that were written to it. */
  ghost predicate EndsWritten(l: Link) {
    forall k :: k in l.ended ==> 1 <= k <= l.client.requestCount
  }

  ghost predicate LinksOk(w: World) {
    && (w.live ==> w.links != [] && LastOk(w))
    && (!w.live ==> w.phase.Idle?)
    && (forall i :: 0 <= i < |w.links| ==> EndsWritten(w.links[i]))
    && (forall i :: 0 <= i < |w.links| && !(w.live && i == |w.links| - 1) ==> Quiet(w.links[i]))
  }

  /** Callers only see answers to their own prompts. */
  ghost predicate AnswersMatch(log: seq<Record>) {
    forall i :: 0 <= i < |log| && log[i].settlement.text.Some? ==> log[i].settlement.answers == log[i].settlement.id
  }

  /** Every prompt is settled at most once, and the one awaited not yet. */
  ghost predicate SettledOnce(w: World) {
    && (forall i :: 0 <= i < |w.log| ==>
          && w.log[i].link < |w.links| && w.log[i].settlement.id <= w.links[w.log[i].link].client.requestCount
          && (w.live && w.phase.Waiting? && w.log[i].link == |w.links| - 1 ==>
                w.log[i].settlement.id < Last(w).client.requestCount))
    && (forall i, j :: 0 <= i < j < |w.log| ==>
          w.log[i].link != w.log[j].link || w.log[i].settlement.id != w.log[j].settlement.id)
  }

  ghost predicate Inv(w: World) {
    LinksOk(w) && AnswersMatch(w.log) && SettledOnce(w)
  }

  // ---------- single clients ----------

  lemma DrainedStarts(l: Link)
    requires Drained(l) && EndsWritten(l)
    ensures Awaiting(l.(client := StartPrompt(l.client))) && EndsWritten(l.(client := StartPrompt(l.client)))
  {
  }

  /** The state of one link, seen from the driver. */
  datatype Role = Unused | InUse(phase: Phase)

  ghost predicate LinkOk(l: Link, r: Role) {
    && EndsWritten(l)
    && match r
       case Unused => Quiet(l)
       case InUse(phase) =>
         match phase
         case Idle => Drained(l)
         case Waiting => Awaiting(l)
         case MustReset => Quiet(l)
  }

  /** The role after a handler ran: an awaited prompt's settlement ends the waiting. */
  function After(r: Role, l: Link, out: Option<Settlement>): Role {
    if r == InUse(Waiting) && out.Some? && out.value.id == l.client.requestCount then
      InUse(if out.value.text.Some? then Idle else MustReset)
    else r
  }

  lemma EmitKeeps(l: Link, line: Line, r: Role)
    requires LinkOk(l, r)
    requires line.AgentEnd? ==> 1 <= line.answers <= l.client.requestCount && line.answers !in l.ended
    ensures LinkOk(Emitted(l, line), r)
  {
    var l' := Emitted(l, line);
    assert l'.wire[|l.wire|] == line;
    assert forall i :: 0 <= i < |l.wire| ==> l'.wire[i] == l.wire[i];
  }

  /** Delivering a line: if the awaited prompt resolves, the answer is its own, and nothing stays behind. */
  lemma DeliverKeeps(l: Link, r: Role)
    requires LinkOk(l, r) && l.wire != []
    ensures var (c, out) := OnLine(l.client, l.wire[0]);
            var l' := l.(client := c, wire := l.wire[1..]);
            && LinkOk(l', After(r, l', out))
            && (out.Some? && out.value.text.Some? ==> r == InUse(Waiting) && out.value.answers == out.value.id)
            && c.requestCount == l.client.requestCount
  {
    var l' := l.(client := OnLine(l.client, l.wire[0]).0, wire := l.wire[1..]);
    assert forall i :: 0 <= i < |l'.wire| ==> l'.wire[i] == l.wire[i + 1];
    if r == InUse(Waiting) && l.client.requestCount in l.ended {
      var i :| 0 <= i < |l.wire| && l.wire[i].AgentEnd?;
      if i > 0 { assert l'.wire[i - 1].AgentEnd?; }
    }
  }

  /** The other handlers never resolve a prompt. */
  lemma HandlerKeeps(l: Link, r: Role, c: Client, out: Option<Settlement>, id: nat)
    requires LinkOk(l, r)
    requires (c, out) == OnTimer(l.client, id) || (c, out) == OnWriteError(l.client, id)
             || (c, out) == RejectPending(l.client) || (c, out) == OnProcessClose(l.client)
    ensures LinkOk(l.(client := c), After(r, l.(client := c), out))
    ensures out.Some? ==> out.value.text.None?
    ensures c.requestCount == l.client.requestCount
  {
  }

  // ---------- the whole run ----------

  function RoleOf(w: World, at: nat): Role {
    if w.live && at == |w.links| - 1 then InUse(w.phase) else Unused
  }

  lemma SettleLinks(w: World, at: nat, l: Link, out: Option<Settlement>)
    requires LinksOk(w) && at < |w.links| && LinkOk(l, After(RoleOf(w, at), l, out))
    ensures LinksOk(Settle(w, at, l, out))
  {
    var w' := Settle(w, at, l, out);
    assert forall i :: 0 <= i < |w.links| && i != at ==> w'.links[i] == w.links[i];
  }

  lemma SettleLog(w: World, at: nat, l: Link, out: Option<Settlement>)
    requires SettledOnce(w) && at < |w.links| && l.client.requestCount == w.links[at].client.requestCount
    ensures SettledOnce(Settle(w, at, l, out))
  {
    var w' := Settle(w, at, l, out);
    assert forall i :: 0 <= i < |w.links| ==> w'.links[i].client.requestCount == w.links[i].client.requestCount;
    assert forall i :: 0 <= i < |w.log| ==> w'.log[i] == w.log[i];
  }

  lemma SettleKeeps(w: World, at: nat, l: Link, out: Option<Settlement>)
    requires Inv(w) && at < |w.links|
    requires l.client.requestCount == w.links[at].client.requestCount
    requires LinkOk(l, After(RoleOf(w, at), l, out))
    requires out.Some? && out.value.text.Some? ==> out.value.answers == out.value.id
    ensures Inv(Settle(w, at, l, out))
  {
    SettleLinks(w, at, l, out);
    SettleLog(w, at, l, out);
  }

  lemma InvStep(w: World, s: Step)
    requires Inv(w) && Enabled(w, s)
    ensures Inv(Next(w, s))
  {
    match s
    case Create => CreateKeeps(w);
    case CreateFails =>
    case Ask => AskKeeps(w);
    case Reset => ResetKeeps(w);
    case Emit(at, line) =>
      EmitKeeps(w.links[at], line, RoleOf(w, at));
      UpdateKeeps(w, at, Next(w, s).links[at]);
    case Deliver(at) =>
      DeliverKeeps(w.links[at], RoleOf(w, at));
      var (c, out) := OnLine(w.links[at].client, w.links[at].wire[0]);
      SettleKeeps(w, at, w.links[at].(client := c, wire := w.links[at].wire[1..]), out);
    case Timeout(at, id) =>
      var (c, out) := OnTimer(w.links[at].client, id);
      HandlerKeeps(w.links[at], RoleOf(w, at), c, out, id);
      SettleKeeps(w, at, w.links[at].(client := c), out);
    case WriteError(at, id) =>
      var (c, out) := OnWriteError(w.links[at].client, id);
      HandlerKeeps(w.links[at], RoleOf(w, at), c, out, id);
      SettleKeeps(w, at, w.links[at].(client := c), out);
    case ProcessError(at) =>
      var (c, out) := RejectPending(w.links[at].client);
      HandlerKeeps(w.links[at], RoleOf(w, at), c, out, 0);
      SettleKeeps(w, at, w.links[at].(client := c), out);
    case ProcessClose(at) =>
      var (c, out) := OnProcessClose(w.links[at].client);
      HandlerKeeps(w.links[at], RoleOf(w, at), c, out, 0);
      SettleKeeps(w, at, w.links[at].(client := c), out);
  }

  lemma UpdateKeeps(w: World, at: nat, l: Link)
    requires Inv(w) && at < |w.links|
    requires LinkOk(l, RoleOf(w, at)) && l.client.requestCount == w.links[at].client.requestCount
    ensures Inv(w.(links := w.links[at := l]))
  {
    SettleKeeps(w, at, l, None);
  }

  lemma CreateKeeps(w: World)
    requires Inv(w) && Enabled(w, Create)
    ensures Inv(Next(w, Create))
  {
  }

  lemma AskKeeps(w: World)
    requires Inv(w) && Enabled(w, Ask)
    ensures Inv(Next(w, Ask))
  {
    DrainedStarts(Last(w));
  }

  lemma ResetKeeps(w: World)
    requires Inv(w) && Enabled(w, Reset)
    ensures Inv(Next(w, Reset))
  {
  }

  /** Every reachable state keeps the invariant. */
  lemma {:induction false} RunKeeps(steps: seq<Step>, w: World)
    requires IsRun(steps, w)
    ensures Inv(w)
    decreases |steps|
  {
    if steps != [] {
      var init, s := steps[..|steps| - 1], steps[|steps| - 1];
      var v :| IsRun(init, v) && Enabled(v, s) && w == Next(v, s);
      RunKeeps(init, v);
      InvStep(v, s);
    }
  }

  /** Over whole runs every text a caller gets answers the very prompt it sent, and no prompt settles twice. */
  lemma NoCrossTalk(steps: seq<Step>, w: World)
    requires IsRun(steps, w)
    ensures forall i :: 0 <= i < |w.log| && w.log[i].settlement.text.Some? ==>
              w.log[i].settlement.answers == w.log[i].settlement.id
    ensures forall i, j :: 0 <= i < j < |w.log| ==>
              w.log[i].link != w.log[j].link || w.log[i].settlement.id != w.log[j].settlement.id
  {
    RunKeeps(steps, w);
  }

  /** An unsettled prompt is exactly the pending one of the client in use, and its timer is armed. */
  lemma UnsettledIsPending(steps: seq<Step>, w: World)
    requires IsRun(steps, w)
    ensures w.phase.Waiting? <==> exists i :: 0 <= i < |w.links| && w.links[i].client.pending.Some?
    ensures w.phase.Waiting? ==>
              && w.live && w.links != []
              && Last(w).client.pending == Some(Last(w).client.requestCount)
              && Last(w).client.requestCount in Last(w).client.timers
    ensures forall i :: 0 <= i < |w.links| && w.links[i].client.pending.Some? ==> i == |w.links| - 1
  {
    RunKeeps(steps, w);
    if w.phase.Waiting? {
      assert w.links[|w.links| - 1].client.pending.Some?;
    }
  }

  /** What the driver's own steps do: a new client is open, with nothing asked, and in use; a prompt on an open client
      becomes its pending one and is waited for, on a closed one it fails at once; a reset closes the client in use,
      and no client is in use afterwards. */
  lemma DriverStepsMean(w: World)
    ensures Possible(w, Create) ==>
              var v := Next(w, Create);
              v.live && v.links == w.links + [Link(Client(false, None, false, 0, {}), [], {})] && v.phase == w.phase
    ensures Possible(w, CreateFails) ==> Next(w, CreateFails) == w
    ensures Possible(w, Ask) ==>
              var v, c, n := Next(w, Ask), Last(w).client, |w.links| - 1;
              if c.closed then v == w.(phase := MustReset)
              else
                && v.phase.Waiting? && v.links[..n] == w.links[..n]
                && v.links[n].client.pending == Some(c.requestCount + 1)
    ensures Possible(w, Reset) && w.live ==>
              var v, n := Next(w, Reset), |w.links| - 1;
              !v.live && v.phase.Idle? && v.links[..n] == w.links[..n] && v.links[n].client.closed
    ensures Possible(w, Reset) && !w.live ==> Next(w, Reset) == w
  {
  }

  /** Prompts do get answered: a run in which the child ends its first turn with a text returns that text. */
  lemma AnswerArrives(text: string) returns (w: World)
    ensures IsRun([Create, Ask, Emit(0, AgentEnd(1, Some(text))), Deliver(0)], w)
    ensures w.log == [Record(0, Settlement(1, Some(text), 1))] && w.phase.Idle? && w.live
  {
    var line := AgentEnd(1, Some(text));
    var w2 := FirstPrompt();
    var w3 := Extend([Create, Ask], w2, Emit(0, line));
    assert [Create, Ask] + [Emit(0, line)] == [Create, Ask, Emit(0, line)];
    w := Extend([Create, Ask, Emit(0, line)], w3, Deliver(0));
    assert [Create, Ask, Emit(0, line)] + [Deliver(0)] == [Create, Ask, Emit(0, line), Deliver(0)];
  }

  lemma FirstPrompt() returns (w: World)
    ensures IsRun([Create, Ask], w)
    ensures w == World([Link(Client(false, Some(1), false, 1, {1}), [], {})], true, Waiting, [])
  {
    var w1 := Extend([], Start, Create);
    assert [] + [Create] == [Create];
    assert w1.links == [Link(NewClient, [], {})];
    w := Extend([Create], w1, Ask);
    assert StartPrompt(NewClient) == Client(false, Some(1), false, 1, {1});
    assert w.links == [Link(Client(false, Some(1), false, 1, {1}), [], {})];
    assert [Create] + [Ask] == [Create, Ask];
  }

  lemma Extend(steps: seq<Step>, v: World, s: Step) returns (w: World)
    requires IsRun(steps, v) && Enabled(v, s)
    ensures w == Next(v, s) && IsRun(steps + [s], w)
  {
    w := Next(v, s);
    assert (steps + [s])[..|steps|] == steps;
  }

  /** Without the reset the guarantee is lost: after a refused prompt, the late end of its turn answers the
      next prompt sent on the same client. */
  lemma ReuseMixesAnswers(text: string)
    ensures var c1 := StartPrompt(NewClient);
            var (c2, out1) := OnLine(c1, Response(1, false));
            var c3 := StartPrompt(c2);
            var (c4, out2) := OnLine(c3, AgentEnd(1, Some(text)));
            out1 == Some(Rejected(1)) && out2 == Some(Settlement(2, Some(text), 1))
  {
  }
}
