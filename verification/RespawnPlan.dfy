/** The two planners that let the CLI replace itself, and chains of such replacements. */
module RespawnPlan {
  import opened Wrappers

  type Env = map<string, string>

  const WARNING_FLAG := "--disable-warning=ExperimentalWarning"
  const NO_WARNINGS := "--no-warnings"
  const OPTIONS_READY := "ALIEN_NODE_OPTIONS_READY"
  const CERTS_READY := "ALIEN_NODE_EXTRA_CA_CERTS_READY"
  const CACHE_RESPAWNED := "ALIEN_SOURCE_COMPILE_CACHE_RESPAWNED"
  const NO_RESPAWN := "ALIEN_NO_RESPAWN"
  const EXTRA_CERTS := "NODE_EXTRA_CA_CERTS"
  const NODE_OPTIONS := "NODE_OPTIONS"
  const COMPILE_CACHE := "NODE_COMPILE_CACHE"
  const NO_COMPILE_CACHE := "NODE_DISABLE_COMPILE_CACHE"

  /** A running CLI: its environment, Node's own options, and `process.argv`. */
  datatype Process = Process(env: Env, execArgv: seq<string>, argv: seq<string>)

  /** What the planners learn from code and files outside them; it may differ from process to process. */
  datatype Host = Host(
    windows: bool,
    execPath: string,
    command: string,
    entryFile: string,
    sourceCheckout: bool,
    compileCacheDir: string,
    skipStartup: seq<string> -> bool,
    skipRespawn: seq<string> -> bool,
    autoCerts: Env -> string,
    boot: Env -> Env)

  /** `spawn(command, execArgv + rest, env)`; Node takes its options off the front again. */
  datatype Plan = Plan(command: string, execArgv: seq<string>, rest: seq<string>, env: Env)

  /** `array.slice(n)` */
  function Drop(s: seq<string>, n: nat): seq<string> {
    if n <= |s| then s[n..] else []
  }

  predicate Includes(s: string, part: string) {
    part <= s || (s != "" && Includes(s[1..], part))
  }

  function Read(env: Env, name: string): string {
    if name in env then env[name] else ""
  }

  predicate Truthy(truthy: string -> bool, env: Env, name: string) {
    name in env && truthy(env[name])
  }

  predicate WarningSuppressed(p: Process) {
    || Includes(Read(p.env, NODE_OPTIONS), WARNING_FLAG) || Includes(Read(p.env, NODE_OPTIONS), NO_WARNINGS)
    || WARNING_FLAG in p.execArgv || NO_WARNINGS in p.execArgv
  }

  predicate NeedsCerts(truthy: string -> bool, h: Host, p: Process) {
    h.autoCerts(p.env) != "" && !Truthy(truthy, p.env, CERTS_READY) && Read(p.env, EXTRA_CERTS) == ""
  }

  predicate NeedsFlag(truthy: string -> bool, h: Host, p: Process) {
    !h.skipRespawn(p.argv) && !Truthy(truthy, p.env, OPTIONS_READY) && !WarningSuppressed(p)
  }

  /** `buildCliRespawnPlan` */
  function CliPlan(truthy: string -> bool, h: Host, p: Process): Option<Plan> {
    if h.skipStartup(p.argv) || Truthy(truthy, p.env, NO_RESPAWN) || h.windows then None
    else
      var certs, flag := NeedsCerts(truthy, h, p), NeedsFlag(truthy, h, p);
      var env := if certs then p.env[EXTRA_CERTS := h.autoCerts(p.env)][CERTS_READY := "1"] else p.env;
      var env' := if flag then env[OPTIONS_READY := "1"] else env;
      var execArgv := if flag then [WARNING_FLAG] + p.execArgv else p.execArgv;
      if !certs && !flag then None else Some(Plan(h.command, execArgv, Drop(p.argv, 1), env'))
  }

  /** `buildAlienCompileCacheRespawnPlan` */
  function CachePlan(h: Host, p: Process): Option<Plan> {
    if !h.sourceCheckout || Read(p.env, CACHE_RESPAWNED) == "1" then None
    else if h.compileCacheDir == "" && !(COMPILE_CACHE in p.env && NO_COMPILE_CACHE !in p.env) then None
    else
      Some(Plan(h.execPath, p.execArgv, [h.entryFile] + Drop(p.argv, 2),
                p.env[NO_COMPILE_CACHE := "1"][CACHE_RESPAWNED := "1"] - {COMPILE_CACHE}))
  }

  function Child(h: Host, plan: Plan): Process {
    Process(plan.env, plan.execArgv, [h.execPath] + plan.rest)
  }

  /** The entry point: the compile-cache plan first, then, on the prepared environment, the CLI plan. */
  function Respawn(truthy: string -> bool, h: Host, p: Process): Option<Process> {
    match CachePlan(h, p)
    case Some(plan) => Some(Child(h, plan))
    case None =>
      match CliPlan(truthy, h, p.(env := h.boot(p.env)))
      case Some(plan) => Some(Child(h, plan))
      case None => None
  }

  /** The variables the planners decide on. */
  const Watched: set<string> := {OPTIONS_READY, CERTS_READY, CACHE_RESPAWNED, EXTRA_CERTS, NODE_OPTIONS}

  ghost predicate SameOn(a: Env, b: Env, names: set<string>) {
    forall n :: n in names ==> (n in a <==> n in b) && (n in a ==> a[n] == b[n])
  }

  /** Preparing the environment leaves the watched variables alone. */
  ghost predicate Prepares(h: Host) {
    forall env :: SameOn(h.boot(env), env, Watched)
  }

  ghost predicate IsChain(truthy: string -> bool, hosts: seq<Host>, ps: seq<Process>) {
    && |ps| == |hosts| + 1
    && forall i :: 0 <= i < |hosts| ==> Prepares(hosts[i]) && Respawn(truthy, hosts[i], ps[i]) == Some(ps[i + 1])
  }

  // ---------- when a process respawns, and into what ----------

  predicate StandsAt(s: string, part: string, i: nat) {
    i + |part| <= |s| && s[i..i + |part|] == part
  }

  /** `includes` means that the part stands somewhere in the text. */
  lemma {:induction false} IncludesMeans(s: string, part: string)
    ensures Includes(s, part) <==> exists i: nat :: StandsAt(s, part, i)
  {
    if part <= s {
      assert StandsAt(s, part, 0);
    } else if s != "" {
      IncludesMeans(s[1..], part);
      if i: nat :| StandsAt(s, part, i) {
        assert i > 0 && StandsAt(s[1..], part, i - 1);
      }
      if i: nat :| StandsAt(s[1..], part, i) {
        assert StandsAt(s, part, i + 1);
      }
    }
  }

  /** A variable that is missing or empty. */
  predicate NotGiven(env: Env, name: string) {
    name !in env || env[name] == ""
  }

  /** A variable that is missing or not truthy. */
  predicate NotSet(truthy: string -> bool, env: Env, name: string) {
    name !in env || !truthy(env[name])
  }

  /** The text of a variable holds `part`. */
  ghost predicate Mentions(env: Env, name: string, part: string) {
    name in env && exists i: nat :: StandsAt(env[name], part, i)
  }

  /** The CLI has certificates to add: found by the lookup, not added before, and none chosen by the user. */
  predicate WantsCerts(truthy: string -> bool, h: Host, p: Process) {
    h.autoCerts(p.env) != "" && NotSet(truthy, p.env, "ALIEN_NODE_EXTRA_CA_CERTS_READY")
    && NotGiven(p.env, "NODE_EXTRA_CA_CERTS")
  }

  /** The CLI has the flag to add: not exempt, not added before, and warnings suppressed in no other way. */
  ghost predicate WantsFlag(truthy: string -> bool, h: Host, p: Process) {
    && !h.skipRespawn(p.argv) && NotSet(truthy, p.env, "ALIEN_NODE_OPTIONS_READY")
    && !Mentions(p.env, "NODE_OPTIONS", "--disable-warning=ExperimentalWarning")
    && !Mentions(p.env, "NODE_OPTIONS", "--no-warnings")
    && "--disable-warning=ExperimentalWarning" !in p.execArgv && "--no-warnings" !in p.execArgv
  }

  /** `env` is `old'` with exactly these variables set. */
  ghost predicate Sets(old': Env, env: Env, values: Env) {
    && env.Keys == old'.Keys + values.Keys
    && forall n :: n in env ==> env[n] == if n in values then values[n] else old'[n]
  }

  lemma NeedsAreWants(truthy: string -> bool, h: Host, p: Process)
    ensures NeedsCerts(truthy, h, p) <==> WantsCerts(truthy, h, p)
    ensures NeedsFlag(truthy, h, p) <==> WantsFlag(truthy, h, p)
  {
    var options := Read(p.env, NODE_OPTIONS);
    IncludesMeans(options, WARNING_FLAG);
    IncludesMeans(options, NO_WARNINGS);
    assert NODE_OPTIONS !in p.env ==> !Includes(options, WARNING_FLAG) && !Includes(options, NO_WARNINGS);
  }

  /** The CLI respawns iff it is not exempt at startup, respawning is not switched off, the platform is not
      Windows, and it has certificates or the flag to add. Then it passes everything behind the executable on,
      puts the flag first, and sets exactly the variables of what it adds. */
  lemma CliPlanExactly(truthy: string -> bool, h: Host, p: Process)
    ensures CliPlan(truthy, h, p).Some? <==>
            && !h.skipStartup(p.argv) && NotSet(truthy, p.env, "ALIEN_NO_RESPAWN") && !h.windows
            && (WantsCerts(truthy, h, p) || WantsFlag(truthy, h, p))
    ensures CliPlan(truthy, h, p).Some? ==>
              var plan := CliPlan(truthy, h, p).value;
              var certs := map["NODE_EXTRA_CA_CERTS" := h.autoCerts(p.env), "ALIEN_NODE_EXTRA_CA_CERTS_READY" := "1"];
              var flag := map["ALIEN_NODE_OPTIONS_READY" := "1"];
              && plan.command == h.command && (p.argv != [] ==> p.argv == [p.argv[0]] + plan.rest)
              && (WantsFlag(truthy, h, p) ==> plan.execArgv == ["--disable-warning=ExperimentalWarning"] + p.execArgv)
              && (!WantsFlag(truthy, h, p) ==> plan.execArgv == p.execArgv)
              && Sets(p.env, plan.env, (if WantsCerts(truthy, h, p) then certs else map[])
                                       + (if WantsFlag(truthy, h, p) then flag else map[]))
  {
    NeedsAreWants(truthy, h, p);
  }

  /** The compile cache is switched off by a respawn iff the CLI runs from a source checkout, this has not
      happened before, and a compile cache is in use or asked for. Then options and user arguments are passed on
      with the entry file, two variables are set, the one that asks for a cache is removed, and no other changes. */
  lemma CachePlanExactly(h: Host, p: Process)
    ensures CachePlan(h, p).Some? <==>
            && h.sourceCheckout
            && ("ALIEN_SOURCE_COMPILE_CACHE_RESPAWNED" in p.env ==>
                  p.env["ALIEN_SOURCE_COMPILE_CACHE_RESPAWNED"] != "1")
            && (h.compileCacheDir != "" || ("NODE_COMPILE_CACHE" in p.env && "NODE_DISABLE_COMPILE_CACHE" !in p.env))
    ensures CachePlan(h, p).Some? ==>
              var plan := CachePlan(h, p).value;
              && plan.command == h.execPath && plan.execArgv == p.execArgv
              && plan.rest == [h.entryFile] + (if |p.argv| <= 2 then [] else p.argv[2..])
              && "NODE_COMPILE_CACHE" !in plan.env
              && Sets(p.env - {"NODE_COMPILE_CACHE"}, plan.env,
                      map["NODE_DISABLE_COMPILE_CACHE" := "1", "ALIEN_SOURCE_COMPILE_CACHE_RESPAWNED" := "1"])
  {
  }

  /** A process respawns by the compile-cache plan if there is one, else by the CLI plan on the prepared
      environment, else not at all; the child runs the plan's options, arguments and environment. */
  lemma RespawnExactly(truthy: string -> bool, h: Host, p: Process)
    ensures var prepared := p.(env := h.boot(p.env));
            var plan := if CachePlan(h, p).Some? then CachePlan(h, p) else CliPlan(truthy, h, prepared);
            && (Respawn(truthy, h, p).Some? <==> plan.Some?)
            && (plan.Some? ==> Respawn(truthy, h, p).value ==
                               Process(plan.value.env, plan.value.execArgv, [h.execPath] + plan.value.rest))
  {
  }

  // ---------- every respawn sets a marker ----------

  function Bit(b: bool): nat {
    if b then 1 else 0
  }

  /** The number of markers not yet set. */
  function Unset(truthy: string -> bool, env: Env): nat {
    Bit(Read(env, CACHE_RESPAWNED) != "1") + Bit(!Truthy(truthy, env, CERTS_READY))
      + Bit(!Truthy(truthy, env, OPTIONS_READY))
  }

  /** The state a hop must keep from its parent. */
  ghost predicate Keeps(p: Process, q: Process) {
    && Drop(q.argv, 2) == Drop(p.argv, 2)
    && (q.execArgv == p.execArgv || (WARNING_FLAG !in p.execArgv && q.execArgv == [WARNING_FLAG] + p.execArgv))
    && (Read(p.env, EXTRA_CERTS) != "" ==> Read(q.env, EXTRA_CERTS) == Read(p.env, EXTRA_CERTS))
    && SameOn(p.env, q.env, {NODE_OPTIONS})
  }

  lemma CacheHop(truthy: string -> bool, h: Host, p: Process)
    requires truthy("1") && CachePlan(h, p).Some?
    ensures var q := Child(h, CachePlan(h, p).value); Unset(truthy, q.env) == Unset(truthy, p.env) - 1 && Keeps(p, q)
  {
    var q := Child(h, CachePlan(h, p).value);
    assert SameOn(p.env, q.env, {CERTS_READY, OPTIONS_READY, EXTRA_CERTS, NODE_OPTIONS});
  }

  lemma CliHop(truthy: string -> bool, h: Host, p: Process)
    requires truthy("1") && CliPlan(truthy, h, p).Some?
    ensures var q := Child(h, CliPlan(truthy, h, p).value); Unset(truthy, q.env) < Unset(truthy, p.env) && Keeps(p, q)
  {
    var q := Child(h, CliPlan(truthy, h, p).value);
    assert SameOn(p.env, q.env, {CACHE_RESPAWNED, NODE_OPTIONS});
  }

  lemma PreparedSame(truthy: string -> bool, h: Host, p: Process)
    requires Prepares(h)
    ensures Unset(truthy, h.boot(p.env)) == Unset(truthy, p.env)
    ensures Keeps(p, p.(env := h.boot(p.env)))
  {
    assert SameOn(h.boot(p.env), p.env, Watched);
    assert forall n :: n in Watched ==> Read(h.boot(p.env), n) == Read(p.env, n);
  }

  /** A respawn of either kind sets a marker for good, keeps the user's arguments, adds the warning flag only
      where it is missing, and never replaces certificates the user chose. */
  lemma RespawnHop(truthy: string -> bool, h: Host, p: Process)
    requires truthy("1") && Prepares(h) && Respawn(truthy, h, p).Some?
    ensures var q := Respawn(truthy, h, p).value; Unset(truthy, q.env) < Unset(truthy, p.env) && Keeps(p, q)
  {
    if CachePlan(h, p).Some? {
      CacheHop(truthy, h, p);
    } else {
      PreparedSame(truthy, h, p);
      CliHop(truthy, h, p.(env := h.boot(p.env)));
    }
  }

  lemma ChainInit(truthy: string -> bool, hosts: seq<Host>, ps: seq<Process>)
    requires IsChain(truthy, hosts, ps) && hosts != []
    ensures IsChain(truthy, hosts[..|hosts| - 1], ps[..|hosts|])
  {
  }

  /** Whatever the unseen predicates answer, a chain has at most three respawns. */
  lemma {:induction false} ChainBound(truthy: string -> bool, hosts: seq<Host>, ps: seq<Process>)
    requires truthy("1") && IsChain(truthy, hosts, ps)
    ensures |hosts| + Unset(truthy, ps[|hosts|].env) <= Unset(truthy, ps[0].env) && |hosts| <= 3
    decreases |hosts|
  {
    if hosts != [] {
      var n := |hosts| - 1;
      ChainInit(truthy, hosts, ps);
      ChainBound(truthy, hosts[..n], ps[..n + 1]);
      assert Respawn(truthy, hosts[n], ps[n]) == Some(ps[n + 1]) && Prepares(hosts[n]);
      RespawnHop(truthy, hosts[n], ps[n]);
    }
  }

  /** Along a chain the user's arguments stay the same, the warning flag is added at most once, and
      certificates the user set are never overwritten. */
  lemma {:induction false} ChainKeepsIntent(truthy: string -> bool, hosts: seq<Host>, ps: seq<Process>)
    requires truthy("1") && IsChain(truthy, hosts, ps)
    ensures Keeps(ps[0], ps[|hosts|])
    decreases |hosts|
  {
    if hosts != [] {
      var n := |hosts| - 1;
      ChainInit(truthy, hosts, ps);
      ChainKeepsIntent(truthy, hosts[..n], ps[..n + 1]);
      assert Respawn(truthy, hosts[n], ps[n]) == Some(ps[n + 1]) && Prepares(hosts[n]);
      RespawnHop(truthy, hosts[n], ps[n]);
      assert WARNING_FLAG in [WARNING_FLAG] + ps[0].execArgv;
    }
  }

  // ---------- predicates that do not change their minds ----------

  /** The unseen predicates depend on the user's arguments only, and the certificate lookup is not influenced
      by the variables that respawning itself sets. */
  ghost predicate Steady(a: Host, b: Host, p: Process, q: Process) {
    && (a.skipRespawn(p.argv) <==> b.skipRespawn(q.argv))
    && (a.autoCerts(a.boot(p.env)) == "" <==> b.autoCerts(b.boot(q.env)) == "")
  }

  /** Once the CLI plan has been followed, nothing is left for it to do. */
  lemma CliPlanOnce(truthy: string -> bool, a: Host, b: Host, p: Process, q: Process)
    requires truthy("1") && Prepares(a) && Prepares(b) && Steady(a, b, p, q)
    requires CliPlan(truthy, a, p.(env := a.boot(p.env))).Some?
    requires var r := Child(a, CliPlan(truthy, a, p.(env := a.boot(p.env))).value);
             && Keeps(r, q)
             && (forall n :: n in {CERTS_READY, OPTIONS_READY} && Truthy(truthy, r.env, n) ==> Truthy(truthy, q.env, n))
    ensures CliPlan(truthy, b, q.(env := b.boot(q.env))).None?
  {
    var p', q' := p.(env := a.boot(p.env)), q.(env := b.boot(q.env));
    var r := Child(a, CliPlan(truthy, a, p').value);
    assert SameOn(b.boot(q.env), q.env, Watched);
    CertsOnce(truthy, a, b, p', r, q, q');
    FlagOnce(truthy, a, b, p', r, q, q');
  }

  lemma CertsOnce(truthy: string -> bool, a: Host, b: Host, p: Process, r: Process, q: Process, q': Process)
    requires truthy("1") && CliPlan(truthy, a, p).Some? && r == Child(a, CliPlan(truthy, a, p).value)
    requires Keeps(r, q) && (Truthy(truthy, r.env, CERTS_READY) ==> Truthy(truthy, q.env, CERTS_READY))
    requires SameOn(q'.env, q.env, {CERTS_READY, EXTRA_CERTS})
    requires a.autoCerts(p.env) == "" <==> b.autoCerts(q'.env) == ""
    ensures !NeedsCerts(truthy, b, q')
  {
    if !NeedsCerts(truthy, a, p) {
      assert SameOn(r.env, p.env, {CERTS_READY, EXTRA_CERTS});
    }
    assert Read(q'.env, EXTRA_CERTS) == Read(q.env, EXTRA_CERTS);
  }

  lemma FlagOnce(truthy: string -> bool, a: Host, b: Host, p: Process, r: Process, q: Process, q': Process)
    requires truthy("1") && CliPlan(truthy, a, p).Some? && r == Child(a, CliPlan(truthy, a, p).value)
    requires Keeps(r, q) && (Truthy(truthy, r.env, OPTIONS_READY) ==> Truthy(truthy, q.env, OPTIONS_READY))
    requires SameOn(q'.env, q.env, {OPTIONS_READY, NODE_OPTIONS}) && q'.execArgv == q.execArgv && q'.argv == q.argv
    requires a.skipRespawn(p.argv) <==> b.skipRespawn(q.argv)
    ensures !NeedsFlag(truthy, b, q')
  {
    if !NeedsFlag(truthy, a, p) {
      assert SameOn(r.env, p.env, {OPTIONS_READY, NODE_OPTIONS});
      assert Read(q'.env, NODE_OPTIONS) == Read(p.env, NODE_OPTIONS);
    }
  }

  /** Markers stay set. */
  ghost predicate Marks(truthy: string -> bool, p: Process, q: Process) {
    && (Read(p.env, CACHE_RESPAWNED) == "1" ==> Read(q.env, CACHE_RESPAWNED) == "1")
    && (forall n :: n in {CERTS_READY, OPTIONS_READY} && Truthy(truthy, p.env, n) ==> Truthy(truthy, q.env, n))
  }

  lemma HopMarks(truthy: string -> bool, h: Host, p: Process)
    requires truthy("1") && Prepares(h) && Respawn(truthy, h, p).Some?
    ensures Marks(truthy, p, Respawn(truthy, h, p).value)
    ensures CachePlan(h, p).Some? ==> Read(Respawn(truthy, h, p).value.env, CACHE_RESPAWNED) == "1"
  {
    var q := Respawn(truthy, h, p).value;
    if CachePlan(h, p).Some? {
      assert SameOn(p.env, q.env, {CERTS_READY, OPTIONS_READY});
    } else {
      assert SameOn(h.boot(p.env), p.env, Watched);
      assert SameOn(h.boot(p.env), q.env, {CACHE_RESPAWNED});
    }
  }

  lemma {:induction false} ChainMarks(truthy: string -> bool, hosts: seq<Host>, ps: seq<Process>)
    requires truthy("1") && IsChain(truthy, hosts, ps)
    ensures Marks(truthy, ps[0], ps[|hosts|])
    decreases |hosts|
  {
    if hosts != [] {
      var n := |hosts| - 1;
      ChainInit(truthy, hosts, ps);
      ChainMarks(truthy, hosts[..n], ps[..n + 1]);
      assert Respawn(truthy, hosts[n], ps[n]) == Some(ps[n + 1]) && Prepares(hosts[n]);
      HopMarks(truthy, hosts[n], ps[n]);
    }
  }

  lemma ChainPart(truthy: string -> bool, hosts: seq<Host>, ps: seq<Process>, i: nat, j: nat)
    requires truthy("1") && IsChain(truthy, hosts, ps) && i <= j <= |hosts|
    ensures Keeps(ps[i], ps[j]) && Marks(truthy, ps[i], ps[j])
  {
    var hs, qs := hosts[i..j], ps[i..j + 1];
    assert IsChain(truthy, hs, qs) by {
      forall k | 0 <= k < |hs| ensures Prepares(hs[k]) && Respawn(truthy, hs[k], qs[k]) == Some(qs[k + 1]) {
        assert hs[k] == hosts[i + k] && qs[k] == ps[i + k] && qs[k + 1] == ps[i + k + 1];
      }
    }
    ChainKeepsIntent(truthy, hs, qs);
    ChainMarks(truthy, hs, qs);
  }

  /** Two respawns of one chain are never of the same kind. */
  lemma KindsDiffer(truthy: string -> bool, hosts: seq<Host>, ps: seq<Process>, i: nat, j: nat)
    requires truthy("1") && IsChain(truthy, hosts, ps) && i < j < |hosts| && Steady(hosts[i], hosts[j], ps[i], ps[j])
    ensures CachePlan(hosts[i], ps[i]).Some? <==> CachePlan(hosts[j], ps[j]).None?
  {
    ChainPart(truthy, hosts, ps, i + 1, j);
    assert Respawn(truthy, hosts[i], ps[i]) == Some(ps[i + 1]) && Prepares(hosts[i]);
    assert Respawn(truthy, hosts[j], ps[j]) == Some(ps[j + 1]) && Prepares(hosts[j]);
    if CachePlan(hosts[i], ps[i]).Some? {
      HopMarks(truthy, hosts[i], ps[i]);
    } else if CachePlan(hosts[j], ps[j]).None? {
      CliPlanOnce(truthy, hosts[i], hosts[j], ps[i], ps[j]);
    }
  }

  /** With predicates that do not change their minds a chain has at most two respawns, one of each kind. */
  lemma SteadyChainBound(truthy: string -> bool, hosts: seq<Host>, ps: seq<Process>)
    requires truthy("1") && IsChain(truthy, hosts, ps)
    requires forall i, j :: 0 <= i < j < |hosts| ==> Steady(hosts[i], hosts[j], ps[i], ps[j])
    ensures |hosts| <= 2
  {
    if |hosts| > 2 {
      KindsDiffer(truthy, hosts, ps, 0, 1);
      KindsDiffer(truthy, hosts, ps, 1, 2);
      KindsDiffer(truthy, hosts, ps, 0, 2);
    }
  }

  /** With fickle predicates the bound of three is reached. */
  lemma ThreeRespawnsPossible(truthy: string -> bool) returns (hosts: seq<Host>, ps: seq<Process>)
    requires truthy("1")
    ensures IsChain(truthy, hosts, ps) && |hosts| == 3
  {
    var cache := Host(false, "node", "node", "entry.js", true, "dir", _ => false, _ => true, _ => "", e => e);
    var certs := cache.(autoCerts := _ => "ca.pem");
    var flag := cache.(skipRespawn := _ => false);
    var p0 := Process(map[], [], ["node", "entry.js"]);
    var p1 := Process(map[NO_COMPILE_CACHE := "1", CACHE_RESPAWNED := "1"], [], ["node", "entry.js"]);
    var p2 := p1.(env := p1.env[EXTRA_CERTS := "ca.pem"][CERTS_READY := "1"]);
    var p3 := p2.(env := p2.env[OPTIONS_READY := "1"], execArgv := [WARNING_FLAG]);
    hosts, ps := [cache, certs, flag], [p0, p1, p2, p3];
    ThreeHops(truthy, cache, certs, flag, p0, p1, p2, p3);
  }

  lemma ThreeHops(truthy: string -> bool, cache: Host, certs: Host, flag: Host, p0: Process, p1: Process, p2: Process,
                  p3: Process)
    requires truthy("1")
    requires cache.sourceCheckout && cache.compileCacheDir == "dir" && cache.entryFile == "entry.js"
             && cache.execPath == "node"
    requires p0 == Process(map[], [], ["node", "entry.js"])
    requires p1 == Process(map[NO_COMPILE_CACHE := "1", CACHE_RESPAWNED := "1"], [], ["node", "entry.js"])
    requires p2 == p1.(env := p1.env[EXTRA_CERTS := "ca.pem"][CERTS_READY := "1"])
    requires p3 == p2.(env := p2.env[OPTIONS_READY := "1"], execArgv := [WARNING_FLAG])
    requires certs.execPath == "node" && !certs.windows && !certs.skipStartup(p1.argv) && certs.skipRespawn(p1.argv)
    requires certs.boot(p1.env) == p1.env && certs.autoCerts(p1.env) == "ca.pem"
    requires flag.execPath == "node" && !flag.windows && !flag.skipStartup(p2.argv) && !flag.skipRespawn(p2.argv)
    requires flag.boot(p2.env) == p2.env
    ensures Respawn(truthy, cache, p0) == Some(p1)
    ensures Respawn(truthy, certs, p1) == Some(p2)
    ensures Respawn(truthy, flag, p2) == Some(p3)
  {
    var script: seq<string> := ["node", "entry.js"];
    assert Drop(script, 2) == [] && ["node"] + (["entry.js"] + Drop(script, 2)) == script;
    assert Drop(script, 1) == ["entry.js"] && ["node"] + Drop(script, 1) == script;
    assert Respawn(truthy, cache, p0).value.env == p1.env;
    assert [WARNING_FLAG] + p2.execArgv == [WARNING_FLAG];
    assert NeedsCerts(truthy, certs, p1) && !NeedsFlag(truthy, certs, p1);
    assert !NeedsCerts(truthy, flag, p2);
    assert NeedsFlag(truthy, flag, p2);
  }
}
