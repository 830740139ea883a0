/** The CPU time of a process and all its descendants, from one listing of the process table. */
module ProcessTree {
  import opened Wrappers

  /** A parsed line: process, parent, CPU milliseconds. */
  datatype Row = Row(pid: nat, ppid: nat, cpuMs: nat)

  /** The last line of a pid gives its CPU time. */
  function CpuByPid(rows: seq<Row>): map<nat, nat> {
    if rows == [] then map[] else CpuByPid(rows[..|rows| - 1])[rows[|rows| - 1].pid := rows[|rows| - 1].cpuMs]
  }

  function ChildrenOf(rows: seq<Row>, parent: nat): seq<nat> {
    if rows == [] then []
    else ChildrenOf(rows[..|rows| - 1], parent) + if rows[|rows| - 1].ppid == parent then [rows[|rows| - 1].pid] else []
  }

  /** Some line makes `child` a child of `parent`. */
  ghost predicate Edge(rows: seq<Row>, parent: nat, child: nat) {
    exists i :: 0 <= i < |rows| && rows[i].ppid == parent && rows[i].pid == child
  }

  lemma {:induction false} ChildrenAreEdges(rows: seq<Row>, parent: nat, child: nat)
    ensures child in ChildrenOf(rows, parent) <==> Edge(rows, parent, child)
  {
    if rows != [] {
      var n := |rows| - 1;
      ChildrenAreEdges(rows[..n], parent, child);
      if i :| 0 <= i < n && rows[i].ppid == parent && rows[i].pid == child {
        assert rows[..n][i] == rows[i];
      }
      if i :| 0 <= i < n && rows[..n][i].ppid == parent && rows[..n][i].pid == child {
        assert rows[i] == rows[..n][i];
      }
    }
  }

  // ---------- reachability ----------

  /** `path` leads from `root` along parent-child lines, never through pid 0. */
  ghost predicate IsPath(rows: seq<Row>, root: nat, path: seq<nat>) {
    && path != [] && path[0] == root
    && (forall i :: 0 <= i < |path| ==> path[i] != 0)
    && (forall i :: 0 <= i < |path| - 1 ==> Edge(rows, path[i], path[i + 1]))
  }

  ghost predicate Reachable(rows: seq<Row>, root: nat, pid: nat) {
    exists path :: IsPath(rows, root, path) && path[|path| - 1] == pid
  }

  lemma ReachStep(rows: seq<Row>, root: nat, pid: nat, child: nat)
    requires Reachable(rows, root, pid) && Edge(rows, pid, child) && child != 0
    ensures Reachable(rows, root, child)
  {
    var path :| IsPath(rows, root, path) && path[|path| - 1] == pid;
    var longer := path + [child];
    forall i | 0 <= i < |longer| - 1 ensures Edge(rows, longer[i], longer[i + 1]) {
      if i < |path| - 1 { assert Edge(rows, path[i], path[i + 1]); }
    }
    assert IsPath(rows, root, longer);
  }

  /** A set that holds the root and the children of its members holds everything reachable. */
  lemma {:induction false} ClosedHolds(rows: seq<Row>, root: nat, seen: set<nat>, path: seq<nat>)
    requires IsPath(rows, root, path) && root in seen
    requires forall p, c :: p in seen && Edge(rows, p, c) && c != 0 ==> c in seen
    ensures path[|path| - 1] in seen
    decreases |path|
  {
    if |path| > 1 {
      var n := |path| - 1;
      assert IsPath(rows, root, path[..n]);
      ClosedHolds(rows, root, seen, path[..n]);
      assert Edge(rows, path[n - 1], path[n]);
    }
  }

  // ---------- sums over sets ----------

  function Cpu(cpu: map<nat, nat>, pid: nat): nat {
    if pid in cpu then cpu[pid] else 0
  }

  ghost function Sum(cpu: map<nat, nat>, s: set<nat>): nat {
    if s == {} then 0 else var p :| p in s; Cpu(cpu, p) + Sum(cpu, s - {p})
  }

  lemma {:induction false} SumAdd(cpu: map<nat, nat>, s: set<nat>, q: nat)
    requires q !in s
    ensures Sum(cpu, s + {q}) == Sum(cpu, s) + Cpu(cpu, q)
    decreases s
  {
    var all := s + {q};
    var p :| p in all && Sum(cpu, all) == Cpu(cpu, p) + Sum(cpu, all - {p});
    if p == q {
      assert all - {p} == s;
    } else {
      assert all - {p} == (s - {p}) + {q};
      SumAdd(cpu, s - {p}, q);
      SumAdd(cpu, s - {p}, p);
      assert s - {p} + {p} == s;
    }
  }

  /** Exactly the listed processes have a CPU time, the one of their last line. */
  lemma {:induction false} CpuIsLast(rows: seq<Row>, pid: nat)
    ensures pid in CpuByPid(rows) <==> pid in Pids(rows)
    ensures forall i :: 0 <= i < |rows| && rows[i].pid == pid && (forall j :: i < j < |rows| ==> rows[j].pid != pid) ==>
              pid in CpuByPid(rows) && CpuByPid(rows)[pid] == rows[i].cpuMs
  {
    if rows != [] {
      var n := |rows| - 1;
      CpuIsLast(rows[..n], pid);
      assert forall i :: 0 <= i < n ==> rows[..n][i] == rows[i];
      assert Pids(rows) == Pids(rows[..n]) + {rows[n].pid};
    }
  }

  /** Sums over sets: nothing for no process, and each process adds its CPU time once. */
  lemma SumMeans(cpu: map<nat, nat>, s: set<nat>, q: nat)
    ensures Sum(cpu, {}) == 0
    ensures Sum(cpu, s + {q}) == if q in s then Sum(cpu, s) else Sum(cpu, s) + (if q in cpu then cpu[q] else 0)
  {
    if q in s {
      assert s + {q} == s;
    } else {
      SumAdd(cpu, s, q);
    }
  }

  // ---------- the walk ----------

  ghost predicate Stacked(rows: seq<Row>, root: nat, stack: seq<nat>) {
    forall i :: 0 <= i < |stack| ==> stack[i] == 0 || Reachable(rows, root, stack[i])
  }

  /** Everything the visited processes lead to is visited or on the stack. */
  ghost predicate Pending(rows: seq<Row>, seen: set<nat>, stack: seq<nat>) {
    forall p, c :: p in seen && Edge(rows, p, c) && c != 0 ==> c in seen || c in stack
  }

  ghost function Pids(rows: seq<Row>): set<nat> {
    set i | 0 <= i < |rows| :: rows[i].pid
  }

  lemma PathEnd(rows: seq<Row>, root: nat, pid: nat)
    requires Reachable(rows, root, pid) && pid != root
    ensures pid in Pids(rows)
  {
    var path :| IsPath(rows, root, path) && path[|path| - 1] == pid;
    var n := |path| - 1;
    assert Edge(rows, path[n - 1], path[n]);
  }

  /** The processes reachable from the root: the root itself and listed processes. */
  ghost function Tree(rows: seq<Row>, root: nat): set<nat> {
    set p | p in Pids(rows) + {root} && Reachable(rows, root, p)
  }

  /** What the walk has done and still has to do. */
  ghost predicate Walking(rows: seq<Row>, root: nat, seen: set<nat>, stack: seq<nat>) {
    && (forall p :: p in seen ==> p != 0 && Reachable(rows, root, p))
    && Stacked(rows, root, stack) && Pending(rows, seen, stack)
    && (root in seen || root in stack)
    && seen <= Pids(rows) + {root}
  }

  lemma StartWalk(rows: seq<Row>, root: nat)
    requires root != 0
    ensures Walking(rows, root, {}, [root])
  {
    assert IsPath(rows, root, [root]);
    assert [root][|[root]| - 1] == root;
  }

  /** A pid already visited, or 0, is dropped. */
  lemma DropWalk(rows: seq<Row>, root: nat, seen: set<nat>, stack: seq<nat>)
    requires root != 0 && Walking(rows, root, seen, stack) && stack != []
    requires var pid := stack[|stack| - 1]; pid == 0 || pid in seen
    ensures Walking(rows, root, seen, stack[..|stack| - 1])
  {
    var n := |stack| - 1;
    assert stack == stack[..n] + [stack[n]];
  }

  /** A new pid is visited and its children are pushed. */
  lemma VisitWalk(rows: seq<Row>, root: nat, seen: set<nat>, stack: seq<nat>)
    requires root != 0 && Walking(rows, root, seen, stack) && stack != []
    requires var pid := stack[|stack| - 1]; pid != 0 && pid !in seen
    ensures var pid := stack[|stack| - 1];
            Walking(rows, root, seen + {pid}, stack[..|stack| - 1] + ChildrenOf(rows, pid))
  {
    var n := |stack| - 1;
    var pid, rest := stack[n], stack[..n];
    assert stack == rest + [pid];
    var after := rest + ChildrenOf(rows, pid);
    assert Reachable(rows, root, pid);
    forall c | c in ChildrenOf(rows, pid) ensures c == 0 || Reachable(rows, root, c) {
      ChildrenAreEdges(rows, pid, c);
      if c != 0 { ReachStep(rows, root, pid, c); }
    }
    forall i | 0 <= i < |after| ensures after[i] == 0 || Reachable(rows, root, after[i]) {
      if i < n { assert after[i] == stack[i]; } else { assert after[i] in ChildrenOf(rows, pid); }
    }
    PendingAfter(rows, seen, stack);
    if pid != root { PathEnd(rows, root, pid); }
  }

  lemma PendingAfter(rows: seq<Row>, seen: set<nat>, stack: seq<nat>)
    requires stack != [] && Pending(rows, seen, stack)
    ensures var pid := stack[|stack| - 1];
            Pending(rows, seen + {pid}, stack[..|stack| - 1] + ChildrenOf(rows, pid))
  {
    var n := |stack| - 1;
    var pid := stack[n];
    assert stack == stack[..n] + [pid];
    forall p, c | p in seen + {pid} && Edge(rows, p, c) && c != 0
      ensures c in seen + {pid} || c in stack[..n] + ChildrenOf(rows, pid)
    {
      if p == pid { ChildrenAreEdges(rows, pid, c); }
    }
  }

  /** When the stack is empty, exactly the reachable processes have been visited. */
  lemma WalkDone(rows: seq<Row>, root: nat, seen: set<nat>)
    requires Walking(rows, root, seen, [])
    ensures seen == Tree(rows, root)
  {
    forall p | p in Tree(rows, root) ensures p in seen {
      var path :| IsPath(rows, root, path) && path[|path| - 1] == p;
      ClosedHolds(rows, root, seen, path);
    }
  }

  /** `readProcessTreeCpuMs` on the parsed listing: each process reachable from the root counts once, for any
      parent table, cyclic ones included. */
  method ReadProcessTreeCpuMs(root: nat, rows: seq<Row>) returns (r: Option<nat>)
    ensures r.None? <==> root == 0 || root !in Pids(rows)
    ensures r.Some? ==> r.value == Sum(CpuByPid(rows), Tree(rows, root))
  {
    if root == 0 {
      return None;
    }
    var childrenByParent, cpuByPid := BuildTables(rows);
    CpuIsLast(rows, root);
    if root !in cpuByPid {
      return None;
    }
    var total, seen, stack := 0, {}, [root];
    StartWalk(rows, root);
    while stack != []
      invariant Walking(rows, root, seen, stack) && total == Sum(cpuByPid, seen)
      decreases (Pids(rows) + {root}) - seen, |stack|
    {
      var pid := stack[|stack| - 1];
      if pid == 0 || pid in seen {
        DropWalk(rows, root, seen, stack);
        stack := stack[..|stack| - 1];
        continue;
      }
      VisitWalk(rows, root, seen, stack);
      SumAdd(cpuByPid, seen, pid);
      assert pid in (Pids(rows) + {root}) - seen by { assert pid in seen + {pid}; }
      seen := seen + {pid};
      total := total + if pid in cpuByPid then cpuByPid[pid] else 0;
      stack := stack[..|stack| - 1] + if pid in childrenByParent then childrenByParent[pid] else [];
    }
    WalkDone(rows, root, seen);
    r := Some(total);
  }

  /** The two tables, filled line by line. */
  method BuildTables(rows: seq<Row>) returns (childrenByParent: map<nat, seq<nat>>, cpuByPid: map<nat, nat>)
    ensures cpuByPid == CpuByPid(rows)
    ensures forall p :: ChildrenOf(rows, p) == if p in childrenByParent then childrenByParent[p] else []
  {
    childrenByParent, cpuByPid := map[], map[];
    for i := 0 to |rows|
      invariant cpuByPid == CpuByPid(rows[..i])
      invariant forall p :: ChildrenOf(rows[..i], p) == if p in childrenByParent then childrenByParent[p] else []
    {
      var row := rows[i];
      assert rows[..i + 1][..i] == rows[..i];
      cpuByPid := cpuByPid[row.pid := row.cpuMs];
      var children := if row.ppid in childrenByParent then childrenByParent[row.ppid] else [];
      assert children == ChildrenOf(rows[..i], row.ppid);
      childrenByParent := childrenByParent[row.ppid := children + [row.pid]];
    }
    assert rows[..|rows|] == rows;
  }
}
