/** CPU time of a process tree, summed by a stack search over the process table. */
module ProcessTree {
  import opened Text
  import opened Reachability

  datatype Row = Row(pid: nat, parent: nat, cpuMs: nat)

  /** The last row of a process tells its CPU time. */
  function Cpu(rows: seq<Row>, pid: nat): Option<nat> {
    if rows == [] then None
    else if rows[|rows| - 1].pid == pid then Some(rows[|rows| - 1].cpuMs)
    else Cpu(rows[..|rows| - 1], pid)
  }

  function Children(rows: seq<Row>, parent: nat): seq<nat> {
    if rows == [] then []
    else Children(rows[..|rows| - 1], parent) + if rows[|rows| - 1].parent == parent then [rows[|rows| - 1].pid] else []
  }

  /** The children of a process are those some row names it as the parent of. */
  lemma {:induction false} ChildrenExactly(rows: seq<Row>, parent: nat, child: nat)
    ensures child in Children(rows, parent) <==> exists row | row in rows :: row.pid == child && row.parent == parent
  {
    if rows == [] {
    } else {
      var init, last := rows[..|rows| - 1], rows[|rows| - 1];
      ChildrenExactly(init, parent, child);
      assert rows == init + [last];
    }
  }

  ghost predicate LastRow(rows: seq<Row>, pid: nat, i: int) {
    0 <= i < |rows| && rows[i].pid == pid && forall j | i < j < |rows| :: rows[j].pid != pid
  }

  /** A process has a CPU time exactly when some row lists it, and it is that of the last one. */
  lemma {:induction false} CpuExactly(rows: seq<Row>, pid: nat)
    ensures forall i | LastRow(rows, pid, i) :: Cpu(rows, pid) == Some(rows[i].cpuMs)
    ensures Cpu(rows, pid).Some? <==> exists i :: LastRow(rows, pid, i)
  {
    if rows == [] {
    } else if rows[|rows| - 1].pid == pid {
      assert LastRow(rows, pid, |rows| - 1);
    } else {
      var init := rows[..|rows| - 1];
      CpuExactly(init, pid);
      assert forall j | 0 <= j < |init| :: init[j] == rows[j];
      assert forall i :: LastRow(rows, pid, i) <==> LastRow(init, pid, i);
    }
  }

  /** The children the search follows; process number 0 is never entered. */
  function Below(rows: seq<Row>): nat -> set<nat> {
    pid => set child | child in Children(rows, pid) && child != 0
  }

  function CpuOrZero(rows: seq<Row>, pid: nat): nat {
    match Cpu(rows, pid) case Some(ms) => ms case None => 0
  }

  ghost function Total(rows: seq<Row>, pids: set<nat>): nat {
    if pids == {} then 0
    else
      var pid :| pid in pids;
      CpuOrZero(rows, pid) + Total(rows, pids - {pid})
  }

  lemma {:induction false} TotalOneMore(rows: seq<Row>, pids: set<nat>, pid: nat)
    requires pid !in pids
    ensures Total(rows, pids + {pid}) == Total(rows, pids) + CpuOrZero(rows, pid)
    decreases pids
  {
    var all := pids + {pid};
    var picked :| picked in all && Total(rows, all) == CpuOrZero(rows, picked) + Total(rows, all - {picked});
    if picked == pid {
      assert all - {pid} == pids;
    } else {
      assert all - {picked} == pids - {picked} + {pid};
      TotalOneMore(rows, pids - {picked}, pid);
      assert pids == pids - {picked} + {picked};
      TotalOneMore(rows, pids - {picked}, picked);
    }
  }

  function Pids(rows: seq<Row>): set<nat> {
    set row | row in rows :: row.pid
  }

  lemma {:induction false} ChildrenInTable(rows: seq<Row>, parent: nat, child: nat)
    requires child in Children(rows, parent)
    ensures child in Pids(rows)
  {
    var last := rows[|rows| - 1];
    assert last in rows;
    if child != last.pid || last.parent != parent {
      ChildrenInTable(rows[..|rows| - 1], parent, child);
      assert forall row | row in rows[..|rows| - 1] :: row in rows;
    }
  }

  /** All reachable processes, each once. */
  ghost predicate IsTree(rows: seq<Row>, root: nat, tree: set<nat>) {
    forall pid :: pid in tree <==> Reachable(Below(rows), root, pid)
  }

  ghost predicate Searched(rows: seq<Row>, root: nat, seen: set<nat>, stack: seq<nat>) {
    && (root in seen || root in stack) && 0 !in seen
    && seen <= Pids(rows) + {root}
    && (forall pid | pid in stack :: pid == 0 || Reachable(Below(rows), root, pid))
    && (forall pid | pid in stack :: pid in Pids(rows) + {root})
    && (forall pid | pid in seen :: Reachable(Below(rows), root, pid))
    && (forall pid | pid in seen :: Below(rows)(pid) <= seen + set p | p in stack)
  }

  /** None without a root in the table; otherwise the CPU time summed over the processes
      reachable from it, each counted once however often and in whatever cycles it is listed. */
  method ReadProcessTreeCpuMs(rows: seq<Row>, root: nat) returns (total: Option<nat>, ghost tree: set<nat>)
    ensures total.None? <==> root == 0 || Cpu(rows, root).None?
    ensures total.Some? ==> IsTree(rows, root, tree) && total.value == Total(rows, tree)
  {
    tree := {};
    if root == 0 || Cpu(rows, root).None? {
      return None, tree;
    }
    var totalCpuMs := 0;
    var seen: set<nat> := {};
    var stack := [root];
    ReachesItself(Below(rows), root);
    while stack != []
      invariant Searched(rows, root, seen, stack)
      invariant totalCpuMs == Total(rows, seen)
      decreases Pids(rows) + {root} - seen, |stack|
    {
      var pid, rest := stack[|stack| - 1], stack[..|stack| - 1];
      assert stack == rest + [pid];
      stack := rest;
      if pid != 0 && pid !in seen {
        PushKeepsSearched(rows, root, seen, rest, pid);
        TotalOneMore(rows, seen, pid);
        seen := seen + {pid};
        totalCpuMs := totalCpuMs + CpuOrZero(rows, pid);
        stack := rest + Children(rows, pid);
      }
    }
    forall pid | Reachable(Below(rows), root, pid) ensures pid in seen {
      ClosedHolds(Below(rows), seen, root, pid);
    }
    return Some(totalCpuMs), seen;
  }

  lemma PushKeepsSearched(rows: seq<Row>, root: nat, seen: set<nat>, stack: seq<nat>, pid: nat)
    requires Searched(rows, root, seen, stack + [pid]) && pid != 0
    ensures Searched(rows, root, seen + {pid}, stack + Children(rows, pid))
  {
    assert pid in stack + [pid];
    forall child | child in Children(rows, pid) ensures child in Pids(rows) && (child == 0 || Reachable(Below(rows), root, child)) {
      ChildrenInTable(rows, pid, child);
      if child != 0 {
        ReachesNext(Below(rows), root, pid, child);
      }
    }
    forall p | p in seen + {pid} ensures Below(rows)(p) <= seen + {pid} + set q | q in stack + Children(rows, pid) {
      if p in seen {
        assert Below(rows)(p) <= seen + set q | q in stack + [pid];
      }
    }
  }
}
