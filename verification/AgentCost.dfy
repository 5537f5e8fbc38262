/**
  What the agent itself costs (agent_cost.go): its row and those of everything it started,
  plus the children that came and went between two passes.
*/
module AgentCost {
  import opened Options
  import opened Rows
  import Members

  // --------------------------------------------------------------- the subtree

  /** A process that is n steps below `self` by parent links. */
  ghost predicate Below(raw: seq<Row>, self: int, pid: int, n: nat)
    decreases n
  {
    if n == 0 then pid == self
    else exists i :: 0 <= i < |raw| && raw[i].pid == pid && raw[i].ppid != 0 && Below(raw, self, raw[i].ppid, n - 1)
  }

  ghost predicate Descendant(raw: seq<Row>, self: int, pid: int) { exists n: nat :: Below(raw, self, pid, n) }

  /** The rows whose parent is `pid` are all accounted for. */
  ghost predicate Expanded(raw: seq<Row>, seen: set<int>, pid: int) {
    forall i :: 0 <= i < |raw| && raw[i].ppid == pid != 0 ==> raw[i].pid in seen
  }

  lemma {:induction false} ClosedHoldsAll(raw: seq<Row>, self: int, seen: set<int>, pid: int, n: nat)
    requires self in seen && Below(raw, self, pid, n)
    requires forall p :: p in seen ==> Expanded(raw, seen, p)
    ensures pid in seen
    decreases n
  {
    if n > 0 {
      var i :| 0 <= i < |raw| && raw[i].pid == pid && raw[i].ppid != 0 && Below(raw, self, raw[i].ppid, n - 1);
      ClosedHoldsAll(raw, self, seen, raw[i].ppid, n - 1);
      assert Expanded(raw, seen, raw[i].ppid);
    }
  }

  lemma ChildIsDescendant(raw: seq<Row>, self: int, i: nat)
    requires i < |raw| && raw[i].ppid != 0 && Descendant(raw, self, raw[i].ppid)
    ensures Descendant(raw, self, raw[i].pid)
  {
    var n: nat :| Below(raw, self, raw[i].ppid, n);
    assert Below(raw, self, raw[i].pid, n + 1);
  }

  /** Rows with distinct PIDs from a list, as many as the list has, cover its PIDs. */
  lemma FullTreeCovers(raw: seq<Row>, tree: seq<Row>)
    requires UniquePids(tree) && |tree| >= |raw| && Pids(tree) <= Pids(raw)
    ensures Pids(tree) == Pids(raw)
  {
    PidsBound(raw);
    DistinctPids(tree);
    if p :| p in Pids(raw) && p !in Pids(tree) {
      SubsetSize(Pids(tree), Pids(raw) - {p});
    }
  }

  lemma {:induction false} PidsBound(rows: seq<Row>)
    ensures |Pids(rows)| <= |rows|
  {
    if rows != [] {
      var front := rows[..|rows| - 1];
      PidsBound(front);
      assert Pids(rows) == Pids(front) + {rows[|rows| - 1].pid};
    }
  }

  lemma {:induction false} DistinctPids(rows: seq<Row>)
    requires UniquePids(rows)
    ensures |Pids(rows)| == |rows|
  {
    if rows != [] {
      var front := rows[..|rows| - 1];
      DistinctPids(front);
      assert rows[|rows| - 1].pid !in Pids(front);
      assert Pids(rows) == Pids(front) + {rows[|rows| - 1].pid};
    }
  }

  /** The index of child rows. */
  method ChildIndex(raw: seq<Row>) returns (children: map<int, seq<nat>>)
    ensures forall p :: p in children ==> forall i :: i in children[p] ==> i < |raw| && raw[i].ppid == p != 0
    ensures forall i :: 0 <= i < |raw| && raw[i].ppid != 0 ==> raw[i].ppid in children && i in children[raw[i].ppid]
  {
    children := map[];
    var k := 0;
    while k < |raw|
      invariant k <= |raw|
      invariant forall p :: p in children ==> forall i :: i in children[p] ==> i < k && raw[i].ppid == p != 0
      invariant forall i :: 0 <= i < k && raw[i].ppid != 0 ==> raw[i].ppid in children && i in children[raw[i].ppid]
    {
      var p := raw[k].ppid;
      if p != 0 { children := children[p := (if p in children then children[p] else []) + [k]]; }
      k := k + 1;
    }
  }

  /** agentSubtree: breadth first from the agent.  Every process below it, by PID, has
      exactly one row in the result, the agent's first, and nothing else has; parent links
      may form cycles. */
  method AgentSubtree(raw: seq<Row>, self: int) returns (tree: seq<Row>)
    ensures tree == [] <==> self !in Pids(raw)
    ensures tree != [] ==> tree[0].pid == self && UniquePids(tree) && forall r :: r in tree ==> r in raw
    ensures tree != [] ==> forall p :: p in Pids(tree) <==> p in Pids(raw) && Descendant(raw, self, p)
  {
    var at := -1;
    var k := 0;
    while k < |raw|
      invariant k <= |raw| && -1 <= at < k && (at >= 0 ==> raw[at].pid == self)
      invariant at < 0 ==> forall i :: 0 <= i < k ==> raw[i].pid != self
    {
      if raw[k].pid == self { at := k; }
      k := k + 1;
    }
    if at < 0 { return []; }
    var children := ChildIndex(raw);
    tree := Search(raw, self, at, children);
  }

  method Search(raw: seq<Row>, self: int, at: nat, children: map<int, seq<nat>>) returns (tree: seq<Row>)
    requires at < |raw| && raw[at].pid == self
    requires forall p :: p in children ==> forall i :: i in children[p] ==> i < |raw| && raw[i].ppid == p != 0
    requires forall i :: 0 <= i < |raw| && raw[i].ppid != 0 ==> raw[i].ppid in children && i in children[raw[i].ppid]
    ensures tree != [] && tree[0].pid == self && UniquePids(tree) && forall r :: r in tree ==> r in raw
    ensures forall p :: p in Pids(tree) <==> p in Pids(raw) && Descendant(raw, self, p)
  {
    tree := [raw[at]];
    var seen, queue := {self}, [self];
    assert Below(raw, self, self, 0);
    while queue != [] && |tree| < |raw|
      invariant Growing(raw, self, tree, seen)
      invariant forall p :: p in seen && p !in queue ==> Expanded(raw, seen, p)
      invariant forall p :: p in queue ==> p in seen
      decreases Pids(raw) - seen, |queue|
    {
      var pid := queue[0];
      ghost var before, waiting := seen, queue;
      queue := queue[1..];
      if pid in children {
        tree, seen, queue := AddChildren(raw, self, children[pid], tree, seen, queue);
      }
      forall p | p in seen && p !in queue ensures Expanded(raw, seen, p) {
        if p != pid { assert p in before && p !in waiting && Expanded(raw, before, p); }
      }
    }
    if queue == [] {
      forall p | p in Pids(raw) && Descendant(raw, self, p) ensures p in Pids(tree) {
        var n: nat :| Below(raw, self, p, n);
        ClosedHoldsAll(raw, self, seen, p, n);
      }
    } else {
      FullTreeCovers(raw, tree);
    }
  }

  /** What the search keeps: distinct rows of descendants, the agent's first. */
  ghost predicate Growing(raw: seq<Row>, self: int, tree: seq<Row>, seen: set<int>) {
    && tree != [] && tree[0].pid == self && UniquePids(tree) && seen == Pids(tree)
    && (forall r :: r in tree ==> r in raw) && Pids(tree) <= Pids(raw)
    && (forall p :: p in seen ==> Descendant(raw, self, p))
  }

  /** Append the rows of these children that were not seen before. */
  method AddChildren(raw: seq<Row>, self: int, indices: seq<nat>, tree0: seq<Row>, seen0: set<int>, queue0: seq<int>)
    returns (tree: seq<Row>, seen: set<int>, queue: seq<int>)
    requires Growing(raw, self, tree0, seen0) && forall p :: p in queue0 ==> p in seen0
    requires forall i :: i in indices ==> i < |raw| && raw[i].ppid != 0 && raw[i].ppid in seen0
    ensures Growing(raw, self, tree, seen) && seen0 <= seen && tree0 <= tree
    ensures forall i :: i in indices ==> raw[i].pid in seen
    ensures queue0 <= queue && (forall p :: p in queue ==> p in seen) && forall p :: p in seen - seen0 ==> p in queue
    ensures seen == seen0 ==> queue == queue0
  {
    hide Growing;
    tree, seen, queue := tree0, seen0, queue0;
    var k := 0;
    while k < |indices|
      invariant k <= |indices| && Growing(raw, self, tree, seen) && seen0 <= seen && tree0 <= tree
      invariant forall i :: i in indices[..k] ==> i < |raw| && raw[i].pid in seen
      invariant queue0 <= queue && (forall p :: p in queue ==> p in seen) && forall p :: p in seen - seen0 ==> p in queue
      invariant seen == seen0 ==> queue == queue0
    {
      assert indices[k] in indices && indices[..k + 1] == indices[..k] + [indices[k]];
      var row := raw[indices[k]];
      if row.pid !in seen {
        Grows(raw, self, tree, seen, indices[k]);
        seen, tree, queue := seen + {row.pid}, tree + [row], queue + [row.pid];
      }
      k := k + 1;
    }
    assert indices[..k] == indices;
  }

  lemma Grows(raw: seq<Row>, self: int, tree: seq<Row>, seen: set<int>, i: nat)
    requires Growing(raw, self, tree, seen) && i < |raw| && raw[i].pid !in seen && raw[i].ppid != 0 && raw[i].ppid in seen
    ensures Growing(raw, self, tree + [raw[i]], seen + {raw[i].pid})
  {
    hide Descendant;
    ChildIsDescendant(raw, self, i);
    OneMoreRow(tree, raw[i]);
  }

  lemma OneMoreRow(tree: seq<Row>, row: Row)
    ensures Pids(tree + [row]) == Pids(tree) + {row.pid}
    ensures UniquePids(tree) && row.pid !in Pids(tree) ==> UniquePids(tree + [row])
  {
    var longer := tree + [row];
    assert longer[|tree|] == row;
    assert forall i :: 0 <= i < |tree| ==> longer[i] == tree[i] && tree[i].pid in Pids(tree);
  }

  /** With distinct PIDs, the subtree is exactly the rows below the agent. */
  lemma SubtreeByRow(raw: seq<Row>, tree: seq<Row>, self: int, row: Row)
    requires UniquePids(raw) && row in raw && forall r :: r in tree ==> r in raw
    requires forall p :: p in Pids(tree) <==> p in Pids(raw) && Descendant(raw, self, p)
    ensures row in tree <==> Descendant(raw, self, row.pid)
  {
    if Descendant(raw, self, row.pid) {
      assert row.pid in Pids(raw);
      var i :| 0 <= i < |tree| && tree[i].pid == row.pid;
      assert tree[i] in raw;
    }
    if row in tree { assert row.pid in Pids(tree); }
  }

  // ------------------------------------------------------------ exited children

  /** One call of measure: the counter of exited children's nanoseconds, the time in
      nanoseconds, and whether the pass had the agent's row with a CPU figure. */
  datatype Call = Call(exited: int, at: int, found: bool)

  /** What a call adds for children that exited since the one before. */
  function Charge(was: Call, now: Call): nat {
    if now.found && now.at > was.at && now.exited > was.exited then now.exited - was.exited else 0
  }

  function Charged(calls: seq<Call>): nat {
    var n := |calls|;
    if n < 2 then 0 else Charged(calls[..n - 1]) + Charge(calls[n - 2], calls[n - 1])
  }

  /** Rises of the counter in passes that could not charge them. */
  function Missed(calls: seq<Call>): nat {
    var n := |calls|;
    if n < 2 then 0
    else
      var rise := calls[n - 1].exited - calls[n - 2].exited;
      Missed(calls[..n - 1]) + if rise > 0 then rise - Charge(calls[n - 2], calls[n - 1]) else 0
  }

  /** How far the counter fell, in all. */
  function Fallen(calls: seq<Call>): nat {
    var n := |calls|;
    if n < 2 then 0
    else
      var fall := calls[n - 2].exited - calls[n - 1].exited;
      Fallen(calls[..n - 1]) + if fall > 0 then fall else 0
  }

  predicate Rising(calls: seq<Call>) { forall i :: 0 < i < |calls| ==> calls[i - 1].exited <= calls[i].exited }

  /** Across any sequence of calls the charges telescope: what was charged and what was
      missed make up the rise of the counter, and what it fell in between on top. */
  lemma {:induction false} ChargesTelescope(calls: seq<Call>)
    requires calls != []
    ensures Charged(calls) + Missed(calls) == calls[|calls| - 1].exited - calls[0].exited + Fallen(calls)
    ensures Fallen(calls) == 0 <==> Rising(calls)
    ensures Rising(calls) ==> Charged(calls) <= calls[|calls| - 1].exited - calls[0].exited
  {
    var n := |calls|;
    if n > 1 {
      ChargesTelescope(calls[..n - 1]);
      assert Rising(calls) <==> Rising(calls[..n - 1]) && calls[n - 2].exited <= calls[n - 1].exited;
    }
  }

  /** The x-th nanosecond is part of the k-th call's charge. */
  predicate ChargedAt(calls: seq<Call>, k: nat, x: int)
    requires 0 < k < |calls|
  {
    Charge(calls[k - 1], calls[k]) > 0 && calls[k - 1].exited < x <= calls[k].exited
  }

  /** Some nanosecond is part of two calls' charges. */
  ghost predicate ChargedTwice(calls: seq<Call>) {
    exists i: nat, j: nat, x :: 0 < i < j < |calls| && ChargedAt(calls, i, x) && ChargedAt(calls, j, x)
  }

  /** Every pass can charge: it found the agent with a CPU figure, and time went on. */
  predicate Charging(calls: seq<Call>) {
    forall i :: 0 < i < |calls| ==> calls[i].found && calls[i - 1].at < calls[i].at
  }

  /** The counter was seen to rise across the same nanosecond twice: the readings at a and c
      lie below those at b and d. */
  predicate RisesAgain(calls: seq<Call>, a: nat, b: nat, c: nat, d: nat)
    requires a < |calls| && b < |calls| && c < |calls| && d < |calls|
  {
    && a < b < c < d
    && calls[a].exited < calls[b].exited && calls[a].exited < calls[d].exited
    && calls[c].exited < calls[b].exited && calls[c].exited < calls[d].exited
  }

  /** A rise from below x to x or above has a step that crosses x. */
  lemma {:induction false} Crosses(calls: seq<Call>, a: nat, b: nat, x: int) returns (i: nat)
    requires a < b < |calls| && calls[a].exited < x <= calls[b].exited
    ensures a < i <= b && calls[i - 1].exited < x <= calls[i].exited
    decreases b
  {
    if calls[b - 1].exited < x { i := b; } else { i := Crosses(calls, a, b - 1, x); }
  }

  /** The counter is read before the lock is taken, so readings can arrive out of order.  Any
      charged-twice nanosecond was seen to be risen across twice, ... */
  lemma TwiceMeansRisesAgain(calls: seq<Call>, i: nat, j: nat, x: int)
    requires 0 < i < j < |calls| && ChargedAt(calls, i, x) && ChargedAt(calls, j, x)
    ensures i < j - 1 && RisesAgain(calls, i - 1, i, j - 1, j)
  {
  }

  /** ... and when every pass can charge that is exactly when it happens. */
  lemma ChargedTwiceIff(calls: seq<Call>)
    requires Charging(calls)
    ensures ChargedTwice(calls) <==>
              exists a: nat, b: nat, c: nat, d: nat :: a < b < c < d < |calls| && RisesAgain(calls, a, b, c, d)
  {
    if ChargedTwice(calls) {
      var i: nat, j: nat, x :| 0 < i < j < |calls| && ChargedAt(calls, i, x) && ChargedAt(calls, j, x);
      TwiceMeansRisesAgain(calls, i, j, x);
    }
    if a: nat, b: nat, c: nat, d: nat :| a < b < c < d < |calls| && RisesAgain(calls, a, b, c, d) {
      var x := 1 + if calls[a].exited < calls[c].exited then calls[c].exited else calls[a].exited;
      var i := Crosses(calls, a, b, x);
      var j := Crosses(calls, c, d, x);
      assert ChargedAt(calls, i, x) && ChargedAt(calls, j, x);
    }
  }

  lemma {:induction false} RisingAcross(calls: seq<Call>, i: nat, j: nat)
    requires Rising(calls) && i <= j < |calls|
    ensures calls[i].exited <= calls[j].exited
    decreases j
  {
    if i < j { RisingAcross(calls, i, j - 1); }
  }

  /** In particular never while the readings do not fall, whatever passes could charge. */
  lemma NoNanosecondTwice(calls: seq<Call>)
    requires Rising(calls)
    ensures !ChargedTwice(calls)
  {
    if i: nat, j: nat, x :| 0 < i < j < |calls| && ChargedAt(calls, i, x) && ChargedAt(calls, j, x) {
      RisingAcross(calls, i, j - 1);
    }
  }

  /** Two calls that read the counter in one order and took the lock in the other. */
  lemma SwappedReadsChargeTwice()
    ensures var calls := [Call(0, 1, true), Call(5, 2, true), Call(3, 3, true), Call(6, 4, true)];
      ChargedTwice(calls)
  {
    var calls := [Call(0, 1, true), Call(5, 2, true), Call(3, 3, true), Call(6, 4, true)];
    assert ChargedAt(calls, 1, 4) && ChargedAt(calls, 3, 4);
  }

  datatype Cost =
    | NotFound
    | Cost(pid: int, processes: nat, members: seq<Members.Member>, memory: Metric, cpu: Metric, cores: Metric)

  function Share(nanos: int, elapsedNanos: int, numCPU: int): real
    requires elapsedNanos > 0 && numCPU >= 1
  {
    nanos as real / 1000000000.0 / (elapsedNanos as real / 1000000000.0) / numCPU as real * 100.0
  }

  /** The percentage stands for exactly the charged CPU time. */
  lemma ShareIsTime(nanos: int, elapsedNanos: int, numCPU: int)
    requires elapsedNanos > 0 && numCPU >= 1
    ensures Share(nanos, elapsedNanos, numCPU) / 100.0 * numCPU as real * elapsedNanos as real == nanos as real
  {
    var (e, c, d) := (elapsedNanos as real, numCPU as real, nanos as real);
    var q := d / 1000000000.0 / (e / 1000000000.0);
    assert q * e == d;
    assert q / c * c == q;
    assert Share(nanos, elapsedNanos, numCPU) / 100.0 == q / c;
  }

  class AgentCostTracker {
    var lastExited: int
    var lastAt: Option<int>
    ghost var calls: seq<Call>

    ghost predicate Valid() reads this {
      if calls == [] then lastAt.None?
      else lastAt == Some(calls[|calls| - 1].at) && lastExited == calls[|calls| - 1].exited
    }

    constructor ()
      ensures Valid() && calls == []
    {
      lastExited, lastAt, calls := 0, None, [];
    }

    /** measure, with the counter and the clock read by the caller. */
    method Measure(raw: seq<Row>, self: int, exited: int, now: int, cpus: int) returns (cost: Cost, ghost tree: seq<Row>)
      requires Valid()
      modifies this
      ensures Valid() && |calls| == |old(calls)| + 1 && old(calls) <= calls
      ensures var call := calls[|calls| - 1];
        call.exited == exited && call.at == now && (call.found <==> cost.Cost? && cost.cpu.Known?)
      ensures cost.NotFound? <==> self !in Pids(raw)
      ensures forall p :: p in Pids(tree) <==> p in Pids(raw) && Descendant(raw, self, p) && cost.Cost?
      ensures cost.Cost? ==> cost.pid == self && cost.processes == |tree| && UniquePids(tree) && tree != []
      ensures cost.Cost? ==> Members.MembersOf(cost.members, tree)
      ensures cost.Cost? ==> cost.memory == SumOf(tree, (r: Row) => r.memory)
      ensures cost.Cost? ==> (cost.cpu.Known? <==> tree[0].cpu.Known?) && (cost.cpu.Unknown? ==> cost.cores.Unknown?)
      ensures Charged(calls) - Charged(old(calls))
              == if cost.Cost? && cost.cpu.Known? && old(lastAt).Some? && now > old(lastAt).value && exited > old(lastExited)
                 then exited - old(lastExited) else 0
      ensures cost.Cost? && cost.cpu.Known? ==>
                var numCPU := if cpus < 1 then 1 else cpus;
                var rose := old(lastAt).Some? && now > old(lastAt).value && exited > old(lastExited);
                var share := if rose then Share(exited - old(lastExited), now - old(lastAt).value, numCPU) else 0.0;
                var percent := Total(tree, (r: Row) => r.cpu) + share;
                cost.cpu == Known(if percent > 100.0 then 100.0 else percent)
                && cost.cores == Known(cost.cpu.value * numCPU as real / 100.0)
    {
      hide Total, Descendant, Share, UniquePids, Members.MembersOf;
      var prevExited, prevAt := lastExited, lastAt;
      lastExited, lastAt := exited, Some(now);
      var rows := AgentSubtree(raw, self);
      tree := rows;
      if rows == [] {
        calls := calls + [Call(exited, now, false)];
        return NotFound, [];
      }
      var numCPU := if cpus < 1 then 1 else cpus;
      var members := Members.AppMembers(rows);
      var memory := SumProcessField(rows, (r: Row) => r.memory);
      if rows[0].cpu.Unknown? {
        calls := calls + [Call(exited, now, false)];
        return Cost(self, |rows|, members, memory, Unknown, Unknown), tree;
      }
      var sum := SumProcessField(rows, (r: Row) => r.cpu);
      var percent := sum.value;
      if prevAt.Some? && now - prevAt.value > 0 && exited > prevExited {
        percent := percent + Share(exited - prevExited, now - prevAt.value, numCPU);
      }
      if percent > 100.0 { percent := 100.0; }
      ghost var was := calls;
      calls := calls + [Call(exited, now, true)];
      assert calls[..|was|] == was;
      cost := Cost(self, |rows|, members, memory, Known(percent), Known(percent * numCPU as real / 100.0));
    }
  }
}
