/** Walks over the process table: a worklist of pids against a fold over the process tree. */
module ProcTree {
  import opened Text

  /** Counters summed over a subtree. */
  datatype Sample = Sample(cpuTicks: nat, rssKb: nat, threads: nat, procs: nat, volCtxt: nat, nonvolCtxt: nat)

  const ZERO := Sample(0, 0, 0, 0, 0, 0)

  datatype Stat = Stat(cpuTicks: nat, threads: nat, state: char)

  datatype Status = Status(rssKb: nat, volCtxt: nat, nonvolCtxt: nat)

  /** What `/proc` answers for a pid; every file may be unreadable, and a missing pid answers nothing. */
  datatype ProcEntry = ProcEntry(stat: Option<Stat>, status: Option<Status>, comm: Option<string>, uid: Option<nat>,
                                 children: Option<seq<nat>>)

  type ProcTable = map<nat, ProcEntry>

  function StatOf(t: ProcTable, pid: nat): Option<Stat> {
    if pid in t then t[pid].stat else None
  }

  function ChildrenOf(t: ProcTable, pid: nat): seq<nat> {
    if pid in t && t[pid].children.Some? then t[pid].children.value else []
  }

  function Add(a: Sample, b: Sample): Sample {
    Sample(a.cpuTicks + b.cpuTicks, a.rssKb + b.rssKb, a.threads + b.threads, a.procs + b.procs,
           a.volCtxt + b.volCtxt, a.nonvolCtxt + b.nonvolCtxt)
  }

  /** One process's own counters; an unreadable status file counts as zeros. */
  function Own(t: ProcTable, pid: nat): Sample {
    if StatOf(t, pid).None? then ZERO
    else
      var stat := t[pid].stat.value;
      var s := if t[pid].status.Some? then t[pid].status.value else Status(0, 0, 0);
      Sample(stat.cpuTicks, s.rssKb, stat.threads, 1, s.volCtxt, s.nonvolCtxt)
  }

  // ------------------------------------------------------------ the tree behind the table

  datatype Tree = Node(pid: nat, kids: seq<Tree>)

  /** The table's child lists unfold, from the root of `x`, to exactly `x`. */
  ghost predicate Unfolds(t: ProcTable, x: Tree)
    decreases x
  {
    && |x.kids| == |ChildrenOf(t, x.pid)|
    && forall i :: 0 <= i < |x.kids| ==> x.kids[i].pid == ChildrenOf(t, x.pid)[i] && Unfolds(t, x.kids[i])
  }

  ghost predicate AllUnfold(t: ProcTable, xs: seq<Tree>) {
    forall i :: 0 <= i < |xs| ==> Unfolds(t, xs[i])
  }

  function Pids(xs: seq<Tree>): seq<nat> {
    seq(|xs|, i requires 0 <= i < |xs| => xs[i].pid)
  }

  function Size(x: Tree): nat
    decreases x, 1
  {
    1 + Sizes(x.kids)
  }

  function Sizes(xs: seq<Tree>): nat
    decreases xs, 0
  {
    if xs == [] then 0 else Size(xs[|xs| - 1]) + Sizes(xs[..|xs| - 1])
  }

  lemma {:induction false} SizesAppend(a: seq<Tree>, b: seq<Tree>)
    ensures Sizes(a + b) == Sizes(a) + Sizes(b)
  {
    if b == [] {
      assert a + b == a;
    } else {
      assert (a + b)[..|a + b| - 1] == a + b[..|b| - 1];
      SizesAppend(a, b[..|b| - 1]);
    }
  }

  // ------------------------------------------------------------ summing a subtree

  /** The readable processes of the tree, in the order a worklist that pops its last entry meets them. */
  function Visits(t: ProcTable, x: Tree): seq<nat>
    decreases x, 1
  {
    if StatOf(t, x.pid).None? then [] else [x.pid] + VisitsAll(t, x.kids)
  }

  function VisitsAll(t: ProcTable, xs: seq<Tree>): seq<nat>
    decreases xs, 0
  {
    if xs == [] then [] else Visits(t, xs[|xs| - 1]) + VisitsAll(t, xs[..|xs| - 1])
  }

  lemma {:induction false} VisitsAppend(t: ProcTable, a: seq<Tree>, b: seq<Tree>)
    ensures VisitsAll(t, a + b) == VisitsAll(t, b) + VisitsAll(t, a)
  {
    if b == [] {
      assert a + b == a && [] + VisitsAll(t, a) == VisitsAll(t, a);
    } else {
      assert (a + b)[..|a + b| - 1] == a + b[..|b| - 1];
      VisitsAppend(t, a, b[..|b| - 1]);
      var last, front := Visits(t, b[|b| - 1]), VisitsAll(t, b[..|b| - 1]);
      assert last + (front + VisitsAll(t, a)) == (last + front) + VisitsAll(t, a);
    }
  }

  /** Replacing the last entry of a worklist by its children. */
  lemma PopOpens(t: ProcTable, work: seq<Tree>)
    requires work != [] && AllUnfold(t, work)
    ensures var x := work[|work| - 1];
            var next := work[..|work| - 1] + x.kids;
            && AllUnfold(t, next) && Pids(next) == Pids(work)[..|work| - 1] + ChildrenOf(t, x.pid)
            && Sizes(next) + 1 == Sizes(work)
  {
    var x := work[|work| - 1];
    assert Unfolds(t, x);
    SizesAppend(work[..|work| - 1], x.kids);
  }

  lemma PopSkips(t: ProcTable, work: seq<Tree>)
    requires work != [] && AllUnfold(t, work)
    ensures AllUnfold(t, work[..|work| - 1]) && Pids(work[..|work| - 1]) == Pids(work)[..|work| - 1]
    ensures Sizes(work[..|work| - 1]) < Sizes(work)
  {
  }

  /**
    `sample_tree`: for every finite process tree the worklist terminates, visits each reachable readable
    process once, and its sum is the recursive one.
    */
  method SampleTree(t: ProcTable, root: nat, ghost tree: Tree) returns (r: Option<Sample>, visited: seq<nat>)
    requires tree.pid == root && Unfolds(t, tree)
    ensures visited == Visits(t, tree)
    ensures r == if StatOf(t, root).Some? then Some(Total(t, tree)) else None
  {
    var acc, seenRoot, queue := ZERO, false, [root];
    visited := [];
    ghost var work := [tree];
    assert [] + VisitsAll(t, work) == Visits(t, tree) by {
      assert work[..0] == [] && Visits(t, tree) + [] == Visits(t, tree);
    }
    while queue != []
      invariant queue == Pids(work) && AllUnfold(t, work)
      invariant acc == SumOf(t, visited) && (seenRoot <==> visited != [])
      invariant visited + VisitsAll(t, work) == Visits(t, tree)
      decreases Sizes(work)
    {
      var pid := queue[|queue| - 1];
      ghost var x, front := work[|work| - 1], work[..|work| - 1];
      queue := queue[..|queue| - 1];
      PopOpens(t, work);
      PopSkips(t, work);
      PopVisits(t, work, visited);
      var stat := StatOf(t, pid);
      if stat.None? {
        work := front;
        continue;
      }
      seenRoot := true;
      acc := Add(acc, Own(t, pid));
      visited := visited + [pid];
      queue := queue + ChildrenOf(t, pid);
      work := front + x.kids;
    }
    assert visited + [] == visited;
    SumIsRecursive(t, tree);
    r := if seenRoot then Some(acc) else None;
  }

  /** What one step does to the visits still ahead. */
  lemma PopVisits(t: ProcTable, work: seq<Tree>, visited: seq<nat>)
    requires work != []
    ensures var x, front := work[|work| - 1], work[..|work| - 1];
            visited + VisitsAll(t, work) ==
              if StatOf(t, x.pid).None? then visited + VisitsAll(t, front)
              else (visited + [x.pid]) + VisitsAll(t, front + x.kids)
  {
    var x, front := work[|work| - 1], work[..|work| - 1];
    if StatOf(t, x.pid).None? {
      assert [] + VisitsAll(t, front) == VisitsAll(t, front);
    } else {
      VisitsAppend(t, front, x.kids);
      Chain(visited, [x.pid], VisitsAll(t, x.kids), VisitsAll(t, front));
    }
  }

  lemma Chain(a: seq<nat>, b: seq<nat>, c: seq<nat>, d: seq<nat>)
    ensures (a + b) + (c + d) == a + ((b + c) + d)
  {
  }

  /** The counters of the listed processes, added up. */
  function SumOf(t: ProcTable, pids: seq<nat>): Sample {
    if pids == [] then ZERO else Add(SumOf(t, pids[..|pids| - 1]), Own(t, pids[|pids| - 1]))
  }

  /** The recursive sum: a process and its children's subtrees; an unreadable process hides its whole subtree. */
  function Total(t: ProcTable, x: Tree): Sample
    decreases x, 1
  {
    if StatOf(t, x.pid).None? then ZERO else Add(Own(t, x.pid), Totals(t, x.kids))
  }

  function Totals(t: ProcTable, xs: seq<Tree>): Sample
    decreases xs, 0
  {
    if xs == [] then ZERO else Add(Total(t, xs[|xs| - 1]), Totals(t, xs[..|xs| - 1]))
  }

  lemma AddAssociates(a: Sample, b: Sample, c: Sample)
    ensures Add(Add(a, b), c) == Add(a, Add(b, c))
    ensures Add(a, ZERO) == a == Add(ZERO, a)
  {
  }

  lemma {:induction false} SumAppend(t: ProcTable, a: seq<nat>, b: seq<nat>)
    ensures SumOf(t, a + b) == Add(SumOf(t, a), SumOf(t, b))
  {
    if b == [] {
      assert a + b == a;
      AddAssociates(SumOf(t, a), ZERO, ZERO);
    } else {
      assert (a + b)[..|a + b| - 1] == a + b[..|b| - 1];
      SumAppend(t, a, b[..|b| - 1]);
      AddAssociates(SumOf(t, a), SumOf(t, b[..|b| - 1]), Own(t, b[|b| - 1]));
    }
  }

  /** Summing over the visited processes is the recursive sum over the tree. */
  lemma {:induction false} SumIsRecursive(t: ProcTable, x: Tree)
    ensures SumOf(t, Visits(t, x)) == Total(t, x)
    decreases x, 1
  {
    if StatOf(t, x.pid).Some? {
      SumsAreRecursive(t, x.kids);
      SumAppend(t, [x.pid], VisitsAll(t, x.kids));
      assert [x.pid][..0] == [];
      AddAssociates(Own(t, x.pid), ZERO, ZERO);
    }
  }

  lemma {:induction false} SumsAreRecursive(t: ProcTable, xs: seq<Tree>)
    ensures SumOf(t, VisitsAll(t, xs)) == Totals(t, xs)
    decreases xs, 0
  {
    if xs != [] {
      SumIsRecursive(t, xs[|xs| - 1]);
      SumsAreRecursive(t, xs[..|xs| - 1]);
      SumAppend(t, Visits(t, xs[|xs| - 1]), VisitsAll(t, xs[..|xs| - 1]));
    }
  }

  /** One number of each readable stat file, added up. */
  function StatSum(t: ProcTable, pids: seq<nat>, f: Stat -> nat): nat {
    if pids == [] then 0
    else
      var pid := pids[|pids| - 1];
      StatSum(t, pids[..|pids| - 1], f) + (if pid in t && t[pid].stat.Some? then f(t[pid].stat.value) else 0)
  }

  /** One number of each status file that is readable beside its stat file, added up. */
  function StatusSum(t: ProcTable, pids: seq<nat>, f: Status -> nat): nat {
    if pids == [] then 0
    else
      var pid := pids[|pids| - 1];
      var readable := pid in t && t[pid].stat.Some? && t[pid].status.Some?;
      StatusSum(t, pids[..|pids| - 1], f) + (if readable then f(t[pid].status.value) else 0)
  }

  /**
    Each counter of a sum is that counter added up over the processes: ticks, threads and heads by the stat files,
    memory and switches by the status files.
    */
  lemma {:induction false} CountersAreSums(t: ProcTable, pids: seq<nat>)
    ensures var sum := SumOf(t, pids);
      && sum.cpuTicks == StatSum(t, pids, (s: Stat) => s.cpuTicks)
      && sum.threads == StatSum(t, pids, (s: Stat) => s.threads)
      && sum.procs == StatSum(t, pids, (s: Stat) => 1)
      && sum.rssKb == StatusSum(t, pids, (s: Status) => s.rssKb)
      && sum.volCtxt == StatusSum(t, pids, (s: Status) => s.volCtxt)
      && sum.nonvolCtxt == StatusSum(t, pids, (s: Status) => s.nonvolCtxt)
  {
    if pids != [] { CountersAreSums(t, pids[..|pids| - 1]); }
  }

  /** A process the walk can get to: it and every ancestor up to the root are readable. */
  ghost predicate Reachable(t: ProcTable, x: Tree, pid: nat)
    decreases x
  {
    StatOf(t, x.pid).Some? && (x.pid == pid || exists i :: 0 <= i < |x.kids| && Reachable(t, x.kids[i], pid))
  }

  /** The processes visited are exactly the reachable ones. */
  lemma {:induction false} VisitsReachable(t: ProcTable, x: Tree, pid: nat)
    ensures pid in Visits(t, x) <==> Reachable(t, x, pid)
    decreases x, 1
  {
    VisitsAllReachable(t, x.kids, pid);
  }

  ghost predicate AnyReachable(t: ProcTable, xs: seq<Tree>, pid: nat) {
    exists i :: 0 <= i < |xs| && Reachable(t, xs[i], pid)
  }

  lemma AnyReachableLast(t: ProcTable, xs: seq<Tree>, pid: nat)
    requires xs != []
    ensures AnyReachable(t, xs, pid) <==> AnyReachable(t, xs[..|xs| - 1], pid) || Reachable(t, xs[|xs| - 1], pid)
  {
    var n := |xs| - 1;
    if AnyReachable(t, xs, pid) {
      var i :| 0 <= i < |xs| && Reachable(t, xs[i], pid);
      if i < n { assert Reachable(t, xs[..n][i], pid); }
    }
    if AnyReachable(t, xs[..n], pid) {
      var i :| 0 <= i < n && Reachable(t, xs[..n][i], pid);
      assert Reachable(t, xs[i], pid);
    }
  }

  lemma {:induction false} VisitsAllReachable(t: ProcTable, xs: seq<Tree>, pid: nat)
    ensures pid in VisitsAll(t, xs) <==> AnyReachable(t, xs, pid)
    decreases xs, 0
  {
    if xs != [] {
      VisitsAllReachable(t, xs[..|xs| - 1], pid);
      VisitsReachable(t, xs[|xs| - 1], pid);
      AnyReachableLast(t, xs, pid);
    }
  }

  /** Every process of the tree, with repetitions. */
  function Everyone(x: Tree): seq<nat>
    decreases x, 1
  {
    [x.pid] + EveryoneIn(x.kids)
  }

  function EveryoneIn(xs: seq<Tree>): seq<nat>
    decreases xs, 0
  {
    if xs == [] then [] else Everyone(xs[|xs| - 1]) + EveryoneIn(xs[..|xs| - 1])
  }

  /** No process is visited more often than it stands in the tree. */
  lemma {:induction false} VisitsOnce(t: ProcTable, x: Tree)
    ensures multiset(Visits(t, x)) <= multiset(Everyone(x))
    decreases x, 1
  {
    VisitsAllOnce(t, x.kids);
  }

  lemma {:induction false} VisitsAllOnce(t: ProcTable, xs: seq<Tree>)
    ensures multiset(VisitsAll(t, xs)) <= multiset(EveryoneIn(xs))
    decreases xs, 0
  {
    if xs != [] {
      VisitsOnce(t, xs[|xs| - 1]);
      VisitsAllOnce(t, xs[..|xs| - 1]);
    }
  }

  ghost predicate NoRepeats(s: seq<nat>) {
    forall i, j :: 0 <= i < j < |s| ==> s[i] != s[j]
  }

  lemma {:induction false} NoRepeatsIff(s: seq<nat>)
    ensures NoRepeats(s) <==> forall p :: multiset(s)[p] <= 1
  {
    if s != [] {
      var front, last := s[..|s| - 1], s[|s| - 1];
      assert s == front + [last] && multiset(s) == multiset(front) + multiset{last};
      NoRepeatsIff(front);
      if NoRepeats(s) {
        assert forall i :: 0 <= i < |front| ==> s[i] == front[i];
        assert last !in front;
      }
      if forall p :: multiset(s)[p] <= 1 {
        assert forall p :: multiset(front)[p] <= multiset(s)[p];
        assert multiset(s)[last] == multiset(front)[last] + 1 && last !in multiset(front);
      }
    }
  }

  /** When no pid stands twice in the tree, none is visited twice. */
  lemma DistinctVisits(t: ProcTable, x: Tree)
    requires NoRepeats(Everyone(x))
    ensures NoRepeats(Visits(t, x))
  {
    VisitsOnce(t, x);
    NoRepeatsIff(Everyone(x));
    NoRepeatsIff(Visits(t, x));
    forall p ensures multiset(Visits(t, x))[p] <= 1 {
      assert multiset(Visits(t, x))[p] <= multiset(Everyone(x))[p];
    }
  }

  // ------------------------------------------------------------ is a descendant working

  predicate Busy(t: ProcTable, pid: nat) {
    StatOf(t, pid).Some? && (StatOf(t, pid).value.state == 'R' || StatOf(t, pid).value.state == 'D')
  }

  ghost predicate Contains(x: Tree, pid: nat)
    decreases x
  {
    x.pid == pid || exists i :: 0 <= i < |x.kids| && Contains(x.kids[i], pid)
  }

  ghost predicate AnyContains(xs: seq<Tree>, pid: nat) {
    exists i :: 0 <= i < |xs| && Contains(xs[i], pid)
  }

  lemma PopContains(work: seq<Tree>, pid: nat)
    requires work != []
    ensures var x := work[|work| - 1];
            AnyContains(work, pid) <==> x.pid == pid || AnyContains(work[..|work| - 1] + x.kids, pid)
  {
    var n := |work| - 1;
    var x, next := work[n], work[..n] + work[n].kids;
    if AnyContains(work, pid) && x.pid != pid {
      var i :| 0 <= i < |work| && Contains(work[i], pid);
      if i < n {
        assert next[i] == work[i];
      } else {
        var j :| 0 <= j < |x.kids| && Contains(x.kids[j], pid);
        assert next[n + j] == x.kids[j];
      }
    }
    if AnyContains(next, pid) {
      var i :| 0 <= i < |next| && Contains(next[i], pid);
      if i < n { assert work[i] == next[i]; } else { assert x.kids[i - n] == next[i]; assert Contains(x, pid); }
    }
  }

  /** The agent itself is not judged, only processes below it. */
  ghost predicate BusyBelow(t: ProcTable, tree: Tree) {
    exists pid :: pid != tree.pid && Contains(tree, pid) && Busy(t, pid)
  }

  /** The activity walk answers Working exactly when some proper descendant of the agent is in state R or D. */
  method AnyBusyDescendant(t: ProcTable, agent: nat, ghost tree: Tree) returns (working: bool)
    requires tree.pid == agent && Unfolds(t, tree)
    ensures working <==> BusyBelow(t, tree)
  {
    var queue := [agent];
    ghost var work := [tree];
    forall pid ensures AnyContains(work, pid) <==> Contains(tree, pid) {
      if Contains(tree, pid) { assert Contains(work[0], pid); }
    }
    while queue != []
      invariant queue == Pids(work) && AllUnfold(t, work)
      invariant forall pid :: AnyContains(work, pid) ==> Contains(tree, pid)
      invariant forall pid :: Contains(tree, pid) && pid != agent && Busy(t, pid) ==> AnyContains(work, pid)
      decreases Sizes(work)
    {
      var pid := queue[|queue| - 1];
      ghost var x, front := work[|work| - 1], work[..|work| - 1];
      queue := queue[..|queue| - 1];
      PopOpens(t, work);
      forall p ensures AnyContains(work, p) <==> x.pid == p || AnyContains(front + x.kids, p) {
        PopContains(work, p);
      }
      if pid != agent && Busy(t, pid) {
        assert AnyContains(work, pid);
        return true;
      }
      queue := queue + ChildrenOf(t, pid);
      work := front + x.kids;
    }
    working := false;
  }

  // ------------------------------------------------------------ finding the agent

  predicate IsAgent(t: ProcTable, pid: nat, self: Option<nat>) {
    && pid in t && t[pid].comm.Some? && (t[pid].comm.value == "catbus-agent" || t[pid].comm.value == "claude")
    && t[pid].uid == self && self.Some?
  }

  /** The first agent process of our own user in a list of processes. */
  function FirstAgent(t: ProcTable, pids: seq<nat>, self: Option<nat>): (r: Option<nat>)
    ensures r.Some? ==> r.value in pids && IsAgent(t, r.value, self)
    ensures r.None? ==> forall pid :: pid in pids ==> !IsAgent(t, pid, self)
  {
    if pids == [] then None
    else if IsAgent(t, pids[0], self) then Some(pids[0])
    else FirstAgent(t, pids[1..], self)
  }

  lemma {:induction false} FirstAgentSkips(t: ProcTable, before: seq<nat>, rest: seq<nat>, self: Option<nat>)
    requires forall pid :: pid in before ==> !IsAgent(t, pid, self)
    ensures FirstAgent(t, before + rest, self) == FirstAgent(t, rest, self)
  {
    if before == [] {
      assert before + rest == rest;
    } else {
      assert (before + rest)[1..] == before[1..] + rest;
      FirstAgentSkips(t, before[1..], rest, self);
    }
  }

  lemma {:induction false} EveryoneAppend(a: seq<Tree>, b: seq<Tree>)
    ensures EveryoneIn(a + b) == EveryoneIn(b) + EveryoneIn(a)
  {
    if b == [] {
      assert a + b == a && [] + EveryoneIn(a) == EveryoneIn(a);
    } else {
      assert (a + b)[..|a + b| - 1] == a + b[..|b| - 1];
      EveryoneAppend(a, b[..|b| - 1]);
      Assoc(Everyone(b[|b| - 1]), EveryoneIn(b[..|b| - 1]), EveryoneIn(a));
    }
  }

  /** Popping a process leaves the rest of the order, its children first. */
  lemma PopEveryone(work: seq<Tree>)
    requires work != []
    ensures var x := work[|work| - 1]; EveryoneIn(work) == [x.pid] + EveryoneIn(work[..|work| - 1] + x.kids)
  {
    var x, front := work[|work| - 1], work[..|work| - 1];
    EveryoneAppend(front, x.kids);
    Assoc([x.pid], EveryoneIn(x.kids), EveryoneIn(front));
  }

  lemma EveryoneOne(x: Tree)
    ensures EveryoneIn([x]) == Everyone(x)
  {
    assert [x][..0] == [] && Everyone(x) + [] == Everyone(x);
  }

  lemma {:induction false} EveryoneIsContained(x: Tree, pid: nat)
    ensures pid in Everyone(x) <==> Contains(x, pid)
    decreases x, 1
  {
    EveryoneInIsContained(x.kids, pid);
  }

  lemma AnyContainsLast(xs: seq<Tree>, pid: nat)
    requires xs != []
    ensures AnyContains(xs, pid) <==> AnyContains(xs[..|xs| - 1], pid) || Contains(xs[|xs| - 1], pid)
  {
    var n := |xs| - 1;
    if AnyContains(xs, pid) {
      var i :| 0 <= i < |xs| && Contains(xs[i], pid);
      if i < n { assert Contains(xs[..n][i], pid); }
    }
    if AnyContains(xs[..n], pid) {
      var i :| 0 <= i < n && Contains(xs[..n][i], pid);
      assert Contains(xs[i], pid);
    }
  }

  lemma {:induction false} EveryoneInIsContained(xs: seq<Tree>, pid: nat)
    ensures pid in EveryoneIn(xs) <==> AnyContains(xs, pid)
    decreases xs, 0
  {
    if xs != [] {
      EveryoneInIsContained(xs[..|xs| - 1], pid);
      EveryoneIsContained(xs[|xs| - 1], pid);
      AnyContainsLast(xs, pid);
    }
  }

  /**
    The search answers the first agent process of our own user in the tree, the worklist popping its last entry;
    it answers none if and only if there is none.
    */
  method FindAgentDescendant(t: ProcTable, root: nat, self: Option<nat>, ghost tree: Tree) returns (r: Option<nat>)
    requires tree.pid == root && Unfolds(t, tree)
    ensures r == FirstAgent(t, Everyone(tree), self)
    ensures r.None? <==> forall pid :: Contains(tree, pid) ==> !IsAgent(t, pid, self)
  {
    var queue := [root];
    ghost var work := [tree];
    EveryoneOne(tree);
    forall pid ensures pid in Everyone(tree) <==> Contains(tree, pid) { EveryoneIsContained(tree, pid); }
    while queue != []
      invariant queue == Pids(work) && AllUnfold(t, work)
      invariant FirstAgent(t, EveryoneIn(work), self) == FirstAgent(t, Everyone(tree), self)
      decreases Sizes(work)
    {
      var pid := queue[|queue| - 1];
      ghost var x, front := work[|work| - 1], work[..|work| - 1];
      queue := queue[..|queue| - 1];
      PopOpens(t, work);
      PopEveryone(work);
      if IsAgent(t, pid, self) {
        return Some(pid);
      }
      FirstAgentSkips(t, [pid], EveryoneIn(front + x.kids), self);
      queue := queue + ChildrenOf(t, pid);
      work := front + x.kids;
    }
    assert EveryoneIn([]) == [];
    r := None;
  }

  // ------------------------------------------------------------ the tab's agent and what it does

  datatype Activity = Gone | Idle | Working

  /** `y` is `x` or a tree somewhere below it. */
  ghost predicate Inside(y: Tree, x: Tree)
    decreases x
  {
    y == x || exists i :: 0 <= i < |x.kids| && Inside(y, x.kids[i])
  }

  lemma {:induction false} InsideUnfolds(t: ProcTable, y: Tree, x: Tree)
    requires Inside(y, x) && Unfolds(t, x)
    ensures Unfolds(t, y)
    decreases x
  {
    if y != x {
      var i :| 0 <= i < |x.kids| && Inside(y, x.kids[i]);
      InsideUnfolds(t, y, x.kids[i]);
    }
  }

  lemma {:induction false} TreeAt(x: Tree, pid: nat) returns (y: Tree)
    requires Contains(x, pid)
    ensures Inside(y, x) && y.pid == pid
    decreases x
  {
    if x.pid == pid {
      y := x;
    } else {
      var i :| 0 <= i < |x.kids| && Contains(x.kids[i], pid);
      y := TreeAt(x.kids[i], pid);
    }
  }

  /** The table decides the tree below a process: there is only one. */
  lemma {:induction false} UnfoldsOnce(t: ProcTable, x: Tree, y: Tree)
    requires Unfolds(t, x) && Unfolds(t, y) && x.pid == y.pid
    ensures x == y
    decreases x
  {
    forall i | 0 <= i < |x.kids| ensures x.kids[i] == y.kids[i] {
      UnfoldsOnce(t, x.kids[i], y.kids[i]);
    }
  }

  /** The process answers one of two states. */
  predicate InState(t: ProcTable, pid: nat, a: char, b: char) {
    pid in t && t[pid].stat.Some? && (t[pid].stat.value.state == a || t[pid].stat.value.state == b)
  }

  lemma BusyMeans(t: ProcTable, x: Tree)
    ensures BusyBelow(t, x) <==> exists pid :: pid != x.pid && Contains(x, pid) && InState(t, pid, 'R', 'D')
  {
    forall pid ensures Busy(t, pid) <==> InState(t, pid, 'R', 'D') {}
  }

  /**
    A tab's agent and its activity: the agent is the one the search answers, and it is working if and only if
    some process below that agent, in the tab's tree, is in state R or D.
    */
  method AgentActivityWithPid(t: ProcTable, shell: nat, self: Option<nat>, ghost tree: Tree)
    returns (activity: Activity, agent: Option<nat>)
    requires tree.pid == shell && Unfolds(t, tree)
    ensures agent == FirstAgent(t, Everyone(tree), self)
    ensures activity.Gone? <==> forall pid :: Contains(tree, pid) && pid in t && t[pid].uid == self && self.Some? ==>
                                  t[pid].comm != Some("catbus-agent") && t[pid].comm != Some("claude")
    ensures activity.Gone? <==> agent.None?
    ensures agent.Some? ==> exists below :: Inside(below, tree) && below.pid == agent.value
    ensures forall below :: Inside(below, tree) && agent == Some(below.pid) ==>
              (activity.Working? <==>
                 exists pid :: pid != below.pid && Contains(below, pid) && InState(t, pid, 'R', 'D'))
  {
    agent := FindAgentDescendant(t, shell, self, tree);
    if agent.None? { return Gone, None; }
    EveryoneIsContained(tree, agent.value);
    ghost var below := TreeAt(tree, agent.value);
    InsideUnfolds(t, below, tree);
    var working := AnyBusyDescendant(t, agent.value, below);
    BusyMeans(t, below);
    activity := if working then Working else Idle;
    forall other | Inside(other, tree) && other.pid == agent.value ensures other == below {
      InsideUnfolds(t, other, tree);
      UnfoldsOnce(t, other, below);
    }
  }
}
