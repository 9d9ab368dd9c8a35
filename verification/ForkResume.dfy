/**
 Deciding how an instance goes on after a suspend node was approved (`service/fork_aware_resume.go`).
 The traversals are methods over queues, each proved to return what the search order of module `Walks`
 determines; `Decision` is the specification of `analyzeForkResume`.
 */
module ForkResume {
  import opened Text
  import opened Definitions
  import opened Walks

  datatype ForkGraph = ForkGraph(
    nodeType: map<Id, NodeType>,
    parents: map<Id, set<Id>>,
    children: map<Id, set<Id>>,
    asyncAgents: set<Id>)

  datatype Outcome = Single | Multi(reqs: seq<Id>) | Skip(pending: seq<Id>) | Unsupported(fork: Id)

  /** Task rows by task definition key. */
  type Rows = map<Id, seq<TaskStatus>>

  datatype TaskRow = TaskRow(taskDefKey: Id, status: TaskStatus)

  // ---- The parsed graph ----

  function TypeOf(g: ForkGraph, n: Id): NodeType {
    if n in g.nodeType then g.nodeType[n] else Other("")
  }

  function ChildrenOf(g: ForkGraph, n: Id): set<Id> {
    Neighbours(g.children, n)
  }

  function ParentsOf(g: ForkGraph, n: Id): set<Id> {
    Neighbours(g.parents, n)
  }

  /** The nodes that make the process wait; an asynchronous agent does not. */
  predicate IsSuspend(g: ForkGraph, n: Id) {
    var t := TypeOf(g, n);
    (t == UserTask || t == AiAgent || t == Delay) && !(t == AiAgent && n in g.asyncAgents)
  }

  ghost function Suspends(g: ForkGraph): (r: set<Id>)
    ensures forall n :: n in r <==> IsSuspend(g, n)
  {
    set n | n in g.nodeType && IsSuspend(g, n)
  }

  ghost function Branchings(g: ForkGraph): (r: set<Id>)
    ensures forall n :: n in r <==> IsBranching(TypeOf(g, n))
  {
    set n | n in g.nodeType && IsBranching(g.nodeType[n])
  }

  function NonJoinSet(g: ForkGraph, n: Id): set<Id> {
    set c | c in ChildrenOf(g, n) && TypeOf(g, c) != Join
  }

  /** Children in ascending order, joins left out: the successors a downward search enqueues. */
  ghost function NonJoinChildren(g: ForkGraph, n: Id): (r: seq<Id>)
    ensures forall c :: c in r <==> c in NonJoinSet(g, n)
  {
    KeepMembers(SortedKeys(ChildrenOf(g, n)), NonJoinSet(g, n));
    Keep(SortedKeys(ChildrenOf(g, n)), NonJoinSet(g, n))
  }

  method NonJoinOf(g: ForkGraph, n: Id) returns (next: seq<Id>)
    ensures next == NonJoinChildren(g, n)
  {
    var keys := SortKeys(ChildrenOf(g, n));
    ghost var good := NonJoinSet(g, n);
    next := [];
    for i := 0 to |keys|
      invariant next == Keep(keys[..i], good)
    {
      assert keys[..i + 1] == keys[..i] + [keys[i]];
      KeepSplit(keys[..i], [keys[i]], good);
      assert keys[i] in keys;
      if TypeOf(g, keys[i]) != Join {
        next := next + [keys[i]];
      }
    }
    assert keys[..|keys|] == keys;
  }

  ghost function Down(g: ForkGraph): Adj {
    map n | n in g.children :: NonJoinChildren(g, n)
  }

  ghost function Up(g: ForkGraph): Adj {
    map n | n in g.parents :: SortedKeys(g.parents[n])
  }

  lemma SuccDown(g: ForkGraph, n: Id)
    ensures Succ(Down(g), n) == NonJoinChildren(g, n)
  {
    SortedUnique([], SortedKeys({}));
  }

  lemma SuccUp(g: ForkGraph, n: Id)
    ensures Succ(Up(g), n) == SortedKeys(ParentsOf(g, n))
  {
    SortedUnique([], SortedKeys({}));
  }

  /** No edge starts or ends at the empty id: `parseForkGraph` drops such connections. */
  ghost predicate Named(g: ForkGraph) {
    forall n :: NO_ID !in ParentsOf(g, n) && NO_ID !in ChildrenOf(g, n)
  }

  // ---- Specification of the traversals ----

  ghost function ForkAncestor(g: ForkGraph, start: Id): Id {
    First(BfsOrder(Up(g), start), Branchings(g) - {start})
  }

  ghost function BranchBody(g: ForkGraph, fork: Id): seq<Id> {
    Bfs(Down(g), NonJoinChildren(g, fork), {fork} + Elems(NonJoinChildren(g, fork)))
  }

  /** Another gateway sits in the body of the fork. */
  ghost predicate Nested(g: ForkGraph, fork: Id) {
    Keep(BranchBody(g, fork), Branchings(g)) != []
  }

  ghost function AllSuspends(g: ForkGraph, root: Id): seq<Id> {
    if root == NO_ID then [] else Keep(BfsOrder(Down(g), root), Suspends(g))
  }

  ghost function FirstSuspend(g: ForkGraph, root: Id): Id {
    if root == NO_ID then NO_ID else First(BfsOrder(Down(g), root), Suspends(g))
  }

  predicate HasRows(rows: Rows, n: Id) {
    n in rows && |rows[n]| > 0
  }

  /** Some node of the branch has produced a task row. */
  ghost predicate BranchHasTask(g: ForkGraph, rows: Rows, root: Id) {
    exists n :: Reach(Down(g), root, n) && HasRows(rows, n)
  }

  /** r is a child of the fork that lies above start, start itself included. */
  ghost predicate BranchAbove(g: ForkGraph, start: Id, fork: Id, r: Id) {
    fork in ParentsOf(g, r) && Reach(Up(g), start, r)
  }

  /**
   What `findBranchRoot` may return: a child of the fork nearest to start on the way up, or none if there is no
   such child. Which of several nearest ones it is depends on the order in which Go ranges over a map.
   */
  ghost predicate IsBranchRoot(g: ForkGraph, start: Id, fork: Id, root: Id) {
    if root == NO_ID then forall r :: !BranchAbove(g, start, fork, r)
    else BranchAbove(g, start, fork, root)
         && forall r | BranchAbove(g, start, fork, r) :: Hops(Up(g), start, root) <= Hops(Up(g), start, r)
  }

  predicate Settled(rows: seq<TaskStatus>) {
    (forall s | s in rows :: IsTerminalTask(s)) && Completed in rows
  }

  predicate NodeSettled(rows: Rows, n: Id) {
    n in rows && Settled(rows[n])
  }

  /** Every branch of a parallel fork runs; a branch of an inclusive gateway runs if it left a task row. */
  ghost predicate Activated(g: ForkGraph, rows: Rows, fork: Id, root: Id) {
    TypeOf(g, fork) == Inclusive ==> BranchHasTask(g, rows, root)
  }

  ghost function LiveRoots(g: ForkGraph, rows: Rows, fork: Id): seq<Id> {
    Keep(SortedKeys(ChildrenOf(g, fork)), set r | r in ChildrenOf(g, fork) && Activated(g, rows, fork, r))
  }

  ghost function Exits(g: ForkGraph, roots: seq<Id>): seq<Id> {
    if roots == [] then [] else
      var first := FirstSuspend(g, roots[|roots| - 1]);
      Exits(g, roots[..|roots| - 1]) + if first == NO_ID then [] else [first]
  }

  ghost function PendingOf(g: ForkGraph, rows: Rows, roots: seq<Id>): seq<Id> {
    if roots == [] then [] else
      PendingOf(g, rows, roots[..|roots| - 1]) + Keep(AllSuspends(g, roots[|roots| - 1]), Unsettled(g, rows))
  }

  ghost function Unsettled(g: ForkGraph, rows: Rows): set<Id> {
    set n | n in Suspends(g) && !NodeSettled(rows, n)
  }

  ghost function Decision(g: ForkGraph, rows: Rows, start: Id, fork: Id, root: Id): Outcome {
    var own := AllSuspends(g, root);
    if own != [] && start != own[|own| - 1] then Single else
      var live := LiveRoots(g, rows, fork);
      if Exits(g, live) == [] then Single
      else if PendingOf(g, rows, live) != [] then Skip(PendingOf(g, rows, live))
      else Multi(Exits(g, live))
  }

  /** The answers `analyzeForkResume` may give once graph and task rows are loaded. */
  ghost predicate Answers(g: ForkGraph, rows: Rows, start: Id, out: Outcome) {
    var fork := ForkAncestor(g, start);
    if start == NO_ID || fork == NO_ID then out == Single
    else if Nested(g, fork) then out == Unsupported(fork)
    else if |ChildrenOf(g, fork)| < 2 then out == Single
    else exists root :: IsBranchRoot(g, start, fork, root) && out == Decision(g, rows, start, fork, root)
  }

  // ---- The traversals ----

  method AllRowsSettled(rows: seq<TaskStatus>) returns (settled: bool)
    ensures settled == Settled(rows)
    ensures settled <==> Completed in rows && forall s | s in rows :: s in {Completed, Terminated, Returned, Withdrawn}
  {
    if |rows| == 0 { return false; }
    var completed := 0;
    for i := 0 to |rows|
      invariant forall s | s in rows[..i] :: IsTerminalTask(s)
      invariant completed > 0 <==> Completed in rows[..i]
      invariant completed >= 0
    {
      assert rows[..i + 1] == rows[..i] + [rows[i]];
      if rows[i] == Completed {
        completed := completed + 1;
      } else if !IsTerminalTask(rows[i]) {
        assert rows[i] in rows;
        return false;
      }
    }
    assert rows[..|rows|] == rows;
    return completed > 0;
  }

  method FindForkAncestor(g: ForkGraph, start: Id) returns (fork: Id)
    ensures fork == if start == NO_ID then NO_ID else ForkAncestor(g, start)
  {
    if start == NO_ID { return NO_ID; }
    ghost var adj, good := Up(g), Branchings(g) - {start};
    var visited, queue := {start}, [start];
    while queue != []
      invariant First(Bfs(adj, queue, visited), good) == First(BfsOrder(adj, start), good)
      decreases |Targets(adj) - visited|, |queue|
    {
      var cur := queue[0];
      var next := SortKeys(ParentsOf(g, cur));
      SuccUp(g, cur);
      visited, queue := Expand(adj, next, visited, queue);
      KeepCons(cur, Bfs(adj, queue, visited), good);
      if cur != start && IsBranching(TypeOf(g, cur)) {
        return cur;
      }
    }
    return NO_ID;
  }

  method HasNestedFork(g: ForkGraph, fork: Id) returns (nested: bool)
    ensures nested == (fork != NO_ID && Nested(g, fork))
  {
    if fork == NO_ID { return false; }
    var queue := NonJoinOf(g, fork);
    var visited := {fork} + Elems(queue);
    ghost var adj, good := Down(g), Branchings(g);
    while queue != []
      invariant (Keep(Bfs(adj, queue, visited), good) != []) == Nested(g, fork)
      decreases |Targets(adj) - visited|, |queue|
    {
      var cur := queue[0];
      var next := NonJoinOf(g, cur);
      SuccDown(g, cur);
      visited, queue := Expand(adj, next, visited, queue);
      KeepCons(cur, Bfs(adj, queue, visited), good);
      if IsBranching(TypeOf(g, cur)) {
        return true;
      }
    }
    return false;
  }

  method FindFirstSuspendNode(g: ForkGraph, root: Id) returns (first: Id)
    ensures first == FirstSuspend(g, root)
  {
    if root == NO_ID { return NO_ID; }
    ghost var adj, good := Down(g), Suspends(g);
    var visited, queue := {root}, [root];
    while queue != []
      invariant First(Bfs(adj, queue, visited), good) == First(BfsOrder(adj, root), good)
      decreases |Targets(adj) - visited|, |queue|
    {
      var cur := queue[0];
      var next := NonJoinOf(g, cur);
      SuccDown(g, cur);
      visited, queue := Expand(adj, next, visited, queue);
      KeepCons(cur, Bfs(adj, queue, visited), good);
      if IsSuspend(g, cur) {
        return cur;
      }
    }
    return NO_ID;
  }

  method FindAllSuspendNodes(g: ForkGraph, root: Id) returns (suspends: seq<Id>)
    ensures suspends == AllSuspends(g, root)
  {
    suspends := [];
    if root == NO_ID { return; }
    ghost var adj, good := Down(g), Suspends(g);
    var visited, queue := {root}, [root];
    while queue != []
      invariant KeepOnto(suspends, Bfs(adj, queue, visited), good) == KeepOnto([], BfsOrder(adj, root), good)
      decreases |Targets(adj) - visited|, |queue|
    {
      var cur := queue[0];
      var next := NonJoinOf(g, cur);
      SuccDown(g, cur);
      visited, queue := Expand(adj, next, visited, queue);
      KeepOntoCons(suspends, cur, Bfs(adj, queue, visited), good);
      if IsSuspend(g, cur) {
        suspends := suspends + [cur];
      }
    }
    KeepOntoIsKeep([], BfsOrder(adj, root), good);
  }

  /** The members of a set in some order: how Go ranges over a map. */
  method RangeOver(s: set<Id>) returns (keys: seq<Id>)
    ensures forall x :: x in keys <==> x in s
  {
    keys := [];
    var rest := s;
    while rest != {}
      invariant rest <= s
      invariant forall x :: x in keys <==> x in s - rest
      decreases rest
    {
      var x :| x in rest;
      keys, rest := keys + [x], rest - {x};
    }
  }

  method AnyOrderChildren(g: ForkGraph, n: Id) returns (next: seq<Id>)
    ensures forall x :: x in next <==> x in Succ(Down(g), n)
  {
    next := RangeOver(NonJoinSet(g, n));
    SuccDown(g, n);
  }

  method BranchHasAnyTask(g: ForkGraph, root: Id, rows: Rows) returns (has: bool)
    ensures has == (root != NO_ID && BranchHasTask(g, rows, root))
  {
    if root == NO_ID { return false; }
    ghost var adj, done := Down(g), {};
    var visited, queue := {root}, [root];
    RegionClosed(adj, root);
    RegionMeaning(adj, root);
    while queue != []
      invariant root in visited && visited <= Region(adj, root) && Explored(adj, done, queue, visited)
      invariant forall x | x in done :: !HasRows(rows, x)
      decreases |Targets(adj) - visited|, |queue|
    {
      var cur := queue[0];
      assert cur in Elems(queue);
      if HasRows(rows, cur) {
        return true;
      }
      var next := AnyOrderChildren(g, cur);
      visited, queue := ExpandAny(adj, done, next, visited, queue);
      done := done + {cur};
    }
    ExploredAll(adj, done, visited, root);
    return false;
  }

  /** The state of the upward search: level by level, and no child of the fork among the nodes done. */
  ghost predicate Climbing(g: ForkGraph, start: Id, fork: Id, d: nat, done: set<Id>, queue: seq<Id>, visited: set<Id>) {
    && start in visited && NO_ID !in visited && visited <= Region(Up(g), start)
    && Explored(Up(g), done, queue, visited) && NoDup(queue) && Front(Up(g), start, d, queue, visited)
    && forall x | x in done :: fork !in ParentsOf(g, x)
  }

  lemma ClimbStarts(g: ForkGraph, start: Id, fork: Id)
    requires start != NO_ID
    ensures Climbing(g, start, fork, 0, {}, [start], {start})
  {
    RegionClosed(Up(g), start);
    FrontStarts(Up(g), start);
    assert Elems([start]) == {start};
  }

  lemma ClimbFound(g: ForkGraph, start: Id, fork: Id, d: nat, done: set<Id>, queue: seq<Id>, visited: set<Id>)
    requires Climbing(g, start, fork, d, done, queue, visited) && queue != [] && fork in ParentsOf(g, queue[0])
    ensures IsBranchRoot(g, start, fork, queue[0])
  {
    var adj, root := Up(g), queue[0];
    assert root in Elems(queue);
    RegionMeaning(adj, start);
    FrontHead(adj, start, d, queue, visited);
    forall r | BranchAbove(g, start, fork, r) ensures d <= Hops(adj, start, r) {
      if Hops(adj, start, r) < d { NearerDone(adj, start, d, done, queue, visited, r); }
    }
  }

  lemma ClimbOn(g: ForkGraph, start: Id, fork: Id, d: nat, done: set<Id>, queue: seq<Id>, visited: set<Id>, next: seq<Id>) returns (d': nat)
    requires Named(g) && Climbing(g, start, fork, d, done, queue, visited) && queue != [] && fork !in ParentsOf(g, queue[0])
    requires forall x :: x in next <==> x in ParentsOf(g, queue[0])
    requires Explored(Up(g), done + {queue[0]}, queue[1..] + Unseen(next, visited), visited + Elems(next))
    ensures Climbing(g, start, fork, d', done + {queue[0]}, queue[1..] + Unseen(next, visited), visited + Elems(next))
  {
    var adj := Up(g);
    SuccUp(g, queue[0]);
    assert queue[0] in Elems(queue);
    RegionClosed(adj, start);
    d' := FrontStepAny(adj, start, d, next, queue, visited);
  }

  lemma ClimbEnds(g: ForkGraph, start: Id, fork: Id, d: nat, done: set<Id>, visited: set<Id>)
    requires Climbing(g, start, fork, d, done, [], visited)
    ensures IsBranchRoot(g, start, fork, NO_ID)
  {
    ExploredAll(Up(g), done, visited, start);
    RegionMeaning(Up(g), start);
  }

  method FindBranchRoot(g: ForkGraph, start: Id, fork: Id) returns (root: Id)
    requires Named(g)
    ensures if start == NO_ID || fork == NO_ID || start == fork then root == NO_ID else IsBranchRoot(g, start, fork, root)
  {
    if start == NO_ID || fork == NO_ID { return NO_ID; }
    if start == fork { return NO_ID; }
    ghost var adj, done, d: nat := Up(g), {}, 0;
    ClimbStarts(g, start, fork);
    if fork in ParentsOf(g, start) {
      ClimbFound(g, start, fork, 0, {}, [start], {start});
      return start;
    }
    var visited, queue := {start}, [start];
    while queue != []
      invariant Climbing(g, start, fork, d, done, queue, visited)
      decreases |Targets(adj) - visited|, |queue|
    {
      var cur := queue[0];
      if cur != start && fork in ParentsOf(g, cur) {
        ClimbFound(g, start, fork, d, done, queue, visited);
        assert cur in Elems(queue);
        return cur;
      }
      var next := RangeOver(ParentsOf(g, cur));
      SuccUp(g, cur);
      ghost var before, seen := queue, visited;
      visited, queue := ExpandAny(adj, done, next, visited, queue);
      d := ClimbOn(g, start, fork, d, done, before, seen, next);
      done := done + {cur};
    }
    ClimbEnds(g, start, fork, d, done, visited);
    return NO_ID;
  }

  // ---- Task rows by key, and the decision ----

  /** Task rows grouped by task definition key, in their order; rows without a key are skipped. */
  function RowsOf(tasks: seq<TaskRow>): Rows {
    if tasks == [] then map[] else
      var r := RowsOf(tasks[..|tasks| - 1]);
      var t := tasks[|tasks| - 1];
      if t.taskDefKey == NO_ID then r else r[t.taskDefKey := (if t.taskDefKey in r then r[t.taskDefKey] else []) + [t.status]]
  }

  /** A node has exactly the statuses of the task rows carrying its key. */
  lemma {:induction false} RowsOfMeaning(tasks: seq<TaskRow>)
    ensures forall n :: n in RowsOf(tasks) <==> n != NO_ID && exists s :: TaskRow(n, s) in tasks
    ensures forall n, s | n in RowsOf(tasks) :: s in RowsOf(tasks)[n] <==> TaskRow(n, s) in tasks
    ensures forall n | n in RowsOf(tasks) :: |RowsOf(tasks)[n]| > 0
  {
    if tasks != [] {
      var front, t := tasks[..|tasks| - 1], tasks[|tasks| - 1];
      RowsOfMeaning(front);
      assert forall x :: x in tasks <==> x in front || x == t;
      assert t == TaskRow(t.taskDefKey, t.status);
    }
  }

  method GroupRows(tasks: seq<TaskRow>) returns (rows: Rows)
    ensures rows == RowsOf(tasks)
  {
    rows := map[];
    for i := 0 to |tasks|
      invariant rows == RowsOf(tasks[..i])
    {
      assert tasks[..i + 1][..i] == tasks[..i];
      var t := tasks[i];
      if t.taskDefKey == NO_ID { continue; }
      rows := rows[t.taskDefKey := (if t.taskDefKey in rows then rows[t.taskDefKey] else []) + [t.status]];
    }
    assert tasks[..|tasks|] == tasks;
  }

  /** `analyzeForkResume`. `None` stands for a graph or a task list that could not be loaded. */
  method AnalyzeForkResume(graph: Option<ForkGraph>, tasks: Option<seq<TaskRow>>, start: Id) returns (out: Outcome)
    requires graph.Some? ==> Named(graph.value)
    ensures graph.None? ==> out == Single
    ensures graph.Some? && tasks.Some? ==> Answers(graph.value, RowsOf(tasks.value), start, out)
    ensures graph.Some? && tasks.None? ==>
              out == (if start != NO_ID && ForkAncestor(graph.value, start) != NO_ID && Nested(graph.value, ForkAncestor(graph.value, start))
                      then Unsupported(ForkAncestor(graph.value, start)) else Single)
  {
    if graph.None? || start == NO_ID { return Single; }
    var g := graph.value;
    var fork := FindForkAncestor(g, start);
    if fork == NO_ID { return Single; }
    var nested := HasNestedFork(g, fork);
    if nested { return Unsupported(fork); }
    if |ChildrenOf(g, fork)| < 2 { return Single; }
    var roots := SortKeys(ChildrenOf(g, fork));
    if tasks.None? { return Single; }
    var rows := GroupRows(tasks.value);
    ForkAncestorIsOther(g, start);
    var root := FindBranchRoot(g, start, fork);
    var own := FindAllSuspendNodes(g, root);
    if root != NO_ID && |own| > 0 && start != own[|own| - 1] { return Single; }
    var live := FindLiveRoots(g, rows, fork, roots);
    var exits := CollectExits(g, live);
    if |exits| == 0 { return Single; }
    var pending := CollectPending(g, rows, live);
    if |pending| > 0 { return Skip(pending); }
    return Multi(exits);
  }

  lemma {:induction false} FirstFacts(s: seq<Id>, good: set<Id>)
    ensures First(s, good) != NO_ID ==> First(s, good) in s && First(s, good) in good
    ensures NO_ID !in s ==> (First(s, good) == NO_ID <==> Keep(s, good) == [])
    ensures NO_ID !in s && Keep(s, good) != [] ==> First(s, good) == Keep(s, good)[0]
  {
    if s != [] {
      FirstFacts(s[1..], good);
      assert forall x :: x in s <==> x == s[0] || x in s[1..];
    }
  }

  lemma ForkAncestorIsOther(g: ForkGraph, start: Id)
    requires ForkAncestor(g, start) != NO_ID
    ensures ForkAncestor(g, start) != start && IsBranching(TypeOf(g, ForkAncestor(g, start)))
    ensures Reach(Up(g), start, ForkAncestor(g, start))
  {
    FirstFacts(BfsOrder(Up(g), start), Branchings(g) - {start});
    BfsOrderMeaning(Up(g), start);
  }

  /** Leave out the branches an inclusive gateway did not take. */
  method FindLiveRoots(g: ForkGraph, rows: Rows, fork: Id, roots: seq<Id>) returns (live: seq<Id>)
    requires roots == SortedKeys(ChildrenOf(g, fork)) && NO_ID !in roots
    ensures live == LiveRoots(g, rows, fork)
  {
    live := [];
    ghost var good := set r | r in ChildrenOf(g, fork) && Activated(g, rows, fork, r);
    for i := 0 to |roots|
      invariant live == Keep(roots[..i], good)
    {
      assert roots[..i + 1] == roots[..i] + [roots[i]];
      KeepSplit(roots[..i], [roots[i]], good);
      assert roots[i] in roots;
      var has := TypeOf(g, fork) != Inclusive;
      if !has { has := BranchHasAnyTask(g, roots[i], rows); }
      if has { live := live + [roots[i]]; }
    }
    assert roots[..|roots|] == roots;
  }

  method CollectExits(g: ForkGraph, live: seq<Id>) returns (exits: seq<Id>)
    ensures exits == Exits(g, live)
  {
    exits := [];
    for i := 0 to |live|
      invariant exits == Exits(g, live[..i])
    {
      assert live[..i + 1][..i] == live[..i];
      var exit := FindFirstSuspendNode(g, live[i]);
      if exit != NO_ID { exits := exits + [exit]; }
    }
    assert live[..|live|] == live;
  }

  method CollectPending(g: ForkGraph, rows: Rows, live: seq<Id>) returns (pending: seq<Id>)
    ensures pending == PendingOf(g, rows, live)
  {
    pending := [];
    for i := 0 to |live|
      invariant pending == PendingOf(g, rows, live[..i])
    {
      assert live[..i + 1][..i] == live[..i];
      var suspends := FindAllSuspendNodes(g, live[i]);
      var open := UnsettledOf(g, rows, suspends, live[i]);
      pending := pending + open;
    }
    assert live[..|live|] == live;
  }

  method UnsettledOf(g: ForkGraph, rows: Rows, suspends: seq<Id>, ghost root: Id) returns (open: seq<Id>)
    requires suspends == AllSuspends(g, root)
    ensures open == Keep(suspends, Unsettled(g, rows))
  {
    open := [];
    ghost var good := Unsettled(g, rows);
    SuspendsAreSuspends(g, root);
    for i := 0 to |suspends|
      invariant open == Keep(suspends[..i], good)
    {
      var n := suspends[i];
      assert suspends[..i + 1] == suspends[..i] + [n];
      KeepSplit(suspends[..i], [n], good);
      var settled := false;
      if n in rows { settled := AllRowsSettled(rows[n]); }
      if !settled { open := open + [n]; }
    }
    assert suspends[..|suspends|] == suspends;
  }

  lemma SuspendsAreSuspends(g: ForkGraph, root: Id)
    ensures forall i | 0 <= i < |AllSuspends(g, root)| :: AllSuspends(g, root)[i] in Suspends(g)
  {
    var s := AllSuspends(g, root);
    if root != NO_ID { KeepMembers(BfsOrder(Down(g), root), Suspends(g)); }
    assert forall i | 0 <= i < |s| :: s[i] in s;
  }

  // ---- Parsing the definition ----

  /** Some connection, named at both ends, leads from a to b. */
  predicate Connected(conns: seq<Connection>, a: Id, b: Id) {
    a != NO_ID && b != NO_ID && exists c :: c in conns && c.fromId == a && c.toId == b
  }

  /** The graph holds exactly the chain's named connections, in both directions, and each node's last listed type. */
  ghost predicate Parses(g: ForkGraph, chain: Chain) {
    && (forall a, b :: b in ChildrenOf(g, a) <==> Connected(chain.connections, a, b))
    && (forall a, b :: a in ParentsOf(g, b) <==> Connected(chain.connections, a, b))
    && (forall n :: TypeOf(g, n) == TypeIn(chain.nodes, n))
    && (forall n :: n in g.asyncAgents <==> IsAsyncAgent(chain.nodes, n))
  }

  lemma ConnectedSnoc(conns: seq<Connection>, c: Connection)
    ensures forall a, b :: Connected(conns + [c], a, b) <==>
              Connected(conns, a, b) || (a != NO_ID && b != NO_ID && c.fromId == a && c.toId == b)
  {
    assert forall x :: x in conns + [c] <==> x in conns || x == c;
  }

  function TypeIn(nodes: seq<Node>, n: Id): NodeType {
    if nodes == [] || n == NO_ID then Other("")
    else if nodes[|nodes| - 1].id == n then nodes[|nodes| - 1].typ
    else TypeIn(nodes[..|nodes| - 1], n)
  }

  /** Of a parsed definition the process waits at approvals, at delays, and at agents not listed as asynchronous. */
  lemma ParsedWaits(g: ForkGraph, chain: Chain, n: Id)
    requires Parses(g, chain) && n != NO_ID
    ensures IsSuspend(g, n) <==>
              || TypeIn(chain.nodes, n) == UserTask || TypeIn(chain.nodes, n) == Delay
              || (TypeIn(chain.nodes, n) == AiAgent
                  && forall x | x in chain.nodes && x.id == n && x.typ == AiAgent :: !x.isAsync)
  {
    assert n in g.asyncAgents <==> IsAsyncAgent(chain.nodes, n);
  }

  method ParseForkGraph(chain: Chain) returns (g: ForkGraph)
    ensures Parses(g, chain) && Named(g)
  {
    var types: map<Id, NodeType>, agents := map[], {};
    for i := 0 to |chain.nodes|
      invariant forall n :: (if n in types then types[n] else Other("")) == TypeIn(chain.nodes[..i], n)
      invariant forall n :: n in agents <==> IsAsyncAgent(chain.nodes[..i], n)
      invariant NO_ID !in types
    {
      var x := chain.nodes[i];
      assert chain.nodes[..i + 1] == chain.nodes[..i] + [x];
      if x.id == NO_ID { continue; }
      types := types[x.id := x.typ];
      if x.typ == AiAgent && x.isAsync { agents := agents + {x.id}; }
    }
    assert chain.nodes[..|chain.nodes|] == chain.nodes;
    var children, parents := ParseEdges(chain.connections);
    g := ForkGraph(types, parents, children, agents);
  }

  ghost predicate IsAsyncAgent(nodes: seq<Node>, n: Id) {
    n != NO_ID && exists x :: x in nodes && x.id == n && x.typ == AiAgent && x.isAsync
  }

  function Neighbours(edges: map<Id, set<Id>>, n: Id): set<Id> {
    if n in edges then edges[n] else {}
  }

  method ParseEdges(conns: seq<Connection>) returns (children: map<Id, set<Id>>, parents: map<Id, set<Id>>)
    ensures forall a, b :: b in Neighbours(children, a) <==> Connected(conns, a, b)
    ensures forall a, b :: a in Neighbours(parents, b) <==> Connected(conns, a, b)
  {
    children, parents := map[], map[];
    for i := 0 to |conns|
      invariant forall a, b :: b in Neighbours(children, a) <==> Connected(conns[..i], a, b)
      invariant forall a, b :: a in Neighbours(parents, b) <==> Connected(conns[..i], a, b)
    {
      var c := conns[i];
      assert conns[..i + 1] == conns[..i] + [c];
      ConnectedSnoc(conns[..i], c);
      if c.fromId == NO_ID || c.toId == NO_ID { continue; }
      children := children[c.fromId := Neighbours(children, c.fromId) + {c.toId}];
      parents := parents[c.toId := Neighbours(parents, c.toId) + {c.fromId}];
    }
    assert conns[..|conns|] == conns;
  }
}
