/**
 Whole runs over a flat fork: any number of linear branches, waiting nodes settling in branch order and
 decisions taken for them, in every interleaving. No run loses its wake-up.
 */
module ForkRuns {
  import opened Text
  import opened Definitions
  import opened Walks
  import opened ForkResume
  import opened ForkDecision

  // ---- Flat forks ----

  /** A gateway, the join behind it, and the branches between them, each from top to bottom. */
  datatype Layout = Layout(fork: Id, join: Id, branches: seq<seq<Id>>)

  ghost predicate At(l: Layout, b: int, j: int) {
    0 <= b < |l.branches| && 0 <= j < |l.branches[b]|
  }

  ghost function NodeAt(l: Layout, b: int, j: int): Id
    requires At(l, b, j)
  {
    l.branches[b][j]
  }

  /** The node above the j-th of a branch: its predecessor, or the fork. */
  ghost function Above(l: Layout, b: int, j: int): Id
    requires At(l, b, j)
  {
    if j == 0 then l.fork else NodeAt(l, b, j - 1)
  }

  /** The branches are disjoint chains without gateways, and the graph has no other edges at their nodes. */
  ghost predicate IsFlat(g: ForkGraph, l: Layout) {
    && Named(g) && l.fork != NO_ID && TypeOf(g, l.fork) in {Fork, Inclusive} && TypeOf(g, l.join) == Join
    && |l.branches| >= 2 && (forall b | 0 <= b < |l.branches| :: At(l, b, 0))
    && (forall b, j, c, k | At(l, b, j) && At(l, c, k) && NodeAt(l, b, j) == NodeAt(l, c, k) :: b == c && j == k)
    && (forall b, j | At(l, b, j) :: TypeOf(g, NodeAt(l, b, j)) !in {Fork, Inclusive, Join})
    && (forall r :: r in ChildrenOf(g, l.fork) <==> exists b :: At(l, b, 0) && NodeAt(l, b, 0) == r)
    && (forall b, j, k | At(l, b, j) && At(l, b, k) && k == j + 1 ::
          ChildrenOf(g, NodeAt(l, b, j)) == {NodeAt(l, b, k)} && ParentsOf(g, NodeAt(l, b, k)) == {NodeAt(l, b, j)})
    && (forall b, j | At(l, b, j) && j == |l.branches[b]| - 1 :: ChildrenOf(g, NodeAt(l, b, j)) == {l.join})
    && (forall b | At(l, b, 0) :: ParentsOf(g, NodeAt(l, b, 0)) == {l.fork})
  }

  lemma Singleton(s: seq<Id>, x: Id)
    requires NoDup(s) && forall y :: y in s <==> y == x
    ensures s == [x]
  {
    assert x in s;
    if |s| > 1 { TwoDiffer(s); assert false; }
  }

  lemma FlatDown(g: ForkGraph, l: Layout, b: int, j: int)
    requires IsFlat(g, l) && At(l, b, j)
    ensures Succ(Down(g), NodeAt(l, b, j)) == if At(l, b, j + 1) then [NodeAt(l, b, j + 1)] else []
  {
    var n := NodeAt(l, b, j);
    SuccDown(g, n);
    AscendingNoDup(g, n);
    assert At(l, b, j + 1) <==> j < |l.branches[b]| - 1;
    if At(l, b, j + 1) {
      Singleton(NonJoinChildren(g, n), NodeAt(l, b, j + 1));
    } else if NonJoinChildren(g, n) != [] {
      HasMember(NonJoinChildren(g, n));
      assert false;
    }
  }

  lemma FlatUp(g: ForkGraph, l: Layout, b: int, j: int)
    requires IsFlat(g, l) && At(l, b, j)
    ensures Succ(Up(g), NodeAt(l, b, j)) == [Above(l, b, j)]
  {
    var n, above := NodeAt(l, b, j), Above(l, b, j);
    SuccUp(g, n);
    var keys := SortedKeys(ParentsOf(g, n));
    assert j > 0 ==> At(l, b, j - 1);
    assert ParentsOf(g, n) == {above};
    forall i, k | 0 <= i < k < |keys| ensures keys[i] != keys[k] { BeforeAsymmetric(keys[i], keys[k]); }
    Singleton(keys, above);
  }

  // ---- Chains ----

  /** Each node of c but the last has the next one as its only successor. */
  ghost predicate Leads(adj: Adj, c: seq<Id>) {
    forall i | 0 <= i < |c| - 1 :: Succ(adj, c[i]) == [c[i + 1]]
  }

  /** A search with one node queued whose only successor is new moves on to that successor. */
  lemma BfsChain(adj: Adj, x: Id, y: Id, visited: set<Id>)
    requires x in visited && y !in visited && Succ(adj, x) == [y]
    ensures Bfs(adj, [x], visited) == [x] + Bfs(adj, [y], visited + {y})
  {
    assert Elems([x]) == {x} && Elems([y]) == {y};
    assert Unseen([y], visited) == [y];
    var added, queue', visited' := BfsUnfold(adj, [x], visited);
    assert queue' == [y];
  }

  lemma ChainTail(adj: Adj, c: seq<Id>)
    requires |c| > 0 && NoDup(c) && Leads(adj, c)
    ensures NoDup(c[1..]) && Leads(adj, c[1..])
    ensures Elems(c) == {c[0]} + Elems(c[1..]) && c[0] !in Elems(c[1..])
  {
    var d := c[1..];
    forall i | 0 <= i < |d| ensures d[i] == c[i + 1] { }
    assert forall x | x in c :: x == c[0] || x in d;
  }

  lemma ChainJoin(c: seq<Id>, rest: seq<Id>)
    requires |c| > 1
    ensures [c[0]] + (c[1..][..|c| - 2] + rest) == c[..|c| - 1] + rest
    ensures c[1..][|c| - 2] == c[|c| - 1]
  {
    assert [c[0]] + c[1..][..|c| - 2] == c[..|c| - 1];
  }

  /** The search runs down the chain and goes on from its last node. */
  lemma {:induction false} ChainSearch(adj: Adj, c: seq<Id>, visited: set<Id>)
    requires |c| > 0 && NoDup(c) && Leads(adj, c) && c[0] in visited && Elems(c[1..]) !! visited
    ensures Bfs(adj, [c[0]], visited) == c[..|c| - 1] + Bfs(adj, [c[|c| - 1]], visited + Elems(c))
    decreases |c|
  {
    ChainTail(adj, c);
    if |c| == 1 {
      assert visited + Elems(c) == visited;
      assert c[..0] == [];
    } else {
      var d := c[1..];
      var seen := visited + {c[1]};
      ChainTail(adj, d);
      BfsChain(adj, c[0], c[1], visited);
      ChainSearch(adj, d, seen);
      assert seen + Elems(d) == visited + Elems(c);
      ChainJoin(c, Bfs(adj, [c[|c| - 1]], visited + Elems(c)));
    }
  }

  /** A walk from the head of a chain that is not longer than the chain follows it. */
  lemma {:induction false} ChainFollows(adj: Adj, c: seq<Id>, p: seq<Id>)
    requires Leads(adj, c) && IsWalk(adj, p) && |p| <= |c| && p[0] == c[0]
    ensures p[|p| - 1] == c[|p| - 1]
    decreases |p|
  {
    if |p| > 1 {
      ChainFollows(adj, c, p[..|p| - 1]);
      assert p[|p| - 2 + 1] in Succ(adj, p[|p| - 2]) && Succ(adj, c[|p| - 2]) == [c[|p| - 2 + 1]];
    }
  }

  /** The branch read upwards from its j-th node. */
  ghost function Upwards(l: Layout, b: int, j: int): (u: seq<Id>)
    requires At(l, b, j)
    ensures |u| == j + 1 && forall i | 0 <= i <= j :: u[i] == NodeAt(l, b, j - i)
  {
    seq(j + 1, i requires 0 <= i <= j => NodeAt(l, b, j - i))
  }

  lemma UpwardsStep(g: ForkGraph, l: Layout, b: int, j: int, i: int)
    requires IsFlat(g, l) && At(l, b, j) && 0 <= i <= j
    ensures var u := Upwards(l, b, j);
            Succ(Up(g), u[i]) == [if i < j then u[i + 1] else l.fork] && u[i] != l.fork
  {
    FlatUp(g, l, b, j - i);
  }

  lemma UpwardsLeads(g: ForkGraph, l: Layout, b: int, j: int)
    requires IsFlat(g, l) && At(l, b, j)
    ensures var u := Upwards(l, b, j) + [l.fork]; Leads(Up(g), u) && NoDup(u)
  {
    var u := Upwards(l, b, j);
    forall i | 0 <= i < |u| - 1 ensures Succ(Up(g), u[i]) == [u[i + 1]] { UpwardsStep(g, l, b, j, i); }
    forall i, k | 0 <= i < k < |u| ensures u[i] != u[k] { }
    forall i | 0 <= i < |u| ensures u[i] != l.fork { UpwardsStep(g, l, b, j, i); }
    UpwardsStep(g, l, b, j, j);
  }

  lemma BranchLeads(g: ForkGraph, l: Layout, b: int)
    requires IsFlat(g, l) && At(l, b, 0)
    ensures Leads(Down(g), l.branches[b]) && NoDup(l.branches[b])
  {
    var c := l.branches[b];
    forall i | 0 <= i < |c| - 1 ensures Succ(Down(g), c[i]) == [c[i + 1]] {
      assert At(l, b, i) && NodeAt(l, b, i) == c[i];
      FlatDown(g, l, b, i);
    }
    forall i, k | 0 <= i < k < |c| ensures c[i] != c[k] {
      assert At(l, b, i) && At(l, b, k) && NodeAt(l, b, i) != NodeAt(l, b, k);
    }
  }

  lemma FrontBack(c: seq<Id>)
    requires |c| > 0
    ensures c[..|c| - 1] + [c[|c| - 1]] == c
  {
  }

  /** A search down a chain that ends at its last node lists the chain. */
  lemma ChainOrder(adj: Adj, c: seq<Id>)
    requires |c| > 0 && NoDup(c) && Leads(adj, c) && Succ(adj, c[|c| - 1]) == []
    ensures BfsOrder(adj, c[0]) == c
  {
    ChainTail(adj, c);
    ChainSearch(adj, c, {c[0]});
    var last, visited := c[|c| - 1], {c[0]} + Elems(c);
    FrontBack(c);
  }

  /** Searching down a branch lists its chain. */
  lemma FlatSuspends(g: ForkGraph, l: Layout, b: int)
    requires IsFlat(g, l) && At(l, b, 0)
    ensures NodeAt(l, b, 0) != NO_ID && AllSuspends(g, NodeAt(l, b, 0)) == Keep(l.branches[b], Suspends(g))
    ensures forall n :: Reach(Down(g), NodeAt(l, b, 0), n) <==> n in l.branches[b]
  {
    var c := l.branches[b];
    BranchLeads(g, l, b);
    FlatDown(g, l, b, |c| - 1);
    ChainOrder(Down(g), c);
    BfsOrderMeaning(Down(g), c[0]);
    FlatNamed(g, l, b, 0);
  }

  lemma FlatNamed(g: ForkGraph, l: Layout, b: int, j: int)
    requires IsFlat(g, l) && At(l, b, j)
    ensures NodeAt(l, b, j) != NO_ID
  {
    if j == 0 {
      assert NodeAt(l, b, 0) in ChildrenOf(g, l.fork);
    } else {
      assert At(l, b, j - 1);
      assert NodeAt(l, b, j - 1 + 1) in ChildrenOf(g, NodeAt(l, b, j - 1));
    }
  }

  /** The first match of a search up a chain whose only match is the last node. */
  lemma FirstUpChain(adj: Adj, a: seq<Id>, top: Id, good: set<Id>)
    requires |a| > 0 && NoDup(a + [top]) && Leads(adj, a + [top])
    requires top in good && forall i | 0 <= i < |a| :: a[i] !in good
    ensures First(BfsOrder(adj, a[0]), good) == top
  {
    var u := a + [top];
    ChainTail(adj, u);
    ChainSearch(adj, u, {u[0]});
    assert u[..|u| - 1] == a && u[|u| - 1] == top && u[0] == a[0];
    var visited := {u[0]} + Elems(u);
    FirstPast(a, Bfs(adj, [top], visited), good);
    HeadFirst(adj, top, visited, good);
  }

  lemma HeadFirst(adj: Adj, top: Id, visited: set<Id>, good: set<Id>)
    requires top in good
    ensures First(Bfs(adj, [top], visited), good) == top
  {
  }

  /** The nearest gateway above a branch node is the fork. */
  lemma FlatForkAncestor(g: ForkGraph, l: Layout, b: int, j: int)
    requires IsFlat(g, l) && At(l, b, j)
    ensures ForkAncestor(g, NodeAt(l, b, j)) == l.fork
  {
    var n, u := NodeAt(l, b, j), Upwards(l, b, j);
    UpwardsLeads(g, l, b, j);
    forall i | 0 <= i < |u| ensures u[i] !in Branchings(g) {
      assert At(l, b, j - i) && !IsGateway(TypeOf(g, NodeAt(l, b, j - i)));
    }
    FirstUpChain(Up(g), u, l.fork, Branchings(g) - {n});
  }

  lemma {:induction false} FirstPast(a: seq<Id>, s: seq<Id>, good: set<Id>)
    requires forall i | 0 <= i < |a| :: a[i] !in good
    ensures First(a + s, good) == First(s, good)
  {
    if a == [] {
      assert a + s == s;
    } else {
      assert (a + s)[1..] == a[1..] + s;
      FirstPast(a[1..], s, good);
    }
  }

  ghost predicate OnLayout(l: Layout, n: Id) {
    exists b, j :: At(l, b, j) && NodeAt(l, b, j) == n
  }

  lemma FlatNotNested(g: ForkGraph, l: Layout)
    requires IsFlat(g, l)
    ensures !Nested(g, l.fork)
  {
    NestedMeaning(g, l.fork);
    assert forall b | At(l, b, 0) :: NodeAt(l, b, 0) != l.fork;
    forall n | Reach(Down(g), l.fork, n) ensures n == l.fork || OnLayout(l, n) {
      var p :| WalkFromTo(Down(g), p, l.fork, n);
      FlatWalk(g, l, p);
    }
  }

  lemma {:induction false} FlatWalk(g: ForkGraph, l: Layout, p: seq<Id>)
    requires IsFlat(g, l) && IsWalk(Down(g), p) && p[0] == l.fork
    ensures p[|p| - 1] == l.fork || OnLayout(l, p[|p| - 1])
    decreases |p|
  {
    if |p| > 1 {
      FlatWalk(g, l, p[..|p| - 1]);
      assert p[|p| - 2 + 1] in Succ(Down(g), p[|p| - 2]);
      FlatStep(g, l, p[|p| - 2], p[|p| - 1]);
    }
  }

  lemma FlatStep(g: ForkGraph, l: Layout, m: Id, n: Id)
    requires IsFlat(g, l) && n in Succ(Down(g), m) && (m == l.fork || OnLayout(l, m))
    ensures OnLayout(l, n)
  {
    SuccDown(g, m);
    if m == l.fork {
      var b :| At(l, b, 0) && NodeAt(l, b, 0) == n;
    } else {
      var b, j :| At(l, b, j) && NodeAt(l, b, j) == m;
      FlatDown(g, l, b, j);
      assert At(l, b, j + 1) && NodeAt(l, b, j + 1) == n;
    }
  }

  /** Upwards from a branch node, no child of the fork comes before the head of the branch. */
  lemma FlatBranchWalk(g: ForkGraph, l: Layout, b: int, j: int, r: Id, q: seq<Id>)
    requires IsFlat(g, l) && At(l, b, j) && l.fork in ParentsOf(g, r) && WalkFromTo(Up(g), q, NodeAt(l, b, j), r)
    ensures |q| > j && (|q| == j + 1 ==> r == NodeAt(l, b, 0))
  {
    var u := Upwards(l, b, j);
    UpwardsLeads(g, l, b, j);
    ChainPart(Up(g), u, l.fork);
    if |q| <= j + 1 {
      ChainFollows(Up(g), u, q);
      var k := j - (|q| - 1);
      assert r == NodeAt(l, b, k) && ParentsOf(g, NodeAt(l, b, k)) == {Above(l, b, k)};
    }
  }

  /** Whatever order the upward search takes, it ends at the head of the branch. */
  lemma FlatBranchRoot(g: ForkGraph, l: Layout, b: int, j: int, r: Id)
    requires IsFlat(g, l) && At(l, b, j)
    ensures IsBranchRoot(g, NodeAt(l, b, j), l.fork, r) <==> r == NodeAt(l, b, 0)
  {
    var n, head, u := NodeAt(l, b, j), NodeAt(l, b, 0), Upwards(l, b, j);
    assert head in ChildrenOf(g, l.fork) && ParentsOf(g, head) == {Above(l, b, 0)};
    UpwardsLeads(g, l, b, j);
    ChainPart(Up(g), u, l.fork);
    assert WalkFromTo(Up(g), u, n, head);
    HopsIsShortest(Up(g), n, head);
    assert BranchAbove(g, n, l.fork, head) && Hops(Up(g), n, head) <= j;
    forall x | BranchAbove(g, n, l.fork, x) ensures Hops(Up(g), n, x) >= j && (Hops(Up(g), n, x) == j ==> x == head) {
      HopsIsShortest(Up(g), n, x);
      var q :| WalkFromTo(Up(g), q, n, x) && |q| == Hops(Up(g), n, x) + 1;
      FlatBranchWalk(g, l, b, j, x, q);
    }
    FlatNamed(g, l, b, 0);
  }

  lemma ChainPart(adj: Adj, u: seq<Id>, x: Id)
    requires |u| > 0 && Leads(adj, u + [x])
    ensures Leads(adj, u) && IsWalk(adj, u)
  {
    var w := u + [x];
    forall i | 0 <= i < |u| - 1 ensures Succ(adj, u[i]) == [u[i + 1]] {
      assert w[i] == u[i] && w[i + 1] == u[i + 1];
    }
  }

  lemma FlatHeads(g: ForkGraph, l: Layout)
    requires IsFlat(g, l)
    ensures |ChildrenOf(g, l.fork)| >= 2
  {
    var x, y := NodeAt(l, 0, 0), NodeAt(l, 1, 0);
    assert At(l, 0, 0) && At(l, 1, 0) && x != y;
    assert x in ChildrenOf(g, l.fork) && y in ChildrenOf(g, l.fork);
    SubsetSize({x, y}, ChildrenOf(g, l.fork));
  }

  /** On a flat fork the answer for a branch node is unique. */
  lemma FlatAnswer(g: ForkGraph, l: Layout, rows: Rows, b: int, j: int, out: Outcome)
    requires IsFlat(g, l) && At(l, b, j)
    ensures Answers(g, rows, NodeAt(l, b, j), out) <==>
              out == Decision(g, rows, NodeAt(l, b, j), l.fork, NodeAt(l, b, 0))
  {
    FlatNamed(g, l, b, j);
    FlatForkAncestor(g, l, b, j);
    FlatNotNested(g, l);
    FlatHeads(g, l);
    FlatBranchRoot(g, l, b, j, NodeAt(l, b, 0));
    if Answers(g, rows, NodeAt(l, b, j), out) {
      var root :| IsBranchRoot(g, NodeAt(l, b, j), l.fork, root) && out == Decision(g, rows, NodeAt(l, b, j), l.fork, root);
      FlatBranchRoot(g, l, b, j, root);
    }
  }

  // ---- Runs ----

  datatype Spot = Spot(branch: int, index: int)

  /** The task rows of a waiting node change, or the engine decides after an approval at that node. */
  datatype Event = Write(at: Spot, statuses: seq<TaskStatus>) | Decide(at: Spot)

  /** A flat fork together with the branches its gateway took. */
  datatype Flow = Flow(g: ForkGraph, l: Layout, taken: set<int>) {
    ghost predicate Valid() {
      && IsFlat(g, l) && (forall b | b in taken :: At(l, b, 0))
      && (TypeOf(g, l.fork) == Fork ==> forall b | 0 <= b < |l.branches| :: b in taken)
      && exists s :: Watched(s)
    }

    /** The layout names each node once, and somewhere the process waits. */
    ghost predicate Apart() {
      && (forall s, t | Spotted(s) && Spotted(t) && NodeOf(s) == NodeOf(t) :: s == t)
      && exists s :: Watched(s)
    }

    ghost predicate Spotted(s: Spot) {
      At(l, s.branch, s.index)
    }

    /** A waiting node of a branch that was taken. */
    ghost predicate Watched(s: Spot) {
      s.branch in taken && Spotted(s) && IsSuspend(g, NodeAt(l, s.branch, s.index))
    }

    ghost function NodeOf(s: Spot): Id
      requires Spotted(s)
    {
      NodeAt(l, s.branch, s.index)
    }

    ghost predicate Done(rows: Rows, s: Spot)
      requires Watched(s)
    {
      NodeSettled(rows, NodeOf(s))
    }

    ghost predicate AllDone(rows: Rows) {
      forall s | Watched(s) :: Done(rows, s)
    }

    ghost predicate SomeRow(rows: Rows, b: int) {
      exists j :: At(l, b, j) && HasRows(rows, NodeAt(l, b, j))
    }

    /** Under an inclusive gateway the branches with task rows are the ones that were taken. */
    ghost predicate Tracks(rows: Rows) {
      TypeOf(g, l.fork) == Inclusive ==> forall b | 0 <= b < |l.branches| :: b in taken <==> SomeRow(rows, b)
    }

    /** Waiting nodes of a branch are settled from the top down. */
    ghost predicate InOrder(rows: Rows) {
      forall s, t | Watched(s) && Watched(t) && Earlier(s, t) && Done(rows, t) :: Done(rows, s)
    }

    ghost predicate CanStep(rows: Rows, e: Event) {
      Watched(e.at) && match e
        case Write(s, statuses) =>
          && !Done(rows, s) && |statuses| > 0
          && (Settled(statuses) ==> forall t | Watched(t) && Earlier(t, s) :: Done(rows, t))
        case Decide(_) => true
    }

    ghost function Apply(rows: Rows, e: Event): Rows
      requires Watched(e.at)
    {
      match e
      case Write(s, statuses) => rows[NodeOf(s) := statuses]
      case Decide(_) => rows
    }

    /** At the start the gateway has opened the branches it takes and nothing is settled. */
    ghost predicate Starts(rows: Rows) {
      Tracks(rows) && forall s | Watched(s) :: !Done(rows, s)
    }

    ghost predicate IsRun(states: seq<Rows>, events: seq<Event>) {
      && |states| == |events| + 1 && Starts(states[0])
      && forall k | 0 <= k < |events| :: CanStep(states[k], events[k]) && states[k + 1] == Apply(states[k], events[k])
    }

    /** Deciding for the node restarts the branches, whatever order the searches take. */
    ghost predicate Restores(rows: Rows, s: Spot)
      requires Watched(s)
    {
      && (exists out :: Answers(g, rows, NodeOf(s), out))
      && forall out | Answers(g, rows, NodeOf(s), out) :: out.Multi?
    }

    ghost predicate IsSettle(e: Event) {
      e.Write? && Settled(e.statuses)
    }

    ghost predicate RestoresAt(states: seq<Rows>, events: seq<Event>, m: int) {
      && 0 <= m < |events| < |states| && events[m].Decide? && Watched(events[m].at)
      && Restores(states[m], events[m].at)
    }

    ghost predicate LastOnBranch(s: Spot) {
      Watched(s) && forall t | Watched(t) :: !Earlier(s, t)
    }
  }

  predicate Earlier(s: Spot, t: Spot) {
    s.branch == t.branch && s.index < t.index
  }

  // ---- What a decision answers ----

  /** The last kept member is the one with no kept member behind it. */
  lemma KeepLast(c: seq<Id>, j: int, good: set<Id>)
    requires 0 <= j < |c| && c[j] in good && forall k | j < k < |c| :: c[k] !in good
    ensures Keep(c, good) != [] && Keep(c, good)[|Keep(c, good)| - 1] == c[j]
  {
    assert c == c[..j] + ([c[j]] + c[j + 1..]);
    KeepSplit(c[..j], [c[j]] + c[j + 1..], good);
    KeepCons(c[j], c[j + 1..], good);
    KeepMembers(c[j + 1..], good);
    if Keep(c[j + 1..], good) != [] { HasMember(Keep(c[j + 1..], good)); assert false; }
  }

  /** A waiting node ends its branch when no waiting node lies below it. */
  lemma FlatEnds(f: Flow, s: Spot)
    requires f.Valid() && f.Watched(s)
    ensures EndsItsBranch(f.g, f.NodeOf(s), NodeAt(f.l, s.branch, 0)) <==> f.LastOnBranch(s)
  {
    FlatSuspends(f.g, f.l, s.branch);
    FlatApart(f);
    LastKept(f, s);
  }

  lemma LastKept(f: Flow, s: Spot)
    requires f.Apart() && f.Watched(s)
    ensures var own := Keep(f.l.branches[s.branch], Suspends(f.g));
            own != [] && (f.NodeOf(s) == own[|own| - 1] <==> f.LastOnBranch(s))
  {
    var last := LastWatched(f, s);
    KeepLast(f.l.branches[s.branch], last.index, Suspends(f.g));
    if last != s { assert Earlier(s, last); }
  }

  lemma LastWatched(f: Flow, s: Spot) returns (last: Spot)
    requires f.Watched(s)
    ensures f.LastOnBranch(last) && (last == s || Earlier(s, last))
    ensures forall k | last.index < k < |f.l.branches[s.branch]| :: f.l.branches[s.branch][k] !in Suspends(f.g)
  {
    var c, good := f.l.branches[s.branch], Suspends(f.g);
    var j := LastIn(c, good, s.index);
    last := Spot(s.branch, j);
    forall t | f.Watched(t) ensures !Earlier(last, t) {
      if t.branch == s.branch { assert f.NodeOf(t) == c[t.index] && c[t.index] in good; }
    }
  }

  lemma {:induction false} LastIn(c: seq<Id>, good: set<Id>, i: int) returns (j: int)
    requires 0 <= i < |c| && c[i] in good
    ensures i <= j < |c| && c[j] in good && forall k | j < k < |c| :: c[k] !in good
    decreases |c| - i
  {
    if k :| i < k < |c| && c[k] in good { j := LastIn(c, good, k); } else { j := i; }
  }

  /** The activated branches are the ones the gateway took, and their waiting nodes the watched ones. */
  lemma FlatLive(f: Flow, rows: Rows, r: Id)
    requires f.Valid() && f.Tracks(rows)
    ensures IsLive(f.g, rows, f.l.fork, r) <==> exists b :: b in f.taken && At(f.l, b, 0) && NodeAt(f.l, b, 0) == r
  {
    if r in ChildrenOf(f.g, f.l.fork) {
      var b :| At(f.l, b, 0) && NodeAt(f.l, b, 0) == r;
      FlatSuspends(f.g, f.l, b);
      assert BranchHasTask(f.g, rows, r) <==> f.SomeRow(rows, b) by {
        if j :| At(f.l, b, j) && HasRows(rows, NodeAt(f.l, b, j)) { assert NodeAt(f.l, b, j) in f.l.branches[b]; }
        if n :| Reach(Down(f.g), r, n) && HasRows(rows, n) {
          var j :| 0 <= j < |f.l.branches[b]| && f.l.branches[b][j] == n;
          assert At(f.l, b, j) && NodeAt(f.l, b, j) == n;
        }
      }
    }
  }

  lemma WatchedLive(f: Flow, rows: Rows, s: Spot)
    requires f.Valid() && f.Tracks(rows) && f.Watched(s)
    ensures IsLive(f.g, rows, f.l.fork, NodeAt(f.l, s.branch, 0)) && OnBranch(f.g, NodeAt(f.l, s.branch, 0), f.NodeOf(s))
  {
    FlatLive(f, rows, NodeAt(f.l, s.branch, 0));
    FlatSuspends(f.g, f.l, s.branch);
  }

  lemma SpotOf(f: Flow, b: int, n: Id) returns (s: Spot)
    requires At(f.l, b, 0) && n in f.l.branches[b]
    ensures s.branch == b && f.Spotted(s) && f.NodeOf(s) == n
  {
    var j :| 0 <= j < |f.l.branches[b]| && f.l.branches[b][j] == n;
    s := Spot(b, j);
  }

  lemma LiveWatched(f: Flow, rows: Rows, r: Id, n: Id) returns (s: Spot)
    requires f.Valid() && f.Tracks(rows) && IsLive(f.g, rows, f.l.fork, r) && OnBranch(f.g, r, n)
    ensures f.Watched(s) && f.NodeOf(s) == n
  {
    FlatLive(f, rows, r);
    var b :| b in f.taken && At(f.l, b, 0) && NodeAt(f.l, b, 0) == r;
    FlatSuspends(f.g, f.l, b);
    s := SpotOf(f, b, n);
  }

  lemma FlatAllSettled(f: Flow, rows: Rows)
    requires f.Valid() && f.Tracks(rows)
    ensures AllSettled(f.g, rows, f.l.fork) <==> f.AllDone(rows)
    ensures SomeWaits(f.g, rows, f.l.fork)
  {
    forall s | f.Watched(s)
      ensures SomeWaits(f.g, rows, f.l.fork) && (AllSettled(f.g, rows, f.l.fork) ==> f.Done(rows, s))
    {
      WatchedLive(f, rows, s);
    }
    forall r, n | IsLive(f.g, rows, f.l.fork, r) && OnBranch(f.g, r, n) ensures f.AllDone(rows) ==> NodeSettled(rows, n) {
      var s := LiveWatched(f, rows, r, n);
      assert f.AllDone(rows) ==> f.Done(rows, s);
    }
  }

  lemma FlatApart(f: Flow)
    requires f.Valid()
    ensures f.Apart()
  {
    forall s, t | f.Spotted(s) && f.Spotted(t) && f.NodeOf(s) == f.NodeOf(t) ensures s == t {
      assert NodeAt(f.l, s.branch, s.index) == NodeAt(f.l, t.branch, t.index);
    }
  }

  /**
   A decision for a waiting node restarts the branches exactly when the node is the last waiting one of its
   branch and every waiting node of every branch taken is settled.
   */
  lemma DecideExact(f: Flow, rows: Rows, s: Spot)
    requires f.Valid() && f.Tracks(rows) && f.Watched(s)
    ensures f.Restores(rows, s) <==> f.LastOnBranch(s) && f.AllDone(rows)
  {
    var n, head := f.NodeOf(s), NodeAt(f.l, s.branch, 0);
    FlatEnds(f, s);
    FlatAllSettled(f, rows);
    MultiExact(f.g, rows, n, f.l.fork, head);
    OnlyAnswer(f, rows, s);
  }

  lemma OnlyAnswer(f: Flow, rows: Rows, s: Spot)
    requires f.Valid() && f.Watched(s)
    ensures f.Restores(rows, s) <==> Decision(f.g, rows, f.NodeOf(s), f.l.fork, NodeAt(f.l, s.branch, 0)).Multi?
  {
    var n := f.NodeOf(s);
    forall o { FlatAnswer(f.g, f.l, rows, s.branch, s.index, o); }
    assert Answers(f.g, rows, n, Decision(f.g, rows, n, f.l.fork, NodeAt(f.l, s.branch, 0)));
  }

  // ---- What every step keeps ----

  lemma StepKeeps(f: Flow, rows: Rows, e: Event)
    requires f.Apart() && f.Tracks(rows) && f.InOrder(rows) && f.CanStep(rows, e)
    ensures f.Tracks(f.Apply(rows, e)) && f.InOrder(f.Apply(rows, e))
    ensures forall s | f.Watched(s) :: f.Done(f.Apply(rows, e), s) <==> f.Done(rows, s) || (f.IsSettle(e) && s == e.at)
  {
    var next := f.Apply(rows, e);
    if e.Write? {
      forall s | f.Watched(s) ensures f.Done(next, s) <==> f.Done(rows, s) || (f.IsSettle(e) && s == e.at) {
        if s != e.at { assert f.NodeOf(s) != f.NodeOf(e.at); }
      }
      TracksWrite(f, rows, e);
    }
  }

  lemma TracksWrite(f: Flow, rows: Rows, e: Event)
    requires f.Apart() && f.Tracks(rows) && f.CanStep(rows, e) && e.Write?
    ensures f.Tracks(f.Apply(rows, e))
  {
    var next := f.Apply(rows, e);
    if TypeOf(f.g, f.l.fork) == Inclusive {
      forall b | 0 <= b < |f.l.branches| ensures b in f.taken <==> f.SomeRow(next, b) {
        if b == e.at.branch {
          assert HasRows(next, NodeAt(f.l, b, e.at.index));
        } else {
          forall j | At(f.l, b, j) ensures HasRows(rows, NodeAt(f.l, b, j)) <==> HasRows(next, NodeAt(f.l, b, j)) {
            assert f.Spotted(Spot(b, j)) && f.NodeOf(Spot(b, j)) != f.NodeOf(e.at);
          }
        }
      }
    }
  }

  lemma {:induction false} RunKeeps(f: Flow, states: seq<Rows>, events: seq<Event>, k: nat)
    requires f.Apart() && f.IsRun(states, events) && k < |states|
    ensures f.Tracks(states[k]) && f.InOrder(states[k])
  {
    if k > 0 {
      RunKeeps(f, states, events, k - 1);
      StepKeeps(f, states[k - 1], events[k - 1]);
      assert states[k - 1 + 1] == f.Apply(states[k - 1], events[k - 1]);
    }
  }

  /** One step of a run: what it settles. */
  lemma StepAt(f: Flow, states: seq<Rows>, events: seq<Event>, k: nat)
    requires f.Apart() && f.IsRun(states, events) && k < |events|
    ensures f.InOrder(states[k]) && f.CanStep(states[k], events[k])
    ensures forall s | f.Watched(s) ::
              f.Done(states[k + 1], s) <==> f.Done(states[k], s) || (f.IsSettle(events[k]) && s == events[k].at)
  {
    RunKeeps(f, states, events, k);
    StepKeeps(f, states[k], events[k]);
    assert states[k + 1] == f.Apply(states[k], events[k]);
  }

  lemma {:induction false} DoneStays(f: Flow, states: seq<Rows>, events: seq<Event>, k: nat, m: nat)
    requires f.Apart() && f.IsRun(states, events) && k <= m < |states| && f.AllDone(states[k])
    ensures f.AllDone(states[m])
    decreases m
  {
    if k < m {
      DoneStays(f, states, events, k, m - 1);
      StepAt(f, states, events, m - 1);
    }
  }

  // ---- The wake-up ----

  /** The step that settles the last waiting node. */
  lemma {:induction false} LastSettle(f: Flow, states: seq<Rows>, events: seq<Event>, m: nat) returns (k: nat)
    requires f.Apart() && f.IsRun(states, events) && m < |states| && f.AllDone(states[m])
    ensures k < m && !f.AllDone(states[k]) && f.AllDone(states[k + 1])
    ensures f.IsSettle(events[k]) && f.LastOnBranch(events[k].at)
    decreases m
  {
    assert m > 0 by { var s :| f.Watched(s); assert f.Done(states[m], s) && !f.Done(states[0], s); }
    if f.AllDone(states[m - 1]) {
      k := LastSettle(f, states, events, m - 1);
    } else {
      k := m - 1;
      StepAt(f, states, events, k);
    }
  }

  /** Every settle of a waiting node is followed, at some later point, by a decision for that node. */
  ghost predicate Followed(f: Flow, events: seq<Event>) {
    forall k | 0 <= k < |events| && f.IsSettle(events[k]) :: exists m :: k < m < |events| && events[m] == Decide(events[k].at)
  }

  /** Every decision directly follows the settle it belongs to. */
  ghost predicate Prompt(f: Flow, events: seq<Event>) {
    forall m | 0 <= m < |events| && events[m].Decide? :: m > 0 && f.IsSettle(events[m - 1]) && events[m - 1].at == events[m].at
  }

  /**
   In every run, the decisions that restart the branches are exactly those for the end of a branch taken after
   the step that settles the last waiting node: two that come after it both restart.
   */
  lemma RestoreWindow(f: Flow, states: seq<Rows>, events: seq<Event>) returns (k: nat)
    requires f.Valid() && f.IsRun(states, events) && f.AllDone(states[|events|])
    ensures k < |events| && f.IsSettle(events[k])
    ensures forall m :: f.RestoresAt(states, events, m) <==>
                          k < m < |events| && events[m].Decide? && f.LastOnBranch(events[m].at)
  {
    FlatApart(f);
    k := LastSettle(f, states, events, |events|);
    forall m | 0 <= m < |events| && events[m].Decide?
      ensures f.RestoresAt(states, events, m) <==> k < m && f.LastOnBranch(events[m].at)
    {
      RunKeeps(f, states, events, m);
      StepAt(f, states, events, m);
      DecideExact(f, states[m], events[m].at);
      if k < m { DoneStays(f, states, events, k + 1, m); }
      else if f.AllDone(states[m]) { DoneStays(f, states, events, m, k); }
    }
  }

  /** No run loses its wake-up: when all branches end up settled, some decision restarts them. */
  lemma NoLostWakeUp(f: Flow, states: seq<Rows>, events: seq<Event>)
    requires f.Valid() && f.IsRun(states, events) && f.AllDone(states[|events|]) && Followed(f, events)
    ensures exists m :: f.RestoresAt(states, events, m)
  {
    FlatApart(f);
    var k := LastSettle(f, states, events, |events|);
    var m :| k < m < |events| && events[m] == Decide(events[k].at);
    DoneStays(f, states, events, k + 1, m);
    RunKeeps(f, states, events, m);
    DecideExact(f, states[m], events[m].at);
    assert f.RestoresAt(states, events, m);
  }

  /** When each decision directly follows its settle, the branches are restarted once and only once. */
  lemma OneWakeUp(f: Flow, states: seq<Rows>, events: seq<Event>)
    requires f.Valid() && f.IsRun(states, events) && f.AllDone(states[|events|]) && Followed(f, events) && Prompt(f, events)
    ensures exists m :: f.RestoresAt(states, events, m) && forall n | f.RestoresAt(states, events, n) :: n == m
  {
    NoLostWakeUp(f, states, events);
    var m :| f.RestoresAt(states, events, m);
    forall n | f.RestoresAt(states, events, n) ensures n == m {
      if m != n { NotTwice(f, states, events, if m < n then m else n, if m < n then n else m); }
    }
  }

  /** A restart finds all settled, so the settle before a later decision has nothing left to settle. */
  lemma NotTwice(f: Flow, states: seq<Rows>, events: seq<Event>, m: int, n: int)
    requires f.Valid() && f.IsRun(states, events) && Prompt(f, events) && 0 <= m < n < |events|
    requires f.RestoresAt(states, events, m)
    ensures !f.RestoresAt(states, events, n)
  {
    FlatApart(f);
    RunKeeps(f, states, events, m);
    DecideExact(f, states[m], events[m].at);
    DoneStays(f, states, events, m, n - 1);
    assert f.CanStep(states[n - 1], events[n - 1]);
  }
}
