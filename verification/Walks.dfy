/**
 Directed graphs as adjacency lists, walks, and the breadth-first search every traversal of the engine
 repeats. `Bfs` gives the exact visiting order of the source loops; the lemmas say what that order means
 in terms of walks and hop distance.
 */
module Walks {
  import opened Text

  type Adj = map<Id, seq<Id>>

  function Succ(adj: Adj, n: Id): seq<Id> {
    if n in adj then adj[n] else []
  }

  ghost predicate IsWalk(adj: Adj, p: seq<Id>) {
    |p| > 0 && forall i | 0 <= i < |p| - 1 :: p[i + 1] in Succ(adj, p[i])
  }

  ghost predicate WalkFromTo(adj: Adj, p: seq<Id>, a: Id, b: Id) {
    IsWalk(adj, p) && p[0] == a && p[|p| - 1] == b
  }

  /** Some walk leads from a to b. Every node reaches itself by the walk without edges. */
  ghost predicate Reach(adj: Adj, a: Id, b: Id) {
    exists p :: WalkFromTo(adj, p, a, b)
  }

  ghost predicate NoDup<T>(s: seq<T>) {
    forall i, j | 0 <= i < j < |s| :: s[i] != s[j]
  }

  function Elems<T>(s: seq<T>): set<T> {
    set x | x in s
  }

  /** The members of s that belong to `good`, in their order. */
  function Keep(s: seq<Id>, good: set<Id>): seq<Id> {
    if s == [] then [] else (if s[0] in good then [s[0]] else []) + Keep(s[1..], good)
  }

  lemma {:induction false} KeepMembers(s: seq<Id>, good: set<Id>)
    ensures forall x :: x in Keep(s, good) <==> x in s && x in good
  {
    if s != [] {
      KeepMembers(s[1..], good);
      assert forall x :: x in s <==> x == s[0] || x in s[1..];
    }
  }

  /** The first member of s in `good`, or `NO_ID` when there is none. */
  function First(s: seq<Id>, good: set<Id>): Id {
    if s == [] then NO_ID else if s[0] in good then s[0] else First(s[1..], good)
  }

  lemma KeepCons(x: Id, s: seq<Id>, good: set<Id>)
    ensures Keep([x] + s, good) == (if x in good then [x] else []) + Keep(s, good)
    ensures First([x] + s, good) == if x in good then x else First(s, good)
  {
    assert ([x] + s)[1..] == s;
  }

  /** `Keep` with the members found so far as an accumulator. */
  function KeepOnto(kept: seq<Id>, s: seq<Id>, good: set<Id>): seq<Id>
    decreases |s|
  {
    if s == [] then kept else KeepOnto(if s[0] in good then kept + [s[0]] else kept, s[1..], good)
  }

  lemma {:induction false} KeepOntoIsKeep(kept: seq<Id>, s: seq<Id>, good: set<Id>)
    ensures KeepOnto(kept, s, good) == kept + Keep(s, good)
    decreases |s|
  {
    if s != [] {
      KeepOntoIsKeep(if s[0] in good then kept + [s[0]] else kept, s[1..], good);
    }
  }

  lemma KeepOntoCons(kept: seq<Id>, x: Id, s: seq<Id>, good: set<Id>)
    ensures KeepOnto(kept, [x] + s, good) == KeepOnto(if x in good then kept + [x] else kept, s, good)
  {
    assert ([x] + s)[1..] == s;
  }

  // ---- Walk algebra ----

  lemma ReachRefl(adj: Adj, a: Id)
    ensures Reach(adj, a, a)
  {
    assert WalkFromTo(adj, [a], a, a);
  }

  lemma WalkSnoc(adj: Adj, p: seq<Id>, a: Id, b: Id, c: Id)
    requires WalkFromTo(adj, p, a, b) && c in Succ(adj, b)
    ensures WalkFromTo(adj, p + [c], a, c)
  {
  }

  lemma ReachStep(adj: Adj, a: Id, b: Id, c: Id)
    requires Reach(adj, a, b) && c in Succ(adj, b)
    ensures Reach(adj, a, c)
  {
    var p :| WalkFromTo(adj, p, a, b);
    WalkSnoc(adj, p, a, b, c);
  }

  /** A set that holds the start and is closed under successors holds everything reachable. */
  lemma {:induction false} ClosedHoldsReachable(adj: Adj, s: set<Id>, p: seq<Id>, a: Id, b: Id)
    requires a in s && forall x, y | x in s && y in Succ(adj, x) :: y in s
    requires WalkFromTo(adj, p, a, b)
    ensures b in s
    decreases |p|
  {
    if |p| > 1 {
      assert WalkFromTo(adj, p[1..], p[1], b);
      ClosedHoldsReachable(adj, s, p[1..], p[1], b);
    }
  }

  ghost predicate Converse(fwd: Adj, bwd: Adj) {
    forall x, y :: y in Succ(fwd, x) <==> x in Succ(bwd, y)
  }

  /** Following backward edges from b finds a exactly when forward edges lead from a to b. */
  lemma ConverseReach(fwd: Adj, bwd: Adj, a: Id, b: Id)
    requires Converse(fwd, bwd)
    ensures Reach(bwd, b, a) <==> Reach(fwd, a, b)
  {
    if Reach(bwd, b, a) {
      var p :| WalkFromTo(bwd, p, b, a);
      ReverseWalk(bwd, fwd, p, b, a);
    }
    if Reach(fwd, a, b) {
      var p :| WalkFromTo(fwd, p, a, b);
      ReverseWalk(fwd, bwd, p, a, b);
    }
  }

  lemma ReverseWalk(adj: Adj, rev: Adj, p: seq<Id>, a: Id, b: Id)
    requires Converse(adj, rev) && WalkFromTo(adj, p, a, b)
    ensures Reach(rev, b, a)
  {
    var q := seq(|p|, i requires 0 <= i < |p| => p[|p| - 1 - i]);
    forall i | 0 <= i < |q| - 1 ensures q[i + 1] in Succ(rev, q[i]) {
      var k := |p| - 2 - i;
      assert p[k + 1] in Succ(adj, p[k]);
    }
    assert WalkFromTo(rev, q, b, a);
  }

  // ---- Breadth-first search ----

  /** The members of `next` not visited yet, first occurrences only: what one inner loop enqueues. */
  function Unseen(next: seq<Id>, visited: set<Id>): (added: seq<Id>)
    ensures forall x :: x in added <==> x in next && x !in visited
    ensures NoDup(added)
  {
    if next == [] then []
    else if next[0] in visited then Unseen(next[1..], visited)
    else [next[0]] + Unseen(next[1..], visited + {next[0]})
  }

  ghost function Targets(adj: Adj): set<Id> {
    set k, x | k in adj && x in adj[k] :: x
  }

  lemma UnseenShrinks(adj: Adj, n: Id, visited: set<Id>)
    ensures var added := Unseen(Succ(adj, n), visited);
            added == [] || |Targets(adj) - (visited + Elems(added))| < |Targets(adj) - visited|
    ensures Unseen(Succ(adj, n), visited) == [] ==>
              visited + Elems(Unseen(Succ(adj, n), visited)) == visited
  {
    var added := Unseen(Succ(adj, n), visited);
    if added != [] {
      assert added[0] in Succ(adj, n) && added[0] !in visited;
      assert added[0] in Targets(adj) - visited && added[0] in Elems(added);
      SmallerSet(Targets(adj) - (visited + Elems(added)), Targets(adj) - visited, added[0]);
    }
  }

  lemma {:induction false} SmallerSet<T>(a: set<T>, b: set<T>, x: T)
    requires a <= b && x in b && x !in a
    ensures |a| < |b|
  {
    SubsetSize(a, b - {x});
  }

  lemma {:induction false} SubsetSize<T>(a: set<T>, b: set<T>)
    requires a <= b
    ensures |a| <= |b|
    decreases |a|
  {
    if a != {} {
      var x :| x in a;
      SubsetSize(a - {x}, b - {x});
    }
  }

  /** Enqueuing the successors in any order makes progress: a new node is marked or the queue gets shorter. */
  lemma PushShrinks(adj: Adj, queue: seq<Id>, next: seq<Id>, visited: set<Id>)
    requires queue != [] && forall x :: x in next <==> x in Succ(adj, queue[0])
    ensures var visited' := visited + Elems(Unseen(next, visited));
            |Targets(adj) - visited'| < |Targets(adj) - visited|
            || (visited' == visited && Unseen(next, visited) == [])
  {
    var added := Unseen(next, visited);
    if added == [] {
      assert Elems(added) == {};
    } else {
      assert added[0] in next && added[0] in Succ(adj, queue[0]);
      assert added[0] in Targets(adj) - visited && added[0] in Elems(added);
      SmallerSet(Targets(adj) - (visited + Elems(added)), Targets(adj) - visited, added[0]);
    }
  }

  /** The nodes dequeued from now on, in order, by `for len(queue) > 0 { ... }`. */
  ghost function Bfs(adj: Adj, queue: seq<Id>, visited: set<Id>): seq<Id>
    decreases |Targets(adj) - visited|, |queue|
  {
    if queue == [] then [] else
      var added := Unseen(Succ(adj, queue[0]), visited);
      UnseenShrinks(adj, queue[0], visited);
      [queue[0]] + Bfs(adj, queue[1..] + added, visited + Elems(added))
  }

  ghost function BfsOrder(adj: Adj, root: Id): seq<Id> {
    Bfs(adj, [root], {root})
  }

  /** One inner loop: enqueue the unvisited members of `next` and mark them. */
  method PushUnseen(next: seq<Id>, visited: set<Id>, queue: seq<Id>) returns (visited': set<Id>, queue': seq<Id>)
    ensures queue' == queue + Unseen(next, visited)
    ensures visited' == visited + Elems(Unseen(next, visited))
  {
    visited', queue' := visited, queue;
    for i := 0 to |next|
      invariant queue' + Unseen(next[i..], visited') == queue + Unseen(next, visited)
      invariant visited' + Elems(Unseen(next[i..], visited')) == visited + Elems(Unseen(next, visited))
    {
      assert next[i..][1..] == next[i + 1..];
      if next[i] !in visited' {
        visited', queue' := visited' + {next[i]}, queue' + [next[i]];
      }
    }
  }

  lemma QueueSplit(queue: seq<Id>, added: seq<Id>)
    requires queue != []
    ensures Elems(queue) == Elems(queue[1..]) + {queue[0]}
    ensures Elems(queue[1..] + added) == Elems(queue[1..]) + Elems(added)
  {
    assert forall x | x in queue :: x == queue[0] || x in queue[1..];
  }

  /** One dequeue keeps the queue repeat-free and inside the visited set. */
  lemma QueueStep(adj: Adj, queue: seq<Id>, visited: set<Id>)
    requires queue != [] && NoDup(queue) && Elems(queue) <= visited
    ensures var added := Unseen(Succ(adj, queue[0]), visited);
            && NoDup(queue[1..] + added)
            && Elems(queue[1..] + added) == Elems(queue) - {queue[0]} + Elems(added)
            && Elems(queue[1..] + added) <= visited + Elems(added)
            && Elems(added) == Elems(Succ(adj, queue[0])) - visited
  {
    var added := Unseen(Succ(adj, queue[0]), visited);
    assert forall x | x in queue[1..] :: x in queue && x in Elems(queue);
    assert forall x | x in queue :: x == queue[0] || x in queue[1..];
    assert queue[0] !in queue[1..];
    var q := queue[1..] + added;
    forall i, j | 0 <= i < j < |q| ensures q[i] != q[j] {
      if i < |queue| - 1 {
        assert q[i] == queue[i + 1] && q[i] in visited;
        if j >= |queue| - 1 { assert q[j] in added; } else { assert q[j] == queue[j + 1]; }
      } else {
        assert q[i] == added[i - (|queue| - 1)] && q[j] == added[j - (|queue| - 1)];
      }
    }
    assert Elems(q) == Elems(queue[1..]) + Elems(added);
    assert Elems(queue[1..]) == Elems(queue) - {queue[0]};
  }

  lemma NoDupCons<T>(x: T, s: seq<T>)
    requires NoDup(s) && x !in s
    ensures NoDup([x] + s)
  {
    var t := [x] + s;
    forall i, j | 0 <= i < j < |t| ensures t[i] != t[j] {
      assert t[j] == s[j - 1];
      if i > 0 { assert t[i] == s[i - 1]; }
    }
  }

  /** The search as a step: what is dequeued now, and the arguments it goes on with. */
  lemma BfsUnfold(adj: Adj, queue: seq<Id>, visited: set<Id>) returns (added: seq<Id>, queue': seq<Id>, visited': set<Id>)
    requires queue != [] && NoDup(queue) && Elems(queue) <= visited
    ensures added == Unseen(Succ(adj, queue[0]), visited) && queue' == queue[1..] + added && visited' == visited + Elems(added)
    ensures Bfs(adj, queue, visited) == [queue[0]] + Bfs(adj, queue', visited')
    ensures NoDup(queue') && Elems(queue') <= visited'
    ensures Elems(queue') == Elems(queue) - {queue[0]} + Elems(added)
    ensures Elems(added) == Elems(Succ(adj, queue[0])) - visited
    ensures queue[0] in visited
    ensures |Targets(adj) - visited'| <= |Targets(adj) - visited|
    ensures |Targets(adj) - visited'| < |Targets(adj) - visited| || |queue'| < |queue|
  {
    added := Unseen(Succ(adj, queue[0]), visited);
    UnseenShrinks(adj, queue[0], visited);
    QueueStep(adj, queue, visited);
    queue', visited' := queue[1..] + added, visited + Elems(added);
    assert queue[0] in Elems(queue);
  }

  /** One turn of a search loop: drop the head of the queue and enqueue its unvisited successors. */
  method Expand(ghost adj: Adj, next: seq<Id>, visited: set<Id>, queue: seq<Id>) returns (visited': set<Id>, queue': seq<Id>)
    requires queue != [] && next == Succ(adj, queue[0])
    ensures Bfs(adj, queue, visited) == [queue[0]] + Bfs(adj, queue', visited')
    ensures |Targets(adj) - visited'| < |Targets(adj) - visited|
            || (|Targets(adj) - visited'| == |Targets(adj) - visited| && |queue'| < |queue|)
  {
    UnseenShrinks(adj, queue[0], visited);
    visited', queue' := PushUnseen(next, visited, queue[1..]);
  }

  /** Every marked node is queued or done, and the successors of the done ones are marked. */
  ghost predicate Explored(adj: Adj, done: set<Id>, queue: seq<Id>, visited: set<Id>) {
    && Elems(queue) <= visited <= done + Elems(queue)
    && forall x, y | x in done && y in Succ(adj, x) :: y in visited
  }

  /** One turn of a search that ranges over a Go map: the successors come in any order. */
  method ExpandAny(ghost adj: Adj, ghost done: set<Id>, next: seq<Id>, visited: set<Id>, queue: seq<Id>)
    returns (visited': set<Id>, queue': seq<Id>)
    requires queue != [] && Explored(adj, done, queue, visited)
    requires forall x :: x in next <==> x in Succ(adj, queue[0])
    ensures Explored(adj, done + {queue[0]}, queue', visited')
    ensures queue' == queue[1..] + Unseen(next, visited) && visited' == visited + Elems(next)
    ensures |Targets(adj) - visited'| < |Targets(adj) - visited|
            || (|Targets(adj) - visited'| == |Targets(adj) - visited| && |queue'| < |queue|)
  {
    PushShrinks(adj, queue, next, visited);
    visited', queue' := PushUnseen(next, visited, queue[1..]);
    QueueSplit(queue, Unseen(next, visited));
    assert Elems(Unseen(next, visited)) == Elems(next) - visited;
  }

  lemma ExploredAll(adj: Adj, done: set<Id>, visited: set<Id>, start: Id)
    requires Explored(adj, done, [], visited) && start in visited
    ensures Region(adj, start) <= visited <= done
  {
    assert Elems<Id>([]) == {};
    RegionMeaning(adj, start);
    forall x | Reach(adj, start, x) ensures x in visited {
      var p :| WalkFromTo(adj, p, start, x);
      ClosedHoldsReachable(adj, visited, p, start, x);
    }
  }

  lemma {:induction false} BfsMembers(adj: Adj, queue: seq<Id>, visited: set<Id>)
    requires NoDup(queue) && Elems(queue) <= visited
    ensures NoDup(Bfs(adj, queue, visited))
    ensures Elems(queue) <= Elems(Bfs(adj, queue, visited))
    ensures Elems(Bfs(adj, queue, visited)) * visited <= Elems(queue)
    decreases |Targets(adj) - visited|, |queue|
  {
    if queue != [] {
      var added, queue', visited' := BfsUnfold(adj, queue, visited);
      BfsMembers(adj, queue', visited');
      MembersCons(queue[0], Bfs(adj, queue', visited'), Elems(queue), visited, Elems(added));
    }
  }

  lemma MembersCons(cur: Id, rest: seq<Id>, queue: set<Id>, visited: set<Id>, added: set<Id>)
    requires cur in queue && queue <= visited && added !! visited
    requires NoDup(rest) && queue - {cur} + added <= Elems(rest)
    requires Elems(rest) * (visited + added) <= queue - {cur} + added
    ensures var out := [cur] + rest;
            NoDup(out) && queue <= Elems(out) && Elems(out) * visited <= queue
  {
    assert cur !in Elems(rest);
    NoDupCons(cur, rest);
    assert Elems([cur] + rest) == {cur} + Elems(rest);
  }

  lemma {:induction false} BfsClosed(adj: Adj, queue: seq<Id>, visited: set<Id>)
    requires NoDup(queue) && Elems(queue) <= visited
    ensures forall x, y | x in Bfs(adj, queue, visited) && y in Succ(adj, x) :: y in visited + Elems(Bfs(adj, queue, visited))
    decreases |Targets(adj) - visited|, |queue|
  {
    if queue != [] {
      var added, queue', visited' := BfsUnfold(adj, queue, visited);
      BfsClosed(adj, queue', visited');
      BfsMembers(adj, queue', visited');
      var rest := Bfs(adj, queue', visited');
      var out := [queue[0]] + rest;
      assert visited' + Elems(rest) <= visited + Elems(out);
      forall x, y | x in out && y in Succ(adj, x) ensures y in visited + Elems(out) {
        if x == queue[0] { assert y in visited || y in Elems(added); }
      }
    }
  }

  lemma {:induction false} BfsReachable(adj: Adj, queue: seq<Id>, visited: set<Id>, root: Id)
    requires forall x | x in queue :: Reach(adj, root, x)
    ensures forall x | x in Bfs(adj, queue, visited) :: Reach(adj, root, x)
    decreases |Targets(adj) - visited|, |queue|
  {
    if queue != [] {
      var added := Unseen(Succ(adj, queue[0]), visited);
      UnseenShrinks(adj, queue[0], visited);
      assert queue[0] in queue;
      forall x | x in queue[1..] + added ensures Reach(adj, root, x) {
        if x in added { ReachStep(adj, root, queue[0], x); } else { assert x in queue; }
      }
      BfsReachable(adj, queue[1..] + added, visited + Elems(added), root);
    }
  }

  /** A search from root dequeues exactly the reachable nodes, each once, root first. */
  lemma BfsOrderMeaning(adj: Adj, root: Id)
    ensures NoDup(BfsOrder(adj, root))
    ensures BfsOrder(adj, root) != [] && BfsOrder(adj, root)[0] == root
    ensures forall x :: x in BfsOrder(adj, root) <==> Reach(adj, root, x)
  {
    var out := BfsOrder(adj, root);
    BfsMembers(adj, [root], {root});
    BfsClosed(adj, [root], {root});
    ReachRefl(adj, root);
    BfsReachable(adj, [root], {root}, root);
    assert [root][0] in Elems([root]);
    forall x, y | x in Elems(out) && y in Succ(adj, x) ensures y in Elems(out) { assert y in {root} + Elems(out); }
    forall x | Reach(adj, root, x) ensures x in out {
      var p :| WalkFromTo(adj, p, root, x);
      ClosedHoldsReachable(adj, Elems(out), p, root, x);
    }
  }

  /** Everything reachable from root, as a set. */
  ghost function Region(adj: Adj, root: Id): set<Id> {
    Elems(BfsOrder(adj, root))
  }

  lemma RegionMeaning(adj: Adj, root: Id)
    ensures forall x :: x in Region(adj, root) <==> Reach(adj, root, x)
  {
    BfsOrderMeaning(adj, root);
  }

  lemma RegionClosed(adj: Adj, root: Id)
    ensures root in Region(adj, root)
    ensures forall x, y | x in Region(adj, root) && y in Succ(adj, x) :: y in Region(adj, root)
  {
    BfsOrderMeaning(adj, root);
    ReachRefl(adj, root);
    forall x, y | x in Region(adj, root) && y in Succ(adj, x) ensures y in Region(adj, root) {
      ReachStep(adj, root, x, y);
    }
  }

  // ---- Hop distance ----

  ghost function AllSucc(adj: Adj, s: set<Id>): set<Id> {
    set x, y | x in s && y in Succ(adj, x) :: y
  }

  /** The nodes at most k edges away from root. */
  ghost function Within(adj: Adj, root: Id, k: nat): set<Id> {
    if k == 0 then {root} else Within(adj, root, k - 1) + AllSucc(adj, Within(adj, root, k - 1))
  }

  /** `Within` counts the edges of walks. */
  lemma {:induction false} WithinHasWalk(adj: Adj, root: Id, k: nat, n: Id) returns (p: seq<Id>)
    requires n in Within(adj, root, k)
    ensures WalkFromTo(adj, p, root, n) && |p| <= k + 1
  {
    if k == 0 {
      p := [root];
    } else if n in Within(adj, root, k - 1) {
      p := WithinHasWalk(adj, root, k - 1, n);
    } else {
      var x :| x in Within(adj, root, k - 1) && n in Succ(adj, x);
      p := WithinHasWalk(adj, root, k - 1, x);
      WalkSnoc(adj, p, root, x, n);
      p := p + [n];
    }
  }

  lemma {:induction false} WalkIsWithin(adj: Adj, root: Id, k: nat, n: Id, p: seq<Id>)
    requires WalkFromTo(adj, p, root, n) && |p| <= k + 1
    ensures n in Within(adj, root, k)
  {
    if k > 0 && |p| == 1 {
      WalkIsWithin(adj, root, k - 1, n, p);
    } else if k > 0 {
      var q := p[..|p| - 1];
      WalkIsWithin(adj, root, k - 1, q[|q| - 1], q);
      assert p[|p| - 2 + 1] in Succ(adj, p[|p| - 2]);
    }
  }

  ghost predicate AtHop(adj: Adj, root: Id, n: Id, k: nat) {
    n in Within(adj, root, k) && (k == 0 || n !in Within(adj, root, k - 1))
  }

  /** Number of edges of a shortest walk from root to n, for a reachable n. */
  ghost function Hops(adj: Adj, root: Id, n: Id): nat {
    if exists k: nat :: AtHop(adj, root, n, k) then var k: nat :| AtHop(adj, root, n, k); k else 0
  }

  lemma {:induction false} StaysWithin(adj: Adj, root: Id, n: Id, h: nat, k: nat)
    requires h <= k && n in Within(adj, root, h)
    ensures n in Within(adj, root, k)
    decreases k
  {
    if h < k { StaysWithin(adj, root, n, h, k - 1); }
  }

  lemma HopsIs(adj: Adj, root: Id, n: Id, k: nat)
    requires AtHop(adj, root, n, k)
    ensures Hops(adj, root, n) == k
  {
    var h := Hops(adj, root, n);
    if h < k { StaysWithin(adj, root, n, h, k - 1); } else if k < h { StaysWithin(adj, root, n, k, h - 1); }
  }

  lemma {:induction false} HopsWithin(adj: Adj, root: Id, n: Id, k: nat)
    requires n in Within(adj, root, k)
    ensures Hops(adj, root, n) <= k && AtHop(adj, root, n, Hops(adj, root, n))
  {
    if AtHop(adj, root, n, k) { HopsIs(adj, root, n, k); } else { HopsWithin(adj, root, n, k - 1); }
  }

  /** `Hops` is the length of a shortest walk. */
  lemma HopsIsShortest(adj: Adj, root: Id, n: Id)
    requires Reach(adj, root, n)
    ensures exists p :: WalkFromTo(adj, p, root, n) && |p| == Hops(adj, root, n) + 1
    ensures forall p | WalkFromTo(adj, p, root, n) :: Hops(adj, root, n) + 1 <= |p|
  {
    forall p | WalkFromTo(adj, p, root, n) ensures Hops(adj, root, n) + 1 <= |p| {
      WalkIsWithin(adj, root, |p| - 1, n, p);
      HopsWithin(adj, root, n, |p| - 1);
    }
    var p :| WalkFromTo(adj, p, root, n);
    WalkIsWithin(adj, root, |p| - 1, n, p);
    HopsWithin(adj, root, n, |p| - 1);
    var q := WithinHasWalk(adj, root, Hops(adj, root, n), n);
  }

  /** The list is by non-decreasing hop distance. */
  ghost predicate ByHops(adj: Adj, root: Id, s: seq<Id>) {
    forall i, j | 0 <= i < j < |s| :: Hops(adj, root, s[i]) <= Hops(adj, root, s[j])
  }

  /** Shape of the search: `near` is queued at distance d exactly, `far` at distance d + 1. */
  ghost predicate Layered(adj: Adj, root: Id, d: nat, near: set<Id>, far: set<Id>, visited: set<Id>) {
    && visited == Within(adj, root, d) + far
    && near <= Within(adj, root, d)
    && (d == 0 || near !! Within(adj, root, d - 1))
    && far <= Within(adj, root, d + 1)
    && far !! Within(adj, root, d)
    && Within(adj, root, d + 1) <= visited + AllSucc(adj, near)
  }

  lemma LayerHops(adj: Adj, root: Id, d: nat, near: set<Id>, far: set<Id>, visited: set<Id>)
    requires Layered(adj, root, d, near, far, visited)
    ensures forall x | x in near :: Hops(adj, root, x) == d
    ensures forall x | x in far :: Hops(adj, root, x) == d + 1
  {
    forall x | x in near ensures Hops(adj, root, x) == d { HopsIs(adj, root, x, d); }
    forall x | x in far ensures Hops(adj, root, x) == d + 1 { HopsIs(adj, root, x, d + 1); }
  }

  lemma LayerStep(adj: Adj, root: Id, d: nat, cur: Id, near: set<Id>, far: set<Id>, visited: set<Id>)
    requires cur in near && Layered(adj, root, d, near, far, visited)
    ensures var added := Elems(Succ(adj, cur)) - visited;
            Layered(adj, root, d, near - {cur}, far + added, visited + added)
  {
    assert AllSucc(adj, near) == AllSucc(adj, near - {cur}) + Elems(Succ(adj, cur));
    assert Elems(Succ(adj, cur)) <= AllSucc(adj, Within(adj, root, d));
  }

  lemma LayerTurn(adj: Adj, root: Id, d: nat, near: set<Id>, far: set<Id>, visited: set<Id>)
    requires Layered(adj, root, d, near, far, visited) && near == {}
    ensures Layered(adj, root, d + 1, far, {}, visited)
  {
    var inner, all := Within(adj, root, d), Within(adj, root, d + 1);
    assert AllSucc(adj, {}) == {};
    assert all == inner + far;
    assert AllSucc(adj, all) == AllSucc(adj, inner) + AllSucc(adj, far);
  }

  /** Hop distances before and after a dequeue. */
  lemma LayerHopsStep(adj: Adj, root: Id, d: nat, cur: Id, near: set<Id>, far: set<Id>, visited: set<Id>, added: set<Id>)
    requires cur in near && Layered(adj, root, d, near, far, visited) && added == Elems(Succ(adj, cur)) - visited
    ensures Hops(adj, root, cur) == d && cur !in far
    ensures forall x | x in near + far :: d <= Hops(adj, root, x) <= d + 1
    ensures forall x | x in added :: Hops(adj, root, x) == d + 1
  {
    LayerHops(adj, root, d, near, far, visited);
    LayerStep(adj, root, d, cur, near, far, visited);
    LayerHops(adj, root, d, near - {cur}, far + added, visited + added);
  }

  /** The queue is sorted by distance, and what it holds lies in two layers, the nearer one not empty unless all is done. */
  ghost predicate Front(adj: Adj, root: Id, d: nat, queue: seq<Id>, visited: set<Id>) {
    && ByHops(adj, root, queue)
    && exists near, far :: Layers(adj, root, d, queue, near, far, visited)
  }

  ghost predicate Layers(adj: Adj, root: Id, d: nat, queue: seq<Id>, near: set<Id>, far: set<Id>, visited: set<Id>) {
    Elems(queue) == near + far && (near == {} ==> far == {}) && Layered(adj, root, d, near, far, visited)
  }

  /** A list sorted by distance begins with one of the nearest. */
  lemma HeadIsNear(adj: Adj, root: Id, d: nat, queue: seq<Id>, near: set<Id>, far: set<Id>, visited: set<Id>)
    requires queue != [] && ByHops(adj, root, queue) && Layers(adj, root, d, queue, near, far, visited)
    ensures queue[0] in near
  {
    LayerHops(adj, root, d, near, far, visited);
    assert queue[0] in Elems(queue);
    var n :| n in near;
    assert n in Elems(queue);
    var i :| 0 <= i < |queue| && queue[i] == n;
    assert Hops(adj, root, queue[0]) <= Hops(adj, root, queue[i]);
  }

  lemma FrontStep(adj: Adj, root: Id, d: nat, queue: seq<Id>, visited: set<Id>, added: seq<Id>) returns (d': nat)
    requires queue != [] && NoDup(queue) && Front(adj, root, d, queue, visited)
    requires Elems(added) == Elems(Succ(adj, queue[0])) - visited
    ensures d <= d' && Hops(adj, root, queue[0]) == d
    ensures Front(adj, root, d', queue[1..] + added, visited + Elems(added))
  {
    var near, far :| Layers(adj, root, d, queue, near, far, visited);
    HeadIsNear(adj, root, d, queue, near, far, visited);
    LayerHopsStep(adj, root, d, queue[0], near, far, visited, Elems(added));
    NextByHops(adj, root, d, queue, added);
    d' := if near == {queue[0]} then d + 1 else d;
    NextLayers(adj, root, d, queue, near, far, visited, added);
  }

  lemma NextLayers(adj: Adj, root: Id, d: nat, queue: seq<Id>, near: set<Id>, far: set<Id>, visited: set<Id>, added: seq<Id>)
    requires queue != [] && NoDup(queue) && Layers(adj, root, d, queue, near, far, visited)
    requires queue[0] in near && queue[0] !in far && Elems(added) == Elems(Succ(adj, queue[0])) - visited
    ensures var near', far' := near - {queue[0]}, far + Elems(added);
            if near == {queue[0]} then Layers(adj, root, d + 1, queue[1..] + added, far', {}, visited + Elems(added))
            else Layers(adj, root, d, queue[1..] + added, near', far', visited + Elems(added))
  {
    var near', far' := near - {queue[0]}, far + Elems(added);
    QueueRest(queue, added);
    LayerStep(adj, root, d, queue[0], near, far, visited);
    if near == {queue[0]} { LayerTurn(adj, root, d, near', far', visited + Elems(added)); }
  }

  lemma QueueRest(queue: seq<Id>, added: seq<Id>)
    requires queue != [] && NoDup(queue)
    ensures Elems(queue[1..] + added) == Elems(queue) - {queue[0]} + Elems(added)
  {
    QueueSplit(queue, added);
    assert queue[0] !in queue[1..];
  }

  lemma NextByHops(adj: Adj, root: Id, d: nat, queue: seq<Id>, added: seq<Id>)
    requires queue != [] && ByHops(adj, root, queue)
    requires forall x | x in Elems(queue) :: Hops(adj, root, x) <= d + 1
    requires forall x | x in Elems(added) :: Hops(adj, root, x) == d + 1
    ensures ByHops(adj, root, queue[1..] + added)
  {
    var s := queue[1..] + added;
    forall i, j | 0 <= i < j < |s| ensures Hops(adj, root, s[i]) <= Hops(adj, root, s[j]) {
      if j < |queue| - 1 {
        assert s[i] == queue[i + 1] && s[j] == queue[j + 1];
      } else {
        assert s[j] in Elems(added);
        assert s[i] in Elems(queue) || s[i] in Elems(added) by {
          if i < |queue| - 1 { assert s[i] == queue[i + 1]; } else { assert s[i] == added[i - (|queue| - 1)]; }
        }
      }
    }
  }

  lemma ConsByHops(adj: Adj, root: Id, cur: Id, rest: seq<Id>)
    requires ByHops(adj, root, rest) && forall x | x in rest :: Hops(adj, root, cur) <= Hops(adj, root, x)
    ensures ByHops(adj, root, [cur] + rest)
  {
    var s := [cur] + rest;
    forall i, j | 0 <= i < j < |s| ensures Hops(adj, root, s[i]) <= Hops(adj, root, s[j]) {
      assert s[j] == rest[j - 1] && s[j] in rest;
      if i > 0 { assert s[i] == rest[i - 1]; }
    }
  }

  /** Everything still to be dequeued is at distance d or more, in non-decreasing order. */
  lemma {:induction false} BfsByHops(adj: Adj, root: Id, d: nat, queue: seq<Id>, visited: set<Id>)
    requires NoDup(queue) && Elems(queue) <= visited && Front(adj, root, d, queue, visited)
    ensures forall x | x in Bfs(adj, queue, visited) :: d <= Hops(adj, root, x)
    ensures ByHops(adj, root, Bfs(adj, queue, visited))
    decreases |Targets(adj) - visited|, |queue|
  {
    if queue != [] {
      var added, queue', visited' := BfsUnfold(adj, queue, visited);
      var d' := FrontStep(adj, root, d, queue, visited, added);
      BfsByHops(adj, root, d', queue', visited');
      ConsByHops(adj, root, queue[0], Bfs(adj, queue', visited'));
    }
  }

  lemma FrontHead(adj: Adj, root: Id, d: nat, queue: seq<Id>, visited: set<Id>)
    requires queue != [] && Front(adj, root, d, queue, visited)
    ensures Hops(adj, root, queue[0]) == d
  {
    var near, far :| Layers(adj, root, d, queue, near, far, visited);
    HeadIsNear(adj, root, d, queue, near, far, visited);
    LayerHops(adj, root, d, near, far, visited);
  }

  lemma FrontStarts(adj: Adj, root: Id)
    ensures Front(adj, root, 0, [root], {root})
  {
    assert Layers(adj, root, 0, [root], {root}, {}, {root}) by { assert Elems([root]) == {root}; }
  }

  /** One turn of a search that takes the successors in any order, level by level all the same. */
  lemma FrontStepAny(adj: Adj, root: Id, d: nat, next: seq<Id>, queue: seq<Id>, visited: set<Id>) returns (d': nat)
    requires queue != [] && NoDup(queue) && Elems(queue) <= visited && Front(adj, root, d, queue, visited)
    requires forall x :: x in next <==> x in Succ(adj, queue[0])
    ensures Hops(adj, root, queue[0]) == d && NoDup(queue[1..] + Unseen(next, visited))
    ensures Front(adj, root, d', queue[1..] + Unseen(next, visited), visited + Elems(next))
  {
    var added := Unseen(next, visited);
    assert Elems(added) == Elems(Succ(adj, queue[0])) - visited;
    d' := FrontStep(adj, root, d, queue, visited, added);
    assert visited + Elems(added) == visited + Elems(next);
    NoDupQueue(queue, added, visited);
  }

  lemma NoDupQueue(queue: seq<Id>, added: seq<Id>, visited: set<Id>)
    requires queue != [] && NoDup(queue) && Elems(queue) <= visited && NoDup(added) && forall x | x in added :: x !in visited
    ensures NoDup(queue[1..] + added)
  {
    var q := queue[1..] + added;
    forall i, j | 0 <= i < j < |q| ensures q[i] != q[j] {
      if i < |queue| - 1 {
        assert q[i] == queue[i + 1] && q[i] in Elems(queue);
        if j >= |queue| - 1 { assert q[j] in added; } else { assert q[j] == queue[j + 1]; }
      } else {
        assert q[i] == added[i - (|queue| - 1)] && q[j] == added[j - (|queue| - 1)];
      }
    }
  }

  /** What is nearer than the head of the queue is done. */
  lemma NearerDone(adj: Adj, root: Id, d: nat, done: set<Id>, queue: seq<Id>, visited: set<Id>, x: Id)
    requires Front(adj, root, d, queue, visited) && Explored(adj, done, queue, visited)
    requires Reach(adj, root, x) && Hops(adj, root, x) < d
    ensures x in done
  {
    var near, far :| Layers(adj, root, d, queue, near, far, visited);
    LayerHops(adj, root, d, near, far, visited);
    HopsIsShortest(adj, root, x);
    var p :| WalkFromTo(adj, p, root, x) && |p| == Hops(adj, root, x) + 1;
    WalkIsWithin(adj, root, d, x, p);
    assert x in visited && x !in near + far;
  }

  lemma BfsOrderByHops(adj: Adj, root: Id)
    ensures ByHops(adj, root, BfsOrder(adj, root))
  {
    FrontStarts(adj, root);
    BfsByHops(adj, root, 0, [root], {root});
  }

  /** Keeping a subset of an ordered list keeps it repeat-free and keeps the order by hops. */
  lemma {:induction false} KeepFacts(s: seq<Id>, good: set<Id>, adj: Adj, root: Id)
    requires NoDup(s) && ByHops(adj, root, s)
    ensures NoDup(Keep(s, good)) && ByHops(adj, root, Keep(s, good))
  {
    if s != [] {
      var t := s[1..];
      assert forall i | 0 <= i < |t| :: t[i] == s[i + 1];
      KeepFacts(t, good, adj, root);
      KeepMembers(t, good);
      assert s[0] !in t;
      forall x | x in t ensures Hops(adj, root, s[0]) <= Hops(adj, root, x) {
        var j :| 0 <= j < |t| && t[j] == x;
      }
      ConsByHops(adj, root, s[0], Keep(t, good));
      NoDupCons(s[0], Keep(t, good));
    }
  }

  lemma {:induction false} KeepSplit(a: seq<Id>, b: seq<Id>, good: set<Id>)
    ensures Keep(a + b, good) == Keep(a, good) + Keep(b, good)
  {
    if a == [] {
      assert a + b == b;
    } else {
      var head, tail, end := if a[0] in good then [a[0]] else [], Keep(a[1..], good), Keep(b, good);
      assert (a + b)[1..] == a[1..] + b;
      KeepSplit(a[1..], b, good);
      assert head + (tail + end) == (head + tail) + end;
    }
  }
}
