/** What the answers of `analyzeForkResume` mean in terms of the nodes that can be reached from the fork. */
module ForkDecision {
  import opened Text
  import opened Definitions
  import opened Walks
  import opened ForkResume

  /** n waits on the branch that starts at root: it is reached from there without entering a join. */
  ghost predicate OnBranch(g: ForkGraph, root: Id, n: Id) {
    IsSuspend(g, n) && Reach(Down(g), root, n)
  }

  ghost predicate IsLive(g: ForkGraph, rows: Rows, fork: Id, root: Id) {
    root in ChildrenOf(g, fork) && Activated(g, rows, fork, root)
  }

  // ---- Meaning of the traversals ----

  /** All waiting nodes of a branch, each once, nearest first. */
  lemma AllSuspendsMeaning(g: ForkGraph, root: Id)
    requires root != NO_ID
    ensures NoDup(AllSuspends(g, root))
    ensures forall n :: n in AllSuspends(g, root) <==> OnBranch(g, root, n)
    ensures ByHops(Down(g), root, AllSuspends(g, root))
  {
    BfsOrderMeaning(Down(g), root);
    BfsOrderByHops(Down(g), root);
    KeepFacts(BfsOrder(Down(g), root), Suspends(g), Down(g), root);
    KeepMembers(BfsOrder(Down(g), root), Suspends(g));
  }

  /** No downward walk from a named node meets the empty id. */
  lemma NoIdUnreached(g: ForkGraph, root: Id)
    requires Named(g) && root != NO_ID
    ensures NO_ID !in BfsOrder(Down(g), root)
  {
    BfsOrderMeaning(Down(g), root);
    if Reach(Down(g), root, NO_ID) {
      var p :| WalkFromTo(Down(g), p, root, NO_ID);
      assert p[|p| - 2 + 1] in Succ(Down(g), p[|p| - 2]);
      SuccDown(g, p[|p| - 2]);
    }
  }

  /** The first waiting node is the head of the list of all, at minimal distance; there is none exactly when the list is empty. */
  lemma FirstSuspendMeaning(g: ForkGraph, root: Id)
    requires Named(g) && root != NO_ID
    ensures FirstSuspend(g, root) == NO_ID <==> AllSuspends(g, root) == []
    ensures AllSuspends(g, root) != [] ==> FirstSuspend(g, root) == AllSuspends(g, root)[0]
    ensures FirstSuspend(g, root) != NO_ID ==> OnBranch(g, root, FirstSuspend(g, root))
    ensures forall n | OnBranch(g, root, n) ::
              FirstSuspend(g, root) != NO_ID && Hops(Down(g), root, FirstSuspend(g, root)) <= Hops(Down(g), root, n)
  {
    NoIdUnreached(g, root);
    AllSuspendsMeaning(g, root);
    FirstFacts(BfsOrder(Down(g), root), Suspends(g));
    var s := AllSuspends(g, root);
    assert s != [] ==> s[0] in s;
    forall n | OnBranch(g, root, n)
      ensures FirstSuspend(g, root) != NO_ID && Hops(Down(g), root, FirstSuspend(g, root)) <= Hops(Down(g), root, n)
    {
      var i :| 0 <= i < |s| && s[i] == n;
    }
  }

  /** The fork ancestor is a nearest gateway strictly above start, and there is none exactly when "" is answered. */
  lemma ForkAncestorMeaning(g: ForkGraph, start: Id)
    requires Named(g) && start != NO_ID
    ensures var f := ForkAncestor(g, start);
            && (f != NO_ID ==> f != start && IsBranching(TypeOf(g, f)) && Reach(Up(g), start, f))
            && (forall x | x != start && IsBranching(TypeOf(g, x)) && Reach(Up(g), start, x) ::
                  f != NO_ID && Hops(Up(g), start, f) <= Hops(Up(g), start, x))
  {
    var order, good := BfsOrder(Up(g), start), Branchings(g) - {start};
    BfsOrderMeaning(Up(g), start);
    BfsOrderByHops(Up(g), start);
    NoIdAbove(g, start);
    KeepFacts(order, good, Up(g), start);
    KeepMembers(order, good);
    FirstFacts(order, good);
    var kept := Keep(order, good);
    forall x | x != start && IsBranching(TypeOf(g, x)) && Reach(Up(g), start, x)
      ensures First(order, good) != NO_ID && Hops(Up(g), start, First(order, good)) <= Hops(Up(g), start, x)
    {
      assert x in kept;
      var i :| 0 <= i < |kept| && kept[i] == x;
    }
  }

  lemma NoIdAbove(g: ForkGraph, start: Id)
    requires Named(g) && start != NO_ID
    ensures NO_ID !in BfsOrder(Up(g), start)
  {
    BfsOrderMeaning(Up(g), start);
    if Reach(Up(g), start, NO_ID) {
      var p :| WalkFromTo(Up(g), p, start, NO_ID);
      assert p[|p| - 2 + 1] in Succ(Up(g), p[|p| - 2]);
      SuccUp(g, p[|p| - 2]);
    }
  }

  /** The fork is refused exactly when another gateway, or the fork itself as its own child, is reached from it before a join. */
  lemma NestedMeaning(g: ForkGraph, fork: Id)
    requires fork != NO_ID && IsBranching(TypeOf(g, fork))
    ensures Nested(g, fork) <==>
              fork in ChildrenOf(g, fork) || exists n :: n != fork && IsBranching(TypeOf(g, n)) && Reach(Down(g), fork, n)
  {
    var adj, roots := Down(g), NonJoinChildren(g, fork);
    SuccDown(g, fork);
    KeepMembers(BranchBody(g, fork), Branchings(g));
    HeadOfBody(g, fork);
    BfsOrderMeaning(adj, fork);
    if fork in ChildrenOf(g, fork) {
      assert fork in Elems(BranchBody(g, fork));
      assert fork in Keep(BranchBody(g, fork), Branchings(g));
    } else {
      assert BfsOrder(adj, fork) == [fork] + BranchBody(g, fork);
      assert forall n :: n in BfsOrder(adj, fork) <==> n == fork || n in BranchBody(g, fork);
      if n :| n != fork && IsBranching(TypeOf(g, n)) && Reach(adj, fork, n) {
        assert n in Keep(BranchBody(g, fork), Branchings(g));
      }
      if Nested(g, fork) {
        var n := Keep(BranchBody(g, fork), Branchings(g))[0];
        assert n in Keep(BranchBody(g, fork), Branchings(g));
        HeadNotInTail(fork, BranchBody(g, fork));
      }
    }
  }

  lemma HeadNotInTail(x: Id, s: seq<Id>)
    requires NoDup([x] + s)
    ensures x !in s
  {
    var t := [x] + s;
    assert forall i | 0 <= i < |s| :: t[i + 1] == s[i] && t[0] != t[i + 1];
  }

  /** The body of a fork is the search from the fork without its first node. */
  lemma HeadOfBody(g: ForkGraph, fork: Id)
    requires IsBranching(TypeOf(g, fork))
    ensures Elems(NonJoinChildren(g, fork)) <= Elems(BranchBody(g, fork))
    ensures fork in ChildrenOf(g, fork) ==> fork in NonJoinChildren(g, fork)
    ensures fork !in ChildrenOf(g, fork) ==> BfsOrder(Down(g), fork) == [fork] + BranchBody(g, fork)
  {
    var adj, roots := Down(g), NonJoinChildren(g, fork);
    SuccDown(g, fork);
    AscendingNoDup(g, fork);
    BfsMembers(adj, roots, {fork} + Elems(roots));
    if fork !in ChildrenOf(g, fork) {
      UnseenAll(roots, {fork});
      var added, queue', visited' := BfsUnfold(adj, [fork], {fork});
      assert queue' == [] + roots == roots;
    }
  }

  lemma AscendingNoDup(g: ForkGraph, n: Id)
    ensures NoDup(NonJoinChildren(g, n))
  {
    var keys := SortedKeys(ChildrenOf(g, n));
    forall i, j | 0 <= i < j < |keys| ensures keys[i] != keys[j] { BeforeAsymmetric(keys[i], keys[j]); }
    KeepNoDup(keys, NonJoinSet(g, n));
  }

  lemma {:induction false} KeepNoDup(s: seq<Id>, good: set<Id>)
    requires NoDup(s)
    ensures NoDup(Keep(s, good))
  {
    if s != [] {
      var t := s[1..];
      assert forall i | 0 <= i < |t| :: t[i] == s[i + 1];
      KeepNoDup(t, good);
      KeepMembers(t, good);
      assert s[0] !in t;
      NoDupCons(s[0], Keep(t, good));
    }
  }

  lemma {:induction false} UnseenAll(s: seq<Id>, visited: set<Id>)
    requires NoDup(s) && Elems(s) !! visited
    ensures Unseen(s, visited) == s
  {
    if s != [] {
      var t := s[1..];
      assert s[0] in Elems(s);
      assert forall i | 0 <= i < |t| :: t[i] == s[i + 1];
      assert s[0] !in t;
      assert forall x | x in t :: x in s && x in Elems(s);
      UnseenAll(t, visited + {s[0]});
    }
  }

  // ---- Exactness of the decision ----

  lemma LiveRootsMeaning(g: ForkGraph, rows: Rows, fork: Id)
    ensures forall r :: r in LiveRoots(g, rows, fork) <==> IsLive(g, rows, fork, r)
    ensures NoDup(LiveRoots(g, rows, fork))
  {
    var keys := SortedKeys(ChildrenOf(g, fork));
    var live := set r | r in ChildrenOf(g, fork) && Activated(g, rows, fork, r);
    forall i, j | 0 <= i < j < |keys| ensures keys[i] != keys[j] { BeforeAsymmetric(keys[i], keys[j]); }
    KeepNoDup(keys, live);
    KeepMembers(keys, live);
  }

  /** The activated branches that wait somewhere, in ascending order of their roots. */
  ghost function WaitingRoots(g: ForkGraph, rows: Rows, fork: Id): seq<Id> {
    WaitingAmong(g, LiveRoots(g, rows, fork))
  }

  ghost function WaitingAmong(g: ForkGraph, roots: seq<Id>): seq<Id> {
    if roots == [] then [] else
      var r := roots[|roots| - 1];
      WaitingAmong(g, roots[..|roots| - 1]) + if AllSuspends(g, r) == [] then [] else [r]
  }

  ghost function Firsts(g: ForkGraph, roots: seq<Id>): (r: seq<Id>)
    ensures |r| == |roots| && forall i | 0 <= i < |roots| :: r[i] == FirstSuspend(g, roots[i])
  {
    if roots == [] then [] else Firsts(g, roots[..|roots| - 1]) + [FirstSuspend(g, roots[|roots| - 1])]
  }

  /** One request per waiting branch, aimed at its nearest waiting node. */
  lemma {:induction false} ExitsMeaning(g: ForkGraph, roots: seq<Id>)
    requires Named(g) && NO_ID !in roots
    ensures Exits(g, roots) == Firsts(g, WaitingAmong(g, roots))
  {
    if roots != [] {
      var front, r := roots[..|roots| - 1], roots[|roots| - 1];
      assert r in roots;
      FirstSuspendMeaning(g, r);
      ExitsMeaning(g, front);
      var w := WaitingAmong(g, front);
      assert (w + [r])[..|w|] == w && w + [] == w;
    }
  }

  lemma {:induction false} WaitingMembers(g: ForkGraph, roots: seq<Id>)
    requires NoDup(roots)
    ensures NoDup(WaitingAmong(g, roots))
    ensures forall r :: r in WaitingAmong(g, roots) <==> r in roots && AllSuspends(g, r) != []
  {
    if roots != [] {
      var r, t := roots[|roots| - 1], roots[..|roots| - 1];
      assert r !in t;
      WaitingMembers(g, t);
      assert forall x :: x in roots <==> x == r || x in t;
    }
  }

  lemma {:induction false} PendingMeaning(g: ForkGraph, rows: Rows, roots: seq<Id>)
    requires NO_ID !in roots
    ensures forall n :: n in PendingOf(g, rows, roots) <==> exists r :: r in roots && OnBranch(g, r, n) && !NodeSettled(rows, n)
  {
    if roots != [] {
      var front, last := roots[..|roots| - 1], roots[|roots| - 1];
      PendingMeaning(g, rows, front);
      assert last in roots;
      AllSuspendsMeaning(g, last);
      KeepMembers(AllSuspends(g, last), Unsettled(g, rows));
      assert forall r :: r in roots <==> r == last || r in front;
    }
  }

  /** start is the last waiting node of the branch it was found in, or that branch has none. */
  ghost predicate EndsItsBranch(g: ForkGraph, start: Id, root: Id) {
    var own := AllSuspends(g, root);
    own == [] || start == own[|own| - 1]
  }

  ghost predicate AllSettled(g: ForkGraph, rows: Rows, fork: Id) {
    forall r, n | IsLive(g, rows, fork, r) && OnBranch(g, r, n) :: NodeSettled(rows, n)
  }

  ghost predicate SomeWaits(g: ForkGraph, rows: Rows, fork: Id) {
    exists r, n :: IsLive(g, rows, fork, r) && OnBranch(g, r, n)
  }

  lemma WaitingRootsMeaning(g: ForkGraph, rows: Rows, fork: Id)
    requires Named(g)
    ensures NoDup(WaitingRoots(g, rows, fork))
    ensures forall r :: r in WaitingRoots(g, rows, fork) <==> IsLive(g, rows, fork, r) && exists n :: OnBranch(g, r, n)
    ensures Exits(g, LiveRoots(g, rows, fork)) != [] <==> SomeWaits(g, rows, fork)
  {
    var live := LiveRoots(g, rows, fork);
    LiveRootsMeaning(g, rows, fork);
    ExitsMeaning(g, live);
    WaitingMembers(g, live);
    forall r | r in live ensures AllSuspends(g, r) != [] <==> exists n :: OnBranch(g, r, n) {
      AllSuspendsMeaning(g, r);
      if AllSuspends(g, r) != [] { assert AllSuspends(g, r)[0] in AllSuspends(g, r); }
    }
    var waiting := WaitingRoots(g, rows, fork);
    if waiting != [] { assert waiting[0] in waiting; }
  }

  lemma PendingExists(g: ForkGraph, rows: Rows, fork: Id)
    requires Named(g)
    ensures forall n :: n in PendingOf(g, rows, LiveRoots(g, rows, fork)) <==>
              exists r :: IsLive(g, rows, fork, r) && OnBranch(g, r, n) && !NodeSettled(rows, n)
    ensures PendingOf(g, rows, LiveRoots(g, rows, fork)) == [] <==> AllSettled(g, rows, fork)
  {
    var live := LiveRoots(g, rows, fork);
    LiveRootsMeaning(g, rows, fork);
    PendingMeaning(g, rows, live);
    var pending := PendingOf(g, rows, live);
    assert forall n :: n in pending <==> exists r :: IsLive(g, rows, fork, r) && OnBranch(g, r, n) && !NodeSettled(rows, n);
    if pending == [] {
      forall r, n | IsLive(g, rows, fork, r) && OnBranch(g, r, n) ensures NodeSettled(rows, n) {
        assert n !in pending;
      }
    } else {
      assert pending[0] in pending;
    }
  }

  /**
   The restore path is taken exactly when start ends its branch, something waits, and every waiting node of
   every activated branch has rows that are all terminal with one completed.
   */
  lemma MultiExact(g: ForkGraph, rows: Rows, start: Id, fork: Id, root: Id)
    requires Named(g)
    ensures Decision(g, rows, start, fork, root).Multi? <==>
              EndsItsBranch(g, start, root) && SomeWaits(g, rows, fork) && AllSettled(g, rows, fork)
  {
    WaitingRootsMeaning(g, rows, fork);
    PendingExists(g, rows, fork);
  }

  /**
   The restore path restarts each activated branch that waits anywhere once, at its nearest waiting node, and
   nothing else; a branch an inclusive gateway did not take is not restarted.
   */
  lemma MultiRequests(g: ForkGraph, rows: Rows, start: Id, fork: Id, root: Id)
    requires Named(g) && Decision(g, rows, start, fork, root).Multi?
    ensures var reqs, roots := Decision(g, rows, start, fork, root).reqs, WaitingRoots(g, rows, fork);
            && |reqs| == |roots| && NoDup(roots)
            && (forall r :: r in roots <==> IsLive(g, rows, fork, r) && exists n :: OnBranch(g, r, n))
            && (forall i | 0 <= i < |roots| :: OnBranch(g, roots[i], reqs[i]))
            && (forall i, n | 0 <= i < |roots| && OnBranch(g, roots[i], n) ::
                  Hops(Down(g), roots[i], reqs[i]) <= Hops(Down(g), roots[i], n))
  {
    var roots := WaitingRoots(g, rows, fork);
    WaitingRootsMeaning(g, rows, fork);
    LiveRootsMeaning(g, rows, fork);
    ExitsMeaning(g, LiveRoots(g, rows, fork));
    forall i | 0 <= i < |roots| ensures OnBranch(g, roots[i], FirstSuspend(g, roots[i])) {
      assert roots[i] in roots;
      FirstSuspendMeaning(g, roots[i]);
    }
    forall i, n | 0 <= i < |roots| && OnBranch(g, roots[i], n)
      ensures Hops(Down(g), roots[i], FirstSuspend(g, roots[i])) <= Hops(Down(g), roots[i], n)
    {
      FirstSuspendMeaning(g, roots[i]);
    }
  }

  /** Waiting is answered exactly when start ends its branch and some activated branch is not settled; the list names what is missing. */
  lemma SkipExact(g: ForkGraph, rows: Rows, start: Id, fork: Id, root: Id)
    requires Named(g)
    ensures Decision(g, rows, start, fork, root).Skip? <==> EndsItsBranch(g, start, root) && !AllSettled(g, rows, fork)
    ensures Decision(g, rows, start, fork, root).Skip? ==>
              forall n :: n in Decision(g, rows, start, fork, root).pending <==>
                exists r :: IsLive(g, rows, fork, r) && OnBranch(g, r, n) && !NodeSettled(rows, n)
  {
    WaitingRootsMeaning(g, rows, fork);
    PendingExists(g, rows, fork);
    if !AllSettled(g, rows, fork) {
      var r, n :| IsLive(g, rows, fork, r) && OnBranch(g, r, n) && !NodeSettled(rows, n);
      assert SomeWaits(g, rows, fork);
    }
  }

  /** The node is driven alone in all other cases: it does not end its branch, or nothing waits on any activated branch. */
  lemma SingleExact(g: ForkGraph, rows: Rows, start: Id, fork: Id, root: Id)
    requires Named(g)
    ensures Decision(g, rows, start, fork, root) == Single <==> !EndsItsBranch(g, start, root) || !SomeWaits(g, rows, fork)
  {
    WaitingRootsMeaning(g, rows, fork);
    PendingExists(g, rows, fork);
  }

  /** Another gateway hangs below the fork before a join, or the fork is its own child. */
  ghost predicate HasGatewayInside(g: ForkGraph, fork: Id) {
    fork in ChildrenOf(g, fork) || exists n :: n != fork && TypeOf(g, n) in {Fork, Inclusive} && Reach(Down(g), fork, n)
  }

  lemma NestedInside(g: ForkGraph, fork: Id)
    requires fork != NO_ID && IsBranching(TypeOf(g, fork))
    ensures Nested(g, fork) <==> HasGatewayInside(g, fork)
  {
    NestedMeaning(g, fork);
    if n :| n != fork && TypeOf(g, n) in {Fork, Inclusive} && Reach(Down(g), fork, n) { assert IsBranching(TypeOf(g, n)); }
    if n :| n != fork && IsBranching(TypeOf(g, n)) && Reach(Down(g), fork, n) { assert TypeOf(g, n) in {Fork, Inclusive}; }
  }

  /** Without a gateway above the node it is driven alone. */
  lemma NoGatewayAbove(g: ForkGraph, rows: Rows, start: Id, out: Outcome)
    requires Named(g) && start != NO_ID && Answers(g, rows, start, out)
    requires forall x | x != start && TypeOf(g, x) in {Fork, Inclusive} :: !Reach(Up(g), start, x)
    ensures out == Single
  {
    ForkAncestorMeaning(g, start);
  }

  /** Below a gateway with another one in its branches the node is refused, and below one with a single branch it is driven alone. */
  lemma BelowGateway(g: ForkGraph, rows: Rows, start: Id, out: Outcome)
    requires Named(g) && start != NO_ID && Answers(g, rows, start, out) && ForkAncestor(g, start) != NO_ID
    ensures var fork := ForkAncestor(g, start);
            && (out.Unsupported? <==> HasGatewayInside(g, fork)) && (out.Unsupported? ==> out.fork == fork)
            && (!HasGatewayInside(g, fork) && |ChildrenOf(g, fork)| <= 1 ==> out == Single)
  {
    ForkAncestorMeaning(g, start);
    NestedInside(g, ForkAncestor(g, start));
  }

  /**
   A node behind the join is no waiting node of the fork's branches. It still restarts them, exactly when the
   branch it was traced back to has no waiting node and the branches are settled.
   */
  lemma StrayStart(g: ForkGraph, rows: Rows, start: Id, fork: Id, root: Id)
    requires Named(g) && root != NO_ID && !OnBranch(g, root, start)
    ensures Decision(g, rows, start, fork, root).Multi? <==>
              AllSuspends(g, root) == [] && SomeWaits(g, rows, fork) && AllSettled(g, rows, fork)
  {
    MultiExact(g, rows, start, fork, root);
    AllSuspendsMeaning(g, root);
    var own := AllSuspends(g, root);
    if own != [] { assert own[|own| - 1] in own; }
  }

  /** Below the fork that was found there is always a branch to trace the node to. */
  lemma BranchFound(g: ForkGraph, start: Id)
    requires Named(g) && start != NO_ID && ForkAncestor(g, start) != NO_ID
    ensures !IsBranchRoot(g, start, ForkAncestor(g, start), NO_ID)
  {
    var fork := ForkAncestor(g, start);
    ForkAncestorMeaning(g, start);
    var p :| WalkFromTo(Up(g), p, start, fork);
    var r := p[|p| - 2];
    assert WalkFromTo(Up(g), p[..|p| - 1], start, r);
    assert p[|p| - 2 + 1] in Succ(Up(g), r);
    SuccUp(g, r);
    assert BranchAbove(g, start, fork, r);
  }

  /** A fork of several branches is found above start, and start is on none of them. */
  ghost predicate Strays(g: ForkGraph, start: Id) {
    var fork := ForkAncestor(g, start);
    && start != NO_ID && fork != NO_ID && !Nested(g, fork) && |ChildrenOf(g, fork)| >= 2
    && forall r | fork in ParentsOf(g, r) :: !OnBranch(g, r, start)
  }

  /** The node can be traced to a branch of the fork that has no waiting node. */
  ghost predicate TracedToIdleBranch(g: ForkGraph, start: Id, fork: Id) {
    exists root :: root != NO_ID && IsBranchRoot(g, start, fork, root) && forall n :: !OnBranch(g, root, n)
  }

  lemma StrayTraced(g: ForkGraph, rows: Rows, start: Id, root: Id)
    requires Named(g) && Strays(g, start) && root != NO_ID && IsBranchRoot(g, start, ForkAncestor(g, start), root)
    ensures var out := Decision(g, rows, start, ForkAncestor(g, start), root);
            && Answers(g, rows, start, out)
            && (out.Multi? <==> SomeWaits(g, rows, ForkAncestor(g, start)) && AllSettled(g, rows, ForkAncestor(g, start))
                                && forall n :: !OnBranch(g, root, n))
  {
    AnswersBy(g, rows, start, ForkAncestor(g, start), root);
    StrayStart(g, rows, start, ForkAncestor(g, start), root);
    AllSuspendsMeaning(g, root);
    if AllSuspends(g, root) != [] { assert AllSuspends(g, root)[0] in AllSuspends(g, root); }
  }

  /**
   Whatever branch the search happens to trace it to: a node on no branch of the fork can restart the branches
   exactly when it can be traced to some branch without a waiting node, something waits and all of it is settled.
   */
  lemma StrayAnswers(g: ForkGraph, rows: Rows, start: Id)
    requires Named(g)
    ensures Strays(g, start) ==>
              var fork := ForkAncestor(g, start);
              (exists out :: Answers(g, rows, start, out) && out.Multi?) <==>
                SomeWaits(g, rows, fork) && AllSettled(g, rows, fork) && TracedToIdleBranch(g, start, fork)
  {
    if Strays(g, start) {
      var fork := ForkAncestor(g, start);
      BranchFound(g, start);
      if out :| Answers(g, rows, start, out) && out.Multi? {
        var root :| IsBranchRoot(g, start, fork, root) && out == Decision(g, rows, start, fork, root);
        StrayTraced(g, rows, start, root);
      }
      if TracedToIdleBranch(g, start, fork) {
        var root :| root != NO_ID && IsBranchRoot(g, start, fork, root) && forall n :: !OnBranch(g, root, n);
        StrayTraced(g, rows, start, root);
      }
    }
  }

  // ---- A node behind the join ----

  /** f forks into the synchronous node s and the approval u; both join at j, and the approval t follows. */
  datatype Mixed = Mixed(f: Id, s: Id, u: Id, j: Id, t: Id) {
    ghost predicate Distinct() {
      NoDup([NO_ID, f, s, u, j, t])
    }

    lemma Apart()
      requires Distinct()
      ensures f != s && f != u && f != j && f != t && s != u && s != j && s != t && u != j && u != t && j != t
      ensures NO_ID !in {f, s, u, j, t}
    {
      var l := [NO_ID, f, s, u, j, t];
      assert l[0] == NO_ID && l[1] == f && l[2] == s && l[3] == u && l[4] == j && l[5] == t;
    }

    function Graph(): ForkGraph {
      ForkGraph(
        map[f := Fork, s := Other("script"), u := UserTask, j := Join, t := UserTask],
        map[s := {f}, u := {f}, j := {s, u}, t := {j}],
        map[f := {s, u}, s := {j}, u := {j}, j := {t}],
        {})
    }

    function Rows(): Rows {
      map[u := [Completed], t := [Completed]]
    }

    /** The neighbours and types of the graph. */
    ghost predicate Shape(g: ForkGraph) {
      && Named(g) && TypeOf(g, f) == Fork
      && ChildrenOf(g, f) == {s, u} && NonJoinSet(g, s) == {} && NonJoinSet(g, u) == {} && ParentsOf(g, f) == {}
      && ParentsOf(g, s) == {f} && ParentsOf(g, u) == {f} && ParentsOf(g, j) == {s, u} && ParentsOf(g, t) == {j}
      && (forall n :: IsBranching(TypeOf(g, n)) <==> n == f)
      && (forall n :: IsSuspend(g, n) <==> n == u || n == t)
    }

    lemma GraphShape()
      requires Distinct()
      ensures Shape(Graph()) && NodeSettled(Rows(), u)
    {
      Apart();
      assert Completed in [Completed];
    }
  }

  /** A branch whose root leads only to joins consists of its root. */
  lemma Alone(g: ForkGraph, r: Id)
    requires NonJoinSet(g, r) == {}
    ensures forall n :: OnBranch(g, r, n) <==> n == r && IsSuspend(g, r)
  {
    SuccDown(g, r);
    ReachRefl(Down(g), r);
    forall n | Reach(Down(g), r, n) ensures n == r {
      var p :| WalkFromTo(Down(g), p, r, n);
      ClosedHoldsReachable(Down(g), {r}, p, r, n);
    }
  }

  /**
   Approving t, which no branch of the fork contains, may restart the branch of u although u is long done:
   t can be traced back to the branch of s, which has no waiting node that would rule the fork out.
   */
  lemma StrayStartRestarts(m: Mixed)
    requires m.Distinct()
    ensures Answers(m.Graph(), m.Rows(), m.t, Multi([m.u]))
    ensures forall r | r in ChildrenOf(m.Graph(), m.f) :: !OnBranch(m.Graph(), r, m.t)
  {
    m.GraphShape();
    StrayAnswer(m, m.Graph(), m.Rows());
    StrayOffBranch(m, m.Graph());
  }

  lemma AnswersBy(g: ForkGraph, rows: Rows, start: Id, fork: Id, root: Id)
    requires start != NO_ID && fork != NO_ID && ForkAncestor(g, start) == fork && !Nested(g, fork)
    requires |ChildrenOf(g, fork)| >= 2 && IsBranchRoot(g, start, fork, root)
    ensures Answers(g, rows, start, Decision(g, rows, start, fork, root))
  {
  }

  lemma StrayAnswer(m: Mixed, g: ForkGraph, rows: Rows)
    requires m.Distinct() && m.Shape(g) && NodeSettled(rows, m.u)
    ensures Answers(g, rows, m.t, Multi([m.u]))
  {
    m.Apart();
    StrayAncestor(m, g);
    StrayRoot(m, g);
    assert |{m.s, m.u}| == 2;
    AnswersBy(g, rows, m.t, m.f, m.s);
    StrayDecision(m, g, rows);
  }

  lemma StrayOffBranch(m: Mixed, g: ForkGraph)
    requires m.Distinct() && m.Shape(g)
    ensures forall r | r in ChildrenOf(g, m.f) :: !OnBranch(g, r, m.t)
  {
    m.Apart();
    Alone(g, m.s);
    Alone(g, m.u);
  }

  lemma StrayBranches(m: Mixed, g: ForkGraph, rows: Rows)
    requires m.Distinct() && m.Shape(g) && NodeSettled(rows, m.u)
    ensures AllSuspends(g, m.s) == []
    ensures IsLive(g, rows, m.f, m.u) && OnBranch(g, m.u, m.u)
    ensures forall r, n | IsLive(g, rows, m.f, r) && OnBranch(g, r, n) :: r == m.u && n == m.u
  {
    m.Apart();
    Alone(g, m.s);
    Alone(g, m.u);
    AllSuspendsMeaning(g, m.s);
    if AllSuspends(g, m.s) != [] { HasMember(AllSuspends(g, m.s)); assert false; }
  }

  lemma StrayDecision(m: Mixed, g: ForkGraph, rows: Rows)
    requires m.Distinct() && m.Shape(g) && NodeSettled(rows, m.u)
    ensures Decision(g, rows, m.t, m.f, m.s) == Multi([m.u])
  {
    StrayBranches(m, g, rows);
    MultiExact(g, rows, m.t, m.f, m.s);
    StrayRequests(m, g, rows);
  }

  lemma StrayRequests(m: Mixed, g: ForkGraph, rows: Rows)
    requires m.Distinct() && m.Shape(g) && NodeSettled(rows, m.u) && Decision(g, rows, m.t, m.f, m.s).Multi?
    ensures Decision(g, rows, m.t, m.f, m.s).reqs == [m.u]
  {
    StrayBranches(m, g, rows);
    MultiRequests(g, rows, m.t, m.f, m.s);
    OnlyRequest(m.u, Decision(g, rows, m.t, m.f, m.s).reqs, WaitingRoots(g, rows, m.f));
  }

  lemma OnlyRequest(u: Id, reqs: seq<Id>, roots: seq<Id>)
    requires |reqs| == |roots| && NoDup(roots) && u in roots
    requires forall r | r in roots :: r == u
    requires forall i | 0 <= i < |roots| && roots[i] == u :: reqs[i] == u
    ensures reqs == [u]
  {
    assert forall i | 0 <= i < |roots| :: roots[i] in roots;
    if |roots| > 1 { TwoDiffer(roots); assert false; }
  }

  lemma TwoDiffer(s: seq<Id>)
    requires NoDup(s) && |s| > 1
    ensures exists x, y :: x in s && y in s && x != y
  {
    assert s[0] in s && s[1] in s && s[0] != s[1];
  }

  lemma StrayRoot(m: Mixed, g: ForkGraph)
    requires m.Distinct() && m.Shape(g)
    ensures IsBranchRoot(g, m.t, m.f, m.s)
  {
    m.Apart();
    var up := Up(g);
    SuccUp(g, m.t);
    SuccUp(g, m.j);
    assert WalkFromTo(up, [m.t, m.j, m.s], m.t, m.s);
    HopsIsShortest(up, m.t, m.s);
    forall r | BranchAbove(g, m.t, m.f, r) ensures Hops(up, m.t, r) >= 2 {
      HopsIsShortest(up, m.t, r);
      var p :| WalkFromTo(up, p, m.t, r) && |p| == Hops(up, m.t, r) + 1;
      if |p| > 1 { assert p[0 + 1] in Succ(up, p[0]) && p[1] == m.j; }
    }
  }

  lemma StrayAncestor(m: Mixed, g: ForkGraph)
    requires m.Distinct() && m.Shape(g)
    ensures ForkAncestor(g, m.t) == m.f && !Nested(g, m.f)
  {
    m.Apart();
    ForkAncestorMeaning(g, m.t);
    SuccUp(g, m.t);
    SuccUp(g, m.j);
    SuccUp(g, m.s);
    assert WalkFromTo(Up(g), [m.t, m.j, m.s, m.f], m.t, m.f);
    NestedMeaning(g, m.f);
  }
}
