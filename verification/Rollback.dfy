/**
 Rolling back after a rejection: what deployment accepts (`service/config_validate.go`,
 `components/user_task_config.go`) and what the node then does (`components/user_task_reject.go`). The two sides
 were written separately and are meant to agree.
 */
module Rollback {
  import opened Text
  import opened Definitions
  import opened Walks
  import opened ChainGraphs

  // ---- What the tests are about ----

  /** n lies on some walk from a to b. */
  ghost predicate OnWalk(adj: Adj, a: Id, b: Id, n: Id) {
    exists p :: WalkFromTo(adj, p, a, b) && n in p
  }

  lemma OnWalkIsBetween(adj: Adj, a: Id, b: Id, n: Id)
    ensures OnWalk(adj, a, b, n) <==> Reach(adj, a, n) && Reach(adj, n, b)
  {
    if p :| WalkFromTo(adj, p, a, b) && n in p {
      var i :| 0 <= i < |p| && p[i] == n;
      assert WalkFromTo(adj, p[..i + 1], a, n);
      assert WalkFromTo(adj, p[i..], n, b);
    }
    if Reach(adj, a, n) && Reach(adj, n, b) {
      var p :| WalkFromTo(adj, p, a, n);
      var q :| WalkFromTo(adj, q, n, b);
      JoinWalks(adj, p, q, a, n, b);
      assert (p + q[1..])[|p| - 1] == n;
    }
  }

  lemma JoinWalks(adj: Adj, p: seq<Id>, q: seq<Id>, a: Id, n: Id, b: Id)
    requires WalkFromTo(adj, p, a, n) && WalkFromTo(adj, q, n, b)
    ensures WalkFromTo(adj, p + q[1..], a, b)
  {
    var r := p + q[1..];
    forall i | 0 <= i < |r| - 1 ensures r[i + 1] in Succ(adj, r[i]) {
      if i >= |p| - 1 { assert r[i] == q[i - (|p| - 1)] && r[i + 1] == q[i + 1 - (|p| - 1)]; }
    }
  }

  /** A gateway lies on some walk from a to b. */
  ghost predicate GatewayBetween(g: ChainGraph, a: Id, b: Id) {
    exists n :: TypeOf(g, n) in {Fork, Inclusive, Join} && OnWalk(g.fwd, a, b, n)
  }

  ghost predicate GatewayBelow(g: ChainGraph, a: Id) {
    exists n :: TypeOf(g, n) in {Fork, Inclusive, Join} && Reach(g.fwd, a, n)
  }

  // ---- Searches ----

  /** Everything reachable from start. */
  method Flood(adj: Adj, start: Id) returns (visited: set<Id>)
    ensures visited == Region(adj, start)
  {
    ghost var done := {};
    var queue := [start];
    visited := {start};
    RegionClosed(adj, start);
    while queue != []
      invariant start in visited && visited <= Region(adj, start) && Explored(adj, done, queue, visited)
      decreases |Targets(adj) - visited|, |queue|
    {
      var cur := queue[0];
      assert cur in Elems(queue);
      visited, queue := ExpandAny(adj, done, Succ(adj, cur), visited, queue);
      done := done + {cur};
    }
    ExploredAll(adj, done, visited, start);
  }

  method BfsSet(adj: Adj, start: Id) returns (visited: set<Id>)
    ensures visited == if start == NO_ID then {} else Region(adj, start)
  {
    if start == NO_ID { return {}; }
    visited := Flood(adj, start);
  }

  /** target lies upstream of from, or is from itself. */
  method UpstreamReachable(g: ChainGraph, from: Id, target: Id) returns (upstream: bool)
    requires Converse(g.fwd, g.bwd)
    ensures upstream <==> from != NO_ID && target != NO_ID && Reach(g.fwd, target, from)
  {
    if from == NO_ID || target == NO_ID { return false; }
    ghost var done := {};
    var visited, queue := {from}, [from];
    RegionClosed(g.bwd, from);
    RegionMeaning(g.bwd, from);
    ConverseReach(g.fwd, g.bwd, target, from);
    while queue != []
      invariant from in visited && visited <= Region(g.bwd, from) && Explored(g.bwd, done, queue, visited)
      invariant target !in done
      decreases |Targets(g.bwd) - visited|, |queue|
    {
      var cur := queue[0];
      assert cur in Elems(queue);
      if cur == target { return true; }
      visited, queue := ExpandAny(g.bwd, done, Succ(g.bwd, cur), visited, queue);
      done := done + {cur};
    }
    ExploredAll(g.bwd, done, visited, from);
    return false;
  }

  /** Some member of both regions is a gateway. */
  method AnyGateway(g: ChainGraph, region: set<Id>) returns (found: bool)
    ensures found <==> exists n :: n in region && IsGateway(TypeOf(g, n))
  {
    var rest := region;
    while rest != {}
      invariant rest <= region && forall n | n in region - rest :: !IsGateway(TypeOf(g, n))
      decreases rest
    {
      var n :| n in rest;
      if IsGateway(TypeOf(g, n)) { return true; }
      rest := rest - {n};
    }
    return false;
  }

  lemma RegionsMeet(g: ChainGraph, target: Id, self: Id)
    requires Converse(g.fwd, g.bwd)
    ensures forall n :: n in Region(g.fwd, target) && n in Region(g.bwd, self) <==> OnWalk(g.fwd, target, self, n)
  {
    RegionMeaning(g.fwd, target);
    RegionMeaning(g.bwd, self);
    forall n ensures n in Region(g.fwd, target) && n in Region(g.bwd, self) <==> OnWalk(g.fwd, target, self, n) {
      ConverseReach(g.fwd, g.bwd, n, self);
      OnWalkIsBetween(g.fwd, target, self, n);
    }
  }

  /** The region test at deployment. */
  method RollbackRegionForked(g: ChainGraph, target: Id, self: Id) returns (forked: bool)
    requires Converse(g.fwd, g.bwd)
    ensures forked <==> GatewayBetween(g, target, self)
  {
    var forwardSeen := Flood(g.fwd, target);
    var backwardSeen := Flood(g.bwd, self);
    RegionsMeet(g, target, self);
    forked := AnyGateway(g, forwardSeen * backwardSeen);
    assert forall n :: n in forwardSeen * backwardSeen <==> OnWalk(g.fwd, target, self, n);
  }

  /** The region test at run time. */
  method RejectRegionCrossesParallel(g: ChainGraph, target: Id, self: Id) returns (crosses: bool)
    requires Converse(g.fwd, g.bwd)
    ensures crosses <==> target != NO_ID && self != NO_ID && GatewayBetween(g, target, self)
  {
    if target == NO_ID { return false; }
    var reachableFromTarget := BfsSet(g.fwd, target);
    var reachesSelf := BfsSet(g.bwd, self);
    RegionsMeet(g, target, self);
    var rest := reachableFromTarget;
    while rest != {}
      invariant rest <= reachableFromTarget
      invariant forall n | n in reachableFromTarget - rest :: n in reachesSelf ==> !IsGateway(TypeOf(g, n))
      decreases rest
    {
      var n :| n in rest;
      if n in reachesSelf && IsGateway(TypeOf(g, n)) { return true; }
      rest := rest - {n};
    }
    return false;
  }

  /** The restart test at deployment. */
  method ChainStartRestartForked(g: ChainGraph) returns (forked: bool)
    ensures forked <==> g.startNodeId != NO_ID && GatewayBelow(g, g.startNodeId)
  {
    var start := g.startNodeId;
    if start == NO_ID { return false; }
    ghost var done := {};
    var visited, queue := {start}, [start];
    RegionClosed(g.fwd, start);
    RegionMeaning(g.fwd, start);
    while queue != []
      invariant start in visited && visited <= Region(g.fwd, start) && Explored(g.fwd, done, queue, visited)
      invariant forall n | n in done :: !IsGateway(TypeOf(g, n))
      decreases |Targets(g.fwd) - visited|, |queue|
    {
      var cur := queue[0];
      assert cur in Elems(queue);
      if IsGateway(TypeOf(g, cur)) { return true; }
      visited, queue := ExpandAny(g.fwd, done, Succ(g.fwd, cur), visited, queue);
      done := done + {cur};
    }
    ExploredAll(g.fwd, done, visited, start);
    return false;
  }

  /** The restart test at run time. */
  method RejectRestartTouchesGateway(g: ChainGraph, start: Id) returns (touches: bool)
    ensures touches <==> start != NO_ID && GatewayBelow(g, start)
  {
    if start == NO_ID { return false; }
    var below := BfsSet(g.fwd, start);
    touches := AnyGateway(g, below);
    RegionMeaning(g.fwd, start);
  }

  // ---- Which tasks a jump clears ----

  /** An approval node that a jump from self back to target can enter again before self. */
  ghost predicate Reentered(g: ChainGraph, target: Id, self: Id, n: Id) {
    && n != NO_ID && TypeOf(g, n) == UserTask
    && (n == target || n == self || (target != NO_ID && self != NO_ID && OnWalk(g.fwd, target, self, n)))
  }

  /** The closure `add`: remember a user task once. */
  method Add(g: ChainGraph, n: Id, seen: set<Id>, out: seq<Id>) returns (seen': set<Id>, out': seq<Id>)
    requires NoDup(out) && Elems(out) == seen
    ensures NoDup(out') && Elems(out') == seen'
    ensures seen' == if n != NO_ID && TypeOf(g, n) == UserTask then seen + {n} else seen
    ensures out == [] ==> out' == [] || out' == [n]
    ensures out != [] ==> out' != [] && out'[0] == out[0]
  {
    seen', out' := seen, out;
    if n == NO_ID || n in seen || TypeOf(g, n) != UserTask { return; }
    assert n !in Elems(out);
    seen', out' := seen + {n}, out + [n];
    assert Elems(out') == Elems(out) + {n};
  }

  /** The loop over the first region, in any order. */
  method AddCommon(g: ChainGraph, region: set<Id>, reachesSelf: set<Id>, seen: set<Id>, out: seq<Id>) returns (out': seq<Id>)
    requires NoDup(out) && Elems(out) == seen
    ensures NoDup(out') && (out != [] ==> out' != [] && out'[0] == out[0])
    ensures Elems(out') == seen + (set n | n in region && n in reachesSelf && n != NO_ID && TypeOf(g, n) == UserTask)
  {
    var rest, seen' := region, seen;
    out' := out;
    while rest != {}
      invariant rest <= region && NoDup(out') && Elems(out') == seen' && (out != [] ==> out' != [] && out'[0] == out[0])
      invariant seen' == seen + set n | n in region && n !in rest && n in reachesSelf && n != NO_ID && TypeOf(g, n) == UserTask
      decreases rest
    {
      var n :| n in rest;
      if n in reachesSelf { seen', out' := Add(g, n, seen', out'); }
      rest := rest - {n};
    }
  }

  /** Each approval node that can be entered again, once, in an order that starts with target and self. */
  method RejectResetNodes(g: ChainGraph, target: Id, self: Id) returns (out: seq<Id>)
    requires Converse(g.fwd, g.bwd)
    ensures NoDup(out) && forall n :: n in out <==> Reentered(g, target, self, n)
    ensures target != NO_ID && TypeOf(g, target) == UserTask ==> out != [] && out[0] == target
  {
    var reachableFromTarget := BfsSet(g.fwd, target);
    var reachesSelf := BfsSet(g.bwd, self);
    RegionsMeet(g, target, self);
    var seen: set<Id>;
    seen, out := Add(g, target, {}, []);
    assert seen == {target} ==> out == [target];
    seen, out := Add(g, self, seen, out);
    out := AddCommon(g, reachableFromTarget, reachesSelf, seen, out);
    forall n ensures n in out <==> Reentered(g, target, self, n) { assert n in out <==> n in Elems(out); }
  }

  // ---- The rollback target ----

  /** Strategy names are compared after trimming on both sides; an unknown name is any other text. */
  datatype Strategy = Terminate | ToStarter | ToPrev | ToNode | Unknown

  datatype Reject = Reject(strategy: Strategy, target: string)

  predicate IsStart(t: NodeType) {
    t == Start || t == StartTask
  }

  /** The first member that satisfies the test of either kind, or `NO_ID`. */
  function FirstUserTask(g: ChainGraph, ids: seq<Id>): Id {
    if ids == [] then NO_ID else if TypeOf(g, ids[0]) == UserTask then ids[0] else FirstUserTask(g, ids[1..])
  }

  /** The first predecessor that is no start node, and whether one was found; unnamed ones may be skipped. */
  function FirstOther(g: ChainGraph, ids: seq<Id>, skipUnnamed: bool): Id {
    if ids == [] then NO_ID
    else if !IsStart(TypeOf(g, ids[0])) && !(skipUnnamed && ids[0] == NO_ID) then ids[0]
    else FirstOther(g, ids[1..], skipUnnamed)
  }

  predicate SomeUserTask(g: ChainGraph, ids: seq<Id>) {
    exists n :: n in ids && TypeOf(g, n) == UserTask
  }

  /** The previous node: a direct predecessor that is a user task, or else the first one that is no start node. */
  function Previous(g: ChainGraph, self: Id, skipUnnamed: bool): Id {
    if SomeUserTask(g, Succ(g.bwd, self)) then FirstUserTask(g, Succ(g.bwd, self))
    else FirstOther(g, Succ(g.bwd, self), skipUnnamed)
  }

  lemma {:induction false} FirstUserTaskIs(g: ChainGraph, ids: seq<Id>)
    requires SomeUserTask(g, ids)
    ensures FirstUserTask(g, ids) in ids && TypeOf(g, FirstUserTask(g, ids)) == UserTask
  {
    if TypeOf(g, ids[0]) != UserTask {
      FirstUserTaskIs(g, ids[1..]);
    }
  }

  /** `prevUserTaskNodeID` at deployment. */
  method PrevUserTaskNodeId(g: ChainGraph, self: Id) returns (prev: Id)
    ensures prev == Previous(g, self, false)
  {
    prev := FindPrevious(g, Succ(g.bwd, self), false);
  }

  /** `findPrevUserTaskNodeID` at run time: the connections are filtered first. */
  method FindPrevUserTaskNodeId(g: ChainGraph, conns: seq<Connection>, self: Id) returns (prev: Id)
    requires forall n :: Succ(g.bwd, n) == StartsTo(conns, n)
    ensures prev == Previous(g, self, true)
  {
    var upstream: seq<Id> := [];
    for i := 0 to |conns|
      invariant upstream == StartsTo(conns[..i], self)
    {
      assert conns[..i + 1] == conns[..i] + [conns[i]];
      if conns[i].toId == self { upstream := upstream + [conns[i].fromId]; }
    }
    assert conns[..|conns|] == conns;
    prev := FindPrevious(g, upstream, true);
  }

  method FindPrevious(g: ChainGraph, upstream: seq<Id>, skipUnnamed: bool) returns (prev: Id)
    ensures prev == if SomeUserTask(g, upstream) then FirstUserTask(g, upstream) else FirstOther(g, upstream, skipUnnamed)
  {
    for i := 0 to |upstream|
      invariant forall k | 0 <= k < i :: TypeOf(g, upstream[k]) != UserTask
      invariant FirstUserTask(g, upstream) == FirstUserTask(g, upstream[i..])
    {
      if TypeOf(g, upstream[i]) == UserTask {
        assert upstream[i] in upstream;
        return upstream[i];
      }
    }
    for i := 0 to |upstream|
      invariant FirstOther(g, upstream, skipUnnamed) == FirstOther(g, upstream[i..], skipUnnamed)
    {
      if skipUnnamed && upstream[i] == NO_ID { continue; }
      if !IsStart(TypeOf(g, upstream[i])) { return upstream[i]; }
    }
    return NO_ID;
  }

  /** Only start nodes stand before the first unnamed predecessor, and a node without a name is no start node. */
  ghost predicate StopsAtUnnamed(g: ChainGraph, ids: seq<Id>) {
    && !IsStart(TypeOf(g, NO_ID))
    && exists i :: 0 <= i < |ids| && ids[i] == NO_ID && StartsBefore(g, ids, i)
  }

  ghost predicate StartsBefore(g: ChainGraph, ids: seq<Id>, i: nat)
    requires i <= |ids|
  {
    forall k | 0 <= k < i :: IsStart(TypeOf(g, ids[k]))
  }

  ghost predicate HasNamedOther(g: ChainGraph, ids: seq<Id>) {
    exists n :: n in ids && n != NO_ID && !IsStart(TypeOf(g, n))
  }

  /** Deployment stops at an unnamed predecessor where run time goes on to a named one. */
  ghost predicate HidesPrevious(g: ChainGraph, self: Id) {
    var ids := Succ(g.bwd, self);
    !SomeUserTask(g, ids) && StopsAtUnnamed(g, ids) && HasNamedOther(g, ids)
  }

  lemma {:induction false} OthersAgree(g: ChainGraph, ids: seq<Id>)
    ensures FirstOther(g, ids, true) != NO_ID <==> HasNamedOther(g, ids)
    ensures FirstOther(g, ids, true) == FirstOther(g, ids, false) <==> !(StopsAtUnnamed(g, ids) && HasNamedOther(g, ids))
    ensures StopsAtUnnamed(g, ids) ==> FirstOther(g, ids, false) == NO_ID
  {
    if ids != [] {
      var rest := ids[1..];
      OthersAgree(g, rest);
      assert forall n :: n in ids <==> n == ids[0] || n in rest;
      if IsStart(TypeOf(g, ids[0])) {
        if StopsAtUnnamed(g, ids) {
          var i :| 0 <= i < |ids| && ids[i] == NO_ID && StartsBefore(g, ids, i);
          assert rest[i - 1] == NO_ID && StartsBefore(g, rest, i - 1);
        }
        if StopsAtUnnamed(g, rest) {
          var i :| 0 <= i < |rest| && rest[i] == NO_ID && StartsBefore(g, rest, i);
          assert ids[i + 1] == NO_ID && StartsBefore(g, ids, i + 1);
        }
      } else if ids[0] == NO_ID {
        assert StartsBefore(g, ids, 0);
      }
    }
  }

  /** Both sides name the same previous node, except where deployment stops at an unnamed one. */
  lemma PreviousAgree(g: ChainGraph, self: Id)
    ensures Previous(g, self, false) == Previous(g, self, true) <==> !HidesPrevious(g, self)
    ensures HidesPrevious(g, self) ==> Previous(g, self, false) == NO_ID
    ensures NO_ID !in Succ(g.bwd, self) ==> !HidesPrevious(g, self)
  {
    OthersAgree(g, Succ(g.bwd, self));
  }

  // ---- Deployment ----

  datatype Issue = TargetRequired | RestartForked | TargetMissing | NotUpstream | RegionForked

  /** The target to check, found in the definition as it is deployed; `None` when there is nothing to check. */
  function RollbackTarget(g: ChainGraph, self: Id, r: Reject): Option<Id> {
    var target := if r.strategy == ToNode then Id(TrimSpace(r.target))
                  else if r.strategy == ToPrev then Previous(g, self, false) else NO_ID;
    if target == NO_ID then None else Some(target)
  }

  /** The rollback part of the node check: the rollback stays on passed nodes and meets no gateway. */
  ghost predicate Acceptable(g: ChainGraph, self: Id, r: Reject) {
    && (r.strategy == ToNode ==> TrimSpace(r.target) != "")
    && (r.strategy == ToStarter ==> g.startNodeId == NO_ID || !GatewayBelow(g, g.startNodeId))
    && (RollbackTarget(g, self, r).Some? ==> SafeTarget(g, self, RollbackTarget(g, self, r).value))
  }

  ghost predicate SafeTarget(g: ChainGraph, self: Id, target: Id) {
    target in g.nodeIds && Reach(g.fwd, target, self) && !GatewayBetween(g, target, self)
  }

  /** `rejectRollbackTarget`. */
  method RejectRollbackTarget(g: ChainGraph, self: Id, r: Reject) returns (target: Option<Id>)
    ensures target == RollbackTarget(g, self, r)
  {
    match r.strategy {
      case ToNode => return if TrimSpace(r.target) != "" then Some(Id(TrimSpace(r.target))) else None;
      case ToPrev =>
        var prev := PrevUserTaskNodeId(g, self);
        return if prev != NO_ID then Some(prev) else None;
      case _ => return None;
    }
  }

  /** No issue is found exactly in an acceptable rollback. */
  method ValidateReject(g: ChainGraph, self: Id, r: Reject) returns (issues: seq<Issue>)
    requires Converse(g.fwd, g.bwd) && self != NO_ID
    ensures issues == [] <==> Acceptable(g, self, r)
    ensures TargetRequired in issues <==> r.strategy == ToNode && TrimSpace(r.target) == ""
    ensures RestartForked in issues <==> r.strategy == ToStarter && g.startNodeId != NO_ID && GatewayBelow(g, g.startNodeId)
    ensures |issues| <= 1
    ensures var target := RollbackTarget(g, self, r);
            && (TargetMissing in issues <==> target.Some? && target.value !in g.nodeIds)
            && (NotUpstream in issues <==> target.Some? && target.value in g.nodeIds && !Reach(g.fwd, target.value, self))
            && (RegionForked in issues <==> target.Some? && target.value in g.nodeIds && Reach(g.fwd, target.value, self)
                                            && GatewayBetween(g, target.value, self))
  {
    issues := [];
    if r.strategy == ToNode && TrimSpace(r.target) == "" { issues := issues + [TargetRequired]; }
    if r.strategy == ToStarter {
      var forked := ChainStartRestartForked(g);
      if forked { issues := issues + [RestartForked]; }
    } else {
      var target := RejectRollbackTarget(g, self, r);
      if target.Some? {
        if target.value !in g.nodeIds {
          issues := issues + [TargetMissing];
        } else {
          var upstream := UpstreamReachable(g, self, target.value);
          if !upstream {
            issues := issues + [NotUpstream];
          } else {
            var forked := RollbackRegionForked(g, target.value, self);
            if forked { issues := issues + [RegionForked]; }
          }
        }
      }
    }
  }

  // ---- Run time ----

  /** How a rejection goes on. A jump comes with the nodes whose tasks it clears. */
  datatype Course =
    | TerminateNow
    | CrossBranchDegrade
    | Fallback
    | Jump(target: Id, cleared: seq<Id>)

  /** `getStartNodeID`: an index out of range means the first node. */
  function StartNodeId(chain: Chain): Id {
    if FirstInRange(chain) then chain.nodes[chain.firstNodeIndex].id
    else if |chain.nodes| > 0 then chain.nodes[0].id else NO_ID
  }

  ghost predicate JumpsTo(g: ChainGraph, self: Id, target: Id, course: Course) {
    if target == NO_ID || target !in g.nodeIds then course == Fallback
    else course.Jump? && course.target == target && NoDup(course.cleared)
         && forall n :: n in course.cleared <==> Reentered(g, target, self, n)
  }

  /** What a rejection does, in terms of walks of the definition. */
  ghost predicate Follows(g: ChainGraph, chain: Chain, self: Id, r: Reject, course: Course) {
    match r.strategy
    case ToStarter =>
      if StartNodeId(chain) != NO_ID && GatewayBelow(g, StartNodeId(chain)) then course == CrossBranchDegrade
      else JumpsTo(g, self, StartNodeId(chain), course)
    case ToPrev =>
      var prev := Previous(g, self, true);
      if prev != NO_ID && GatewayBetween(g, prev, self) then course == CrossBranchDegrade else JumpsTo(g, self, prev, course)
    case ToNode =>
      if TrimSpace(r.target) == "" then course == Fallback
      else if GatewayBetween(g, Id(TrimSpace(r.target)), self) then course == CrossBranchDegrade
      else JumpsTo(g, self, Id(r.target), course)
    case _ => course == TerminateNow
  }

  // ---- One definition has one course ----

  /** Two views of one chain may differ as maps, but not in what they answer. */
  ghost predicate Alike(g: ChainGraph, h: ChainGraph) {
    && g.nodeIds == h.nodeIds && g.startNodeId == h.startNodeId && (forall n :: TypeOf(g, n) == TypeOf(h, n))
    && (forall n :: Succ(g.fwd, n) == Succ(h.fwd, n)) && (forall n :: Succ(g.bwd, n) == Succ(h.bwd, n))
  }

  lemma AlikeWalks(g: ChainGraph, h: ChainGraph, p: seq<Id>, a: Id, b: Id)
    requires Alike(g, h)
    ensures WalkFromTo(g.fwd, p, a, b) <==> WalkFromTo(h.fwd, p, a, b)
  {
  }

  lemma AlikeReach(g: ChainGraph, h: ChainGraph, a: Id, b: Id, n: Id)
    requires Alike(g, h)
    ensures Reach(g.fwd, a, b) ==> Reach(h.fwd, a, b)
    ensures OnWalk(g.fwd, a, b, n) ==> OnWalk(h.fwd, a, b, n)
  {
    if p :| WalkFromTo(g.fwd, p, a, b) { AlikeWalks(g, h, p, a, b); }
    if p :| WalkFromTo(g.fwd, p, a, b) && n in p { AlikeWalks(g, h, p, a, b); }
  }

  lemma AlikeGateways(g: ChainGraph, h: ChainGraph, a: Id, b: Id)
    requires Alike(g, h)
    ensures GatewayBetween(g, a, b) ==> GatewayBetween(h, a, b)
    ensures GatewayBelow(g, a) ==> GatewayBelow(h, a)
  {
    if n :| IsGateway(TypeOf(g, n)) && OnWalk(g.fwd, a, b, n) {
      AlikeReach(g, h, a, b, n);
      assert IsGateway(TypeOf(h, n));
    }
    if n :| IsGateway(TypeOf(g, n)) && Reach(g.fwd, a, n) {
      AlikeReach(g, h, a, n, n);
      assert IsGateway(TypeOf(h, n));
    }
  }

  lemma AlikeJumps(g: ChainGraph, h: ChainGraph, self: Id, target: Id, course: Course)
    requires Alike(g, h) && JumpsTo(g, self, target, course)
    ensures JumpsTo(h, self, target, course)
  {
    forall n ensures Reentered(g, target, self, n) <==> Reentered(h, target, self, n) {
      AlikeReach(g, h, target, self, n);
      AlikeReach(h, g, target, self, n);
    }
  }

  lemma {:induction false} AlikePrevious(g: ChainGraph, h: ChainGraph, ids: seq<Id>, skipUnnamed: bool)
    requires Alike(g, h)
    ensures FirstUserTask(g, ids) == FirstUserTask(h, ids) && FirstOther(g, ids, skipUnnamed) == FirstOther(h, ids, skipUnnamed)
  {
    if ids != [] { AlikePrevious(g, h, ids[1..], skipUnnamed); }
  }

  lemma SameCourse(g: ChainGraph, h: ChainGraph, chain: Chain, self: Id, r: Reject, course: Course)
    requires Views(g, chain) && Views(h, chain) && Follows(g, chain, self, r, course)
    ensures Follows(h, chain, self, r, course)
  {
    AlikePrevious(g, h, Succ(g.bwd, self), true);
    assert SomeUserTask(g, Succ(g.bwd, self)) <==> SomeUserTask(h, Succ(h.bwd, self));
    var target := if r.strategy == ToStarter then StartNodeId(chain)
                  else if r.strategy == ToPrev then Previous(g, self, true) else Id(r.target);
    var tested := if r.strategy == ToNode then Id(TrimSpace(r.target)) else target;
    AlikeGateways(g, h, tested, self);
    AlikeGateways(h, g, tested, self);
    if JumpsTo(g, self, target, course) { AlikeJumps(g, h, self, target, course); }
  }

  /** `jumpToNode`, where a missing target falls back and the region is cleared before the jump. */
  method JumpToNode(g: ChainGraph, chain: Chain, self: Id, target: Id) returns (course: Course)
    requires Views(g, chain) && target != NO_ID
    ensures JumpsTo(g, self, target, course)
  {
    ViewsConverse(g, chain);
    for i := 0 to |chain.nodes|
      invariant forall k | 0 <= k < i :: chain.nodes[k].id != target
    {
      if chain.nodes[i].id == target {
        assert chain.nodes[i] in chain.nodes;
        var cleared := RejectResetNodes(g, target, self);
        return Jump(target, cleared);
      }
    }
    return Fallback;
  }

  method HandleRejection(chain: Chain, self: Id, r: Reject) returns (course: Course)
    requires self != NO_ID
    ensures forall g | Views(g, chain) :: Follows(g, chain, self, r, course)
  {
    var graph := BuildChainGraph(chain);
    course := Handle(graph, chain, self, r);
    forall g | Views(g, chain) ensures Follows(g, chain, self, r, course) { SameCourse(graph, g, chain, self, r, course); }
  }

  method Handle(graph: ChainGraph, chain: Chain, self: Id, r: Reject) returns (course: Course)
    requires self != NO_ID && Views(graph, chain)
    ensures Follows(graph, chain, self, r, course)
  {
    ViewsConverse(graph, chain);
    match r.strategy {
      case ToStarter =>
        var start := StartNodeId(chain);
        var touches := RejectRestartTouchesGateway(graph, start);
        if touches { return CrossBranchDegrade; }
        if start == NO_ID { return Fallback; }
        course := JumpToNode(graph, chain, self, start);
      case ToPrev =>
        var prev := FindPrevUserTaskNodeId(graph, chain.connections, self);
        var crosses := RejectRegionCrossesParallel(graph, prev, self);
        if crosses { return CrossBranchDegrade; }
        if prev == NO_ID { return Fallback; }
        course := JumpToNode(graph, chain, self, prev);
      case ToNode =>
        if TrimSpace(r.target) == "" { return Fallback; }
        var crosses := RejectRegionCrossesParallel(graph, Id(TrimSpace(r.target)), self);
        if crosses { return CrossBranchDegrade; }
        course := JumpToNode(graph, chain, self, Id(r.target));
      case _ =>
        course := TerminateNow;
    }
  }

  // ---- Where a rejection leads ----

  /** The connection at i leads to self from a user task. */
  predicate FromApproval(nodes: seq<Node>, conns: seq<Connection>, self: Id, i: nat)
    requires i < |conns|
  {
    conns[i].toId == self && TypeIn(nodes, conns[i].fromId) == UserTask
  }

  /** The connection at i leads to self from a named node other than a start node. */
  predicate FromNamed(nodes: seq<Node>, conns: seq<Connection>, self: Id, i: nat)
    requires i < |conns|
  {
    conns[i].toId == self && conns[i].fromId != NO_ID && TypeIn(nodes, conns[i].fromId) !in {Start, StartTask}
  }

  predicate NoApproval(nodes: seq<Node>, conns: seq<Connection>, self: Id) {
    forall k: nat | k < |conns| :: !FromApproval(nodes, conns, self, k)
  }

  predicate NoNamed(nodes: seq<Node>, conns: seq<Connection>, self: Id) {
    forall k: nat | k < |conns| :: !FromNamed(nodes, conns, self, k)
  }

  lemma ApprovalIsListed(g: ChainGraph, nodes: seq<Node>, conns: seq<Connection>, self: Id)
    requires forall n :: TypeOf(g, n) == TypeIn(nodes, n)
    ensures SomeUserTask(g, StartsTo(conns, self)) <==> !NoApproval(nodes, conns, self)
  {
    if n :| n in StartsTo(conns, self) && TypeOf(g, n) == UserTask {
      EndsAre(conns, n, self);
      var c :| c in conns && c.fromId == n && c.toId == self;
      var k: nat :| k < |conns| && conns[k] == c;
      assert FromApproval(nodes, conns, self, k);
    }
    if k: nat :| k < |conns| && FromApproval(nodes, conns, self, k) {
      EndsAre(conns, conns[k].fromId, self);
      assert conns[k] in conns;
    }
  }

  lemma NamedIsListed(g: ChainGraph, nodes: seq<Node>, conns: seq<Connection>, self: Id)
    requires forall n :: TypeOf(g, n) == TypeIn(nodes, n)
    ensures FirstOther(g, StartsTo(conns, self), true) != NO_ID <==> !NoNamed(nodes, conns, self)
  {
    OthersAgree(g, StartsTo(conns, self));
    if n :| n in StartsTo(conns, self) && n != NO_ID && !IsStart(TypeOf(g, n)) {
      EndsAre(conns, n, self);
      var c :| c in conns && c.fromId == n && c.toId == self;
      var k: nat :| k < |conns| && conns[k] == c;
      assert FromNamed(nodes, conns, self, k);
    }
    if k: nat :| k < |conns| && FromNamed(nodes, conns, self, k) {
      EndsAre(conns, conns[k].fromId, self);
      assert conns[k] in conns;
    }
  }

  lemma {:induction false} FirstUserTaskSnoc(g: ChainGraph, ids: seq<Id>, x: Id)
    ensures SomeUserTask(g, ids + [x]) <==> SomeUserTask(g, ids) || TypeOf(g, x) == UserTask
    ensures FirstUserTask(g, ids + [x]) ==
            if SomeUserTask(g, ids) then FirstUserTask(g, ids) else if TypeOf(g, x) == UserTask then x else NO_ID
  {
    assert x in ids + [x] && forall y :: y in ids + [x] <==> y in ids || y == x;
    if ids != [] {
      assert (ids + [x])[1..] == ids[1..] + [x] && forall y :: y in ids <==> y == ids[0] || y in ids[1..];
      FirstUserTaskSnoc(g, ids[1..], x);
    }
  }

  lemma {:induction false} FirstOtherSnoc(g: ChainGraph, ids: seq<Id>, x: Id)
    ensures FirstOther(g, ids + [x], true) ==
            if FirstOther(g, ids, true) != NO_ID then FirstOther(g, ids, true)
            else if x != NO_ID && !IsStart(TypeOf(g, x)) then x else NO_ID
  {
    if ids != [] {
      assert (ids + [x])[1..] == ids[1..] + [x];
      FirstOtherSnoc(g, ids[1..], x);
    }
  }

  lemma StartsSnoc(conns: seq<Connection>, self: Id)
    requires conns != []
    ensures var front, c := conns[..|conns| - 1], conns[|conns| - 1];
            StartsTo(conns, self) == if c.toId == self then StartsTo(front, self) + [c.fromId] else StartsTo(front, self)
  {
    assert StartsTo(conns[..|conns| - 1], self) + [] == StartsTo(conns[..|conns| - 1], self);
  }

  /** The first approval in the list of predecessors is the one of the first connection from an approval. */
  lemma {:induction false} ApprovalByConnection(g: ChainGraph, nodes: seq<Node>, conns: seq<Connection>, self: Id, i: nat)
    requires forall n :: TypeOf(g, n) == TypeIn(nodes, n)
    requires i < |conns| && FromApproval(nodes, conns, self, i) && NoApproval(nodes, conns[..i], self)
    ensures FirstUserTask(g, StartsTo(conns, self)) == conns[i].fromId
    decreases |conns|
  {
    var n := |conns| - 1;
    var front, x := conns[..n], conns[n].fromId;
    var ids := StartsTo(front, self);
    StartsSnoc(conns, self);
    ApprovalIsListed(g, nodes, front, self);
    if i < n {
      assert front[..i] == conns[..i] && FromApproval(nodes, front, self, i);
      ApprovalByConnection(g, nodes, front, self, i);
      FirstUserTaskKept(g, ids, x);
    } else {
      assert front == conns[..i];
      FirstUserTaskLast(g, ids, x);
    }
  }

  lemma FirstUserTaskKept(g: ChainGraph, ids: seq<Id>, x: Id)
    requires SomeUserTask(g, ids)
    ensures FirstUserTask(g, ids + [x]) == FirstUserTask(g, ids)
  {
    FirstUserTaskSnoc(g, ids, x);
  }

  lemma FirstUserTaskLast(g: ChainGraph, ids: seq<Id>, x: Id)
    requires !SomeUserTask(g, ids) && TypeOf(g, x) == UserTask
    ensures FirstUserTask(g, ids + [x]) == x
  {
    FirstUserTaskSnoc(g, ids, x);
  }

  /** The same for the first named predecessor that is no start node. */
  lemma {:induction false} NamedByConnection(g: ChainGraph, nodes: seq<Node>, conns: seq<Connection>, self: Id, i: nat)
    requires forall n :: TypeOf(g, n) == TypeIn(nodes, n)
    requires i < |conns| && FromNamed(nodes, conns, self, i) && NoNamed(nodes, conns[..i], self)
    ensures FirstOther(g, StartsTo(conns, self), true) == conns[i].fromId
    decreases |conns|
  {
    var n := |conns| - 1;
    var front := conns[..n];
    StartsSnoc(conns, self);
    NamedIsListed(g, nodes, front, self);
    FirstOtherSnoc(g, StartsTo(front, self), conns[n].fromId);
    if i < n {
      assert front[..i] == conns[..i] && FromNamed(nodes, front, self, i);
      NamedByConnection(g, nodes, front, self, i);
    }
  }

  /** The rejection leads to the target and clears the approvals on the way back, unless a gateway is met or the target is not listed. */
  ghost predicate LandsOn(g: ChainGraph, chain: Chain, self: Id, target: Id, gateway: bool, course: Course) {
    if gateway then course == CrossBranchDegrade
    else if target == NO_ID || !IsListed(chain.nodes, target) then course == Fallback
    else course.Jump? && course.target == target && NoDup(course.cleared)
         && forall n :: n in course.cleared <==>
              n != NO_ID && TypeOf(g, n) == UserTask && (n == target || n == self || OnWalk(g.fwd, target, self, n))
  }

  /**
   Where a toPrev rejection leads: to the first approval among the direct predecessors, in the order of the
   connections; without one to the first named predecessor that is no start node; otherwise it falls back.
   */
  lemma ToPrevLands(g: ChainGraph, chain: Chain, self: Id, r: Reject, course: Course)
    requires Views(g, chain) && self != NO_ID && r.strategy == ToPrev && Follows(g, chain, self, r, course)
    ensures var nodes, conns := chain.nodes, chain.connections;
            && (forall i: nat | i < |conns| && FromApproval(nodes, conns, self, i) && NoApproval(nodes, conns[..i], self)
                                && conns[i].fromId != NO_ID ::
                  LandsOn(g, chain, self, conns[i].fromId, GatewayBetween(g, conns[i].fromId, self), course))
            && (forall i: nat | i < |conns| && NoApproval(nodes, conns, self) && FromNamed(nodes, conns, self, i)
                                && NoNamed(nodes, conns[..i], self) ::
                  LandsOn(g, chain, self, conns[i].fromId, GatewayBetween(g, conns[i].fromId, self), course))
            && (NoApproval(nodes, conns, self) && NoNamed(nodes, conns, self) ==> course == Fallback)
  {
    var nodes, conns := chain.nodes, chain.connections;
    ApprovalIsListed(g, nodes, conns, self);
    NamedIsListed(g, nodes, conns, self);
    forall i: nat | i < |conns| && FromApproval(nodes, conns, self, i) && NoApproval(nodes, conns[..i], self)
      ensures Previous(g, self, true) == conns[i].fromId
    {
      ApprovalByConnection(g, nodes, conns, self, i);
    }
    forall i: nat | i < |conns| && NoApproval(nodes, conns, self) && FromNamed(nodes, conns, self, i) && NoNamed(nodes, conns[..i], self)
      ensures Previous(g, self, true) == conns[i].fromId
    {
      NamedByConnection(g, nodes, conns, self, i);
    }
  }

  /**
   Where the other rejections lead: toStarter to the node at the start index or else to the first node, toNode to
   the node named by the target; any other strategy terminates.
   */
  lemma OthersLand(g: ChainGraph, chain: Chain, self: Id, r: Reject, course: Course)
    requires Views(g, chain) && self != NO_ID && r.strategy != ToPrev && Follows(g, chain, self, r, course)
    ensures r.strategy == ToStarter && chain.nodes != [] ==>
              var start := chain.nodes[if 0 <= chain.firstNodeIndex < |chain.nodes| then chain.firstNodeIndex else 0].id;
              LandsOn(g, chain, self, start, start != NO_ID && GatewayBelow(g, start), course)
    ensures r.strategy == ToStarter && chain.nodes == [] ==> course == Fallback
    ensures r.strategy == ToNode ==>
              if TrimSpace(r.target) == "" then course == Fallback
              else LandsOn(g, chain, self, Id(r.target), GatewayBetween(g, Id(TrimSpace(r.target)), self), course)
    ensures r.strategy == Terminate || r.strategy == Unknown ==> course == TerminateNow
  {
  }

  // ---- Deployment and run time together ----

  /** An accepted jump to a named node is never degraded for crossing branches. */
  lemma AcceptedToNode(g: ChainGraph, chain: Chain, self: Id, r: Reject, course: Course)
    requires Views(g, chain) && self != NO_ID && r.strategy == ToNode
    requires Acceptable(g, self, r) && Follows(g, chain, self, r, course)
    ensures course != CrossBranchDegrade
    ensures course.Jump? && course.target == Id(TrimSpace(r.target)) <==> r.target == TrimSpace(r.target)
    ensures r.target != TrimSpace(r.target) && Id(r.target) !in g.nodeIds ==> course == Fallback
  {
    if r.target == TrimSpace(r.target) {
      assert Id(r.target) in g.nodeIds && Id(r.target) != NO_ID;
    }
  }

  /** The same for the previous node; the exception is a previous node that deployment did not see. */
  lemma AcceptedToPrev(g: ChainGraph, chain: Chain, self: Id, r: Reject, course: Course)
    requires Views(g, chain) && self != NO_ID && r.strategy == ToPrev
    requires Acceptable(g, self, r) && Follows(g, chain, self, r, course)
    ensures course == CrossBranchDegrade <==> HidesPrevious(g, self) && GatewayBetween(g, Previous(g, self, true), self)
    ensures NO_ID !in Succ(g.bwd, self) ==> course != CrossBranchDegrade
  {
    PreviousAgree(g, self);
  }

  /** The same for the start node; the exception is a start index out of range, where run time restarts the first node. */
  lemma AcceptedToStarter(g: ChainGraph, chain: Chain, self: Id, r: Reject, course: Course)
    requires Views(g, chain) && self != NO_ID && r.strategy == ToStarter
    requires Acceptable(g, self, r) && Follows(g, chain, self, r, course)
    ensures course == CrossBranchDegrade <==>
              !FirstInRange(chain) && |chain.nodes| > 0 && chain.nodes[0].id != NO_ID && GatewayBelow(g, chain.nodes[0].id)
  {
  }

  /**
   What deployment accepts never takes the degrade path, for a chain whose start index is in range and a node
   whose predecessors all have names.
   */
  lemma AcceptedNeverDegrades(g: ChainGraph, chain: Chain, self: Id, r: Reject, course: Course)
    requires Views(g, chain) && self != NO_ID && FirstInRange(chain) && NO_ID !in Succ(g.bwd, self)
    requires Acceptable(g, self, r) && Follows(g, chain, self, r, course)
    ensures course != CrossBranchDegrade
  {
    match r.strategy {
      case ToNode => AcceptedToNode(g, chain, self, r, course);
      case ToPrev => AcceptedToPrev(g, chain, self, r, course);
      case ToStarter => AcceptedToStarter(g, chain, self, r, course);
      case _ =>
    }
  }

  /** A definition with two approvals in a row, whose first one is called a. */
  function TwoApprovals(start: Id, self: Id): Chain {
    Chain([Node(start, StartTask, false), Node(Id("a"), UserTask, false), Node(self, UserTask, false)],
          [Connection(start, Id("a"), "Success"), Connection(Id("a"), self, "Success")], 0)
  }

  lemma BlanksTrimmed()
    ensures TrimSpace(" a ") == "a"
  {
    assert " a "[1..] == "a " && "a "[..1] == "a";
    assert TrimLeft(" a ") == TrimLeft("a ") == "a ";
    assert TrimRight("a ") == TrimRight("a") == "a";
  }

  lemma FirstApprovalSafe(g: ChainGraph, start: Id, self: Id)
    requires Views(g, TwoApprovals(start, self))
    ensures SafeTarget(g, self, Id("a"))
  {
    var chain, a := TwoApprovals(start, self), Id("a");
    EndsAre(chain.connections, a, self);
    assert chain.connections[1] in chain.connections && chain.nodes[1] in chain.nodes;
    ReachRefl(g.fwd, a);
    ReachStep(g.fwd, a, a, self);
    NoGateways(g, chain, a, self);
  }

  /** The target " a " with its blanks: the rollback to a is accepted, and the rejection falls back instead of jumping. */
  lemma UntrimmedFallsBack(start: Id, self: Id)
    requires start != Id(" a ") && self != Id(" a ")
    ensures forall g | Views(g, TwoApprovals(start, self)) ::
              && Acceptable(g, self, Reject(ToNode, " a "))
              && Follows(g, TwoApprovals(start, self), self, Reject(ToNode, " a "), Fallback)
  {
    BlanksTrimmed();
    assert Id(" a ") != Id("a") by { assert |" a "| != |"a"|; }
    forall g | Views(g, TwoApprovals(start, self)) ensures SafeTarget(g, self, Id("a")) && Id(" a ") !in g.nodeIds {
      FirstApprovalSafe(g, start, self);
    }
  }

  /** Where no listed node is a gateway, none lies between two nodes. */
  lemma NoGateways(g: ChainGraph, chain: Chain, a: Id, b: Id)
    requires Views(g, chain) && forall x | x in chain.nodes :: !IsGateway(x.typ)
    ensures !GatewayBetween(g, a, b)
  {
    forall n ensures !IsGateway(TypeOf(g, n)) { TypeListed(chain.nodes, n); }
  }

  lemma {:induction false} TypeListed(nodes: seq<Node>, n: Id)
    ensures TypeIn(nodes, n) == Other("") || exists x :: x in nodes && x.typ == TypeIn(nodes, n)
  {
    if nodes != [] {
      var front, x := nodes[..|nodes| - 1], nodes[|nodes| - 1];
      TypeListed(front, n);
      assert x in nodes && forall y | y in front :: y in nodes;
    }
  }

  /** A chain whose start index is out of range is accepted, and its rejections degrade all the same. */
  lemma UncheckedRestart(start: Id, fork: Id, self: Id)
    requires start != NO_ID && start != fork && start != self && fork != self && self != NO_ID
    ensures var chain := Chain([Node(start, StartTask, false), Node(fork, Fork, false), Node(self, UserTask, false)],
                               [Connection(start, fork, "Success"), Connection(fork, self, "Success")], 3);
            forall g | Views(g, chain) ::
              Acceptable(g, self, Reject(ToStarter, "")) && Follows(g, chain, self, Reject(ToStarter, ""), CrossBranchDegrade)
  {
    var chain := Chain([Node(start, StartTask, false), Node(fork, Fork, false), Node(self, UserTask, false)],
                       [Connection(start, fork, "Success"), Connection(fork, self, "Success")], 3);
    forall g | Views(g, chain) ensures GatewayBelow(g, start) {
      EndsAre(chain.connections, start, fork);
      assert Connection(start, fork, "Success") in chain.connections;
      ReachRefl(g.fwd, start);
      ReachStep(g.fwd, start, start, fork);
      assert chain.nodes[..2] == [Node(start, StartTask, false), Node(fork, Fork, false)];
      assert TypeIn(chain.nodes[..2], fork) == Fork;
    }
  }

  /** A start, a fork and an approval node in a row, and a connection to the approval node that starts nowhere. */
  function Dangling(start: Id, fork: Id, self: Id): Chain {
    Chain([Node(start, StartTask, false), Node(fork, Fork, false), Node(self, UserTask, false)],
          [Connection(NO_ID, self, "Success"), Connection(start, fork, "Success"), Connection(fork, self, "Success")], 0)
  }

  lemma DanglingTypes(start: Id, fork: Id, self: Id)
    requires start != NO_ID && fork != NO_ID && self != NO_ID && fork != self
    ensures var nodes := Dangling(start, fork, self).nodes;
            TypeIn(nodes, NO_ID) == Other("") && TypeIn(nodes, fork) == Fork
  {
    var nodes := Dangling(start, fork, self).nodes;
    assert nodes[..2][..1] == nodes[..1] && nodes[..1][..0] == [];
    assert TypeIn(nodes[..1], NO_ID) == Other("");
    assert TypeIn(nodes[..2], NO_ID) == Other("");
    assert TypeIn(nodes[..2], fork) == Fork;
  }

  lemma DanglingStarts(start: Id, fork: Id, self: Id)
    requires fork != self
    ensures StartsTo(Dangling(start, fork, self).connections, self) == [NO_ID, fork]
  {
    var conns := Dangling(start, fork, self).connections;
    assert conns[..2][..1] == conns[..1] && conns[..1][..0] == [];
    assert StartsTo(conns[..1], self) == [NO_ID];
    assert StartsTo(conns[..2], self) == [NO_ID];
  }

  /** A gateway as the only named predecessor, behind an unnamed one. */
  lemma HiddenGateway(g: ChainGraph, fork: Id, self: Id)
    requires Succ(g.bwd, self) == [NO_ID, fork] && self in Succ(g.fwd, fork) && fork != NO_ID
    requires TypeOf(g, NO_ID) == Other("") && TypeOf(g, fork) == Fork
    ensures HidesPrevious(g, self) && Previous(g, self, true) == fork && GatewayBetween(g, fork, self)
  {
    var ids := Succ(g.bwd, self);
    assert StartsBefore(g, ids, 0) && ids[0] == NO_ID && ids[1] == fork && fork in ids;
    assert ids[1..] == [fork];
    assert FirstOther(g, [fork], true) == fork;
    assert WalkFromTo(g.fwd, [fork, self], fork, self) && fork in [fork, self];
    assert OnWalk(g.fwd, fork, self, fork);
  }

  /** A connection that starts nowhere hides the previous node: the rollback is accepted, and degrades all the same. */
  lemma UnnamedHidesGateway(start: Id, fork: Id, self: Id)
    requires start != NO_ID && fork != NO_ID && self != NO_ID && fork != self
    ensures forall g | Views(g, Dangling(start, fork, self)) ::
              && Acceptable(g, self, Reject(ToPrev, ""))
              && Follows(g, Dangling(start, fork, self), self, Reject(ToPrev, ""), CrossBranchDegrade)
  {
    var chain := Dangling(start, fork, self);
    DanglingTypes(start, fork, self);
    DanglingStarts(start, fork, self);
    EndsAre(chain.connections, fork, self);
    assert chain.connections[2] in chain.connections;
    forall g | Views(g, chain)
      ensures Acceptable(g, self, Reject(ToPrev, "")) && Follows(g, chain, self, Reject(ToPrev, ""), CrossBranchDegrade)
    {
      HiddenGateway(g, fork, self);
      PreviousAgree(g, self);
    }
  }

  /** A jump that is taken clears every approval node it can pass again on the way back to self, and no other. */
  lemma JumpClearsItsWalks(g: ChainGraph, self: Id, target: Id, course: Course)
    requires self != NO_ID && target != NO_ID && target in g.nodeIds && JumpsTo(g, self, target, course) && Reach(g.fwd, target, self)
    ensures forall n :: n in course.cleared <==> n != NO_ID && TypeOf(g, n) == UserTask && OnWalk(g.fwd, target, self, n)
  {
    OnWalkIsBetween(g.fwd, target, self, target);
    OnWalkIsBetween(g.fwd, target, self, self);
    ReachRefl(g.fwd, target);
    ReachRefl(g.fwd, self);
  }
}
