/**
 The two passes over a definition before it is stored (`model/model_func.go`): a missing end node is added and
 connected, then every non-exhaustive gateway gets a Default edge.
 */
module Normalise {
  import opened Text
  import opened Definitions
  import opened Walks
  import opened ChainGraphs
  import opened CycleCheck

  // ---- Names of the end node ----

  /** The i-th name tried: "node_end", "node_end_1", "node_end_2" and so on. */
  function EndName(i: nat): Id {
    Id(if i == 0 then "node_end" else "node_end_" + Decimal(i))
  }

  lemma EndNameInjective(i: nat, j: nat)
    requires EndName(i) == EndName(j)
    ensures i == j
  {
    var a, b := EndName(i).name, EndName(j).name;
    assert i > 0 ==> |a| > 8;
    assert j > 0 ==> |b| > 8;
    if i > 0 && j > 0 {
      assert a[9..] == Decimal(i) && b[9..] == Decimal(j);
      DecimalInjective(i, j);
    }
  }

  function NodeIds(nodes: seq<Node>): set<Id> {
    set x | x in nodes :: x.id
  }

  ghost function Tried(i: nat): set<Id> {
    if i == 0 then {} else Tried(i - 1) + {EndName(i - 1)}
  }

  lemma {:induction false} TriedIndex(i: nat, id: Id) returns (k: nat)
    requires id in Tried(i)
    ensures k < i && id == EndName(k)
  {
    if id == EndName(i - 1) { k := i - 1; } else { k := TriedIndex(i - 1, id); }
  }

  lemma {:induction false} TriedSize(i: nat)
    ensures |Tried(i)| == i
  {
    if i > 0 {
      TriedSize(i - 1);
      if EndName(i - 1) in Tried(i - 1) {
        var k := TriedIndex(i - 1, EndName(i - 1));
        EndNameInjective(k, i - 1);
      }
    }
  }

  /** Distinct names that are all taken are no more than there are nodes. */
  lemma Pigeonhole(nodes: seq<Node>, i: nat)
    requires Tried(i) <= NodeIds(nodes)
    ensures i <= |nodes|
  {
    TriedSize(i);
    SubsetSize(Tried(i), NodeIds(nodes));
    IdsBound(nodes);
  }

  lemma {:induction false} IdsBound(nodes: seq<Node>)
    ensures |NodeIds(nodes)| <= |nodes|
  {
    if nodes != [] {
      IdsBound(nodes[1..]);
      assert NodeIds(nodes) == {nodes[0].id} + NodeIds(nodes[1..]);
    }
  }

  /** The first name no node has. */
  ghost predicate IsFree(nodes: seq<Node>, id: Id) {
    id !in NodeIds(nodes) && exists i: nat :: EndName(i) == id && Tried(i) <= NodeIds(nodes)
  }

  method IsTaken(nodes: seq<Node>, id: Id) returns (dup: bool)
    ensures dup <==> id in NodeIds(nodes)
  {
    for k := 0 to |nodes|
      invariant forall m | 0 <= m < k :: nodes[m].id != id
    {
      if nodes[k].id == id {
        assert nodes[k] in nodes;
        return true;
      }
    }
    return false;
  }

  method FreeEndName(nodes: seq<Node>) returns (id: Id)
    ensures IsFree(nodes, id)
  {
    var i := 0;
    id := EndName(0);
    while true
      invariant id == EndName(i) && Tried(i) <= NodeIds(nodes)
      decreases |nodes| - i
    {
      var dup := IsTaken(nodes, id);
      if !dup { return; }
      Pigeonhole(nodes, i + 1);
      i := i + 1;
      id := EndName(i);
    }
  }

  // ---- First pass ----

  predicate HasEnd(nodes: seq<Node>) {
    exists x :: x in nodes && x.typ == End
  }

  /** Some connection starts at a. */
  predicate Leaves(conns: seq<Connection>, a: Id) {
    exists c :: c in conns && c.fromId == a
  }

  /** Success edges to the end node from the nodes no connection starts at. */
  function Tails(nodes: seq<Node>, conns: seq<Connection>, end: Id): seq<Connection> {
    if nodes == [] then [] else
      var id := nodes[|nodes| - 1].id;
      Tails(nodes[..|nodes| - 1], conns, end)
      + if id == NO_ID || id == end || Leaves(conns, id) then [] else [Connection(id, end, "Success")]
  }

  /** The definition with the end node `end` added and connected. */
  function AddEnd(chain: Chain, end: Id): Chain {
    var nodes := chain.nodes + [Node(end, End, false)];
    chain.(nodes := nodes, connections := chain.connections + Tails(nodes, chain.connections, end))
  }

  ghost predicate EndEnsured(chain: Chain, chain': Chain) {
    if chain.nodes == [] || HasEnd(chain.nodes) then chain' == chain
    else exists end :: IsFree(chain.nodes, end) && chain' == AddEnd(chain, end)
  }

  method FindsEnd(nodes: seq<Node>) returns (hasEnd: bool)
    ensures hasEnd <==> HasEnd(nodes)
  {
    hasEnd := false;
    for i := 0 to |nodes|
      invariant hasEnd <==> HasEnd(nodes[..i])
    {
      assert nodes[..i + 1] == nodes[..i] + [nodes[i]];
      if nodes[i].typ == End { hasEnd := true; }
    }
    assert nodes[..|nodes|] == nodes;
  }

  method Sources(conns: seq<Connection>) returns (sources: set<Id>)
    ensures forall a :: a in sources <==> a != NO_ID && Leaves(conns, a)
  {
    sources := {};
    for i := 0 to |conns|
      invariant forall a :: a in sources <==> a != NO_ID && Leaves(conns[..i], a)
    {
      assert conns[..i + 1] == conns[..i] + [conns[i]];
      if conns[i].fromId != NO_ID { sources := sources + {conns[i].fromId}; }
    }
    assert conns[..|conns|] == conns;
  }

  method AddTails(nodes: seq<Node>, conns: seq<Connection>, sources: set<Id>, end: Id) returns (added: seq<Connection>)
    requires forall a :: a in sources <==> a != NO_ID && Leaves(conns, a)
    ensures added == conns + Tails(nodes, conns, end)
  {
    added := conns;
    for i := 0 to |nodes|
      invariant added == conns + Tails(nodes[..i], conns, end)
    {
      assert nodes[..i + 1][..i] == nodes[..i];
      var id := nodes[i].id;
      if id == NO_ID || id == end || id in sources { continue; }
      added := added + [Connection(id, end, "Success")];
    }
    assert nodes[..|nodes|] == nodes;
  }

  method EnsureEndNode(chain: Chain) returns (chain': Chain)
    ensures EndEnsured(chain, chain')
  {
    if chain.nodes == [] { return chain; }
    var hasEnd := FindsEnd(chain.nodes);
    var sources := Sources(chain.connections);
    if hasEnd { return chain; }
    var end := FreeEndName(chain.nodes);
    var nodes := chain.nodes + [Node(end, End, false)];
    var conns := AddTails(nodes, chain.connections, sources, end);
    chain' := chain.(nodes := nodes, connections := conns);
    assert chain' == AddEnd(chain, end);
  }

  // ---- Second pass ----

  predicate NeedsDefault(t: NodeType) {
    t == Switch || t == JsSwitch || t == MsgTypeSwitch || t == Inclusive
  }

  predicate HasDefault(conns: seq<Connection>, a: Id) {
    exists c :: c in conns && c.fromId == a && c.relation == "Default"
  }

  /** The end node listed last. */
  function LastEnd(nodes: seq<Node>): Id {
    if nodes == [] then NO_ID
    else if nodes[|nodes| - 1].typ == End then nodes[|nodes| - 1].id else LastEnd(nodes[..|nodes| - 1])
  }

  function Defaults(nodes: seq<Node>, conns: seq<Connection>, target: Id): seq<Connection> {
    if nodes == [] then [] else
      var x := nodes[|nodes| - 1];
      Defaults(nodes[..|nodes| - 1], conns, target)
      + if !NeedsDefault(x.typ) || x.id == NO_ID || HasDefault(conns, x.id) then [] else [Connection(x.id, target, "Default")]
  }

  function WithDefaults(chain: Chain): Chain {
    if !HasEnd(chain.nodes) then chain else
      chain.(connections := chain.connections + Defaults(chain.nodes, chain.connections, LastEnd(chain.nodes)))
  }

  /** The ids of the switches that need an edge, in node order, as the source lists them. */
  function SwitchIds(nodes: seq<Node>): seq<Id> {
    if nodes == [] then [] else
      var x := nodes[|nodes| - 1];
      SwitchIds(nodes[..|nodes| - 1]) + if NeedsDefault(x.typ) then [x.id] else []
  }

  function DefaultEdges(ids: seq<Id>, conns: seq<Connection>, target: Id): seq<Connection> {
    if ids == [] then [] else
      var id := ids[|ids| - 1];
      DefaultEdges(ids[..|ids| - 1], conns, target)
      + if id == NO_ID || HasDefault(conns, id) then [] else [Connection(id, target, "Default")]
  }

  lemma {:induction false} DefaultEdgesAre(nodes: seq<Node>, conns: seq<Connection>, target: Id)
    ensures DefaultEdges(SwitchIds(nodes), conns, target) == Defaults(nodes, conns, target)
  {
    if nodes != [] {
      var front, x := nodes[..|nodes| - 1], nodes[|nodes| - 1];
      DefaultEdgesAre(front, conns, target);
      var ids := SwitchIds(front);
      if NeedsDefault(x.typ) {
        assert (ids + [x.id])[..|ids|] == ids;
      } else {
        assert SwitchIds(nodes) == ids + [] == ids;
      }
    }
  }

  lemma SwitchNext(nodes: seq<Node>, i: nat)
    requires i < |nodes|
    ensures SwitchIds(nodes[..i + 1]) == SwitchIds(nodes[..i]) + if NeedsDefault(nodes[i].typ) then [nodes[i].id] else []
    ensures LastEnd(nodes[..i + 1]) == if nodes[i].typ == End then nodes[i].id else LastEnd(nodes[..i])
    ensures HasEnd(nodes[..i + 1]) <==> HasEnd(nodes[..i]) || nodes[i].typ == End
  {
    var s, front := nodes[..i + 1], nodes[..i];
    assert s[..|s| - 1] == front && s[|s| - 1] == nodes[i];
    assert s == front + [nodes[i]];
  }

  method ListSwitches(nodes: seq<Node>) returns (switchIds: seq<Id>, target: Id, hasEnd: bool)
    ensures switchIds == SwitchIds(nodes) && target == LastEnd(nodes) && (hasEnd <==> HasEnd(nodes))
  {
    switchIds, target, hasEnd := [], NO_ID, false;
    for i := 0 to |nodes|
      invariant switchIds == SwitchIds(nodes[..i]) && target == LastEnd(nodes[..i]) && (hasEnd <==> HasEnd(nodes[..i]))
    {
      SwitchNext(nodes, i);
      if NeedsDefault(nodes[i].typ) { switchIds := switchIds + [nodes[i].id]; }
      if nodes[i].typ == End { target, hasEnd := nodes[i].id, true; }
    }
    assert nodes[..|nodes|] == nodes;
  }

  method DefaultSources(conns: seq<Connection>) returns (haveDefault: set<Id>)
    ensures forall a :: a in haveDefault <==> a != NO_ID && HasDefault(conns, a)
  {
    haveDefault := {};
    for i := 0 to |conns|
      invariant forall a :: a in haveDefault <==> a != NO_ID && HasDefault(conns[..i], a)
    {
      assert conns[..i + 1] == conns[..i] + [conns[i]];
      if conns[i].relation == "Default" && conns[i].fromId != NO_ID { haveDefault := haveDefault + {conns[i].fromId}; }
    }
    assert conns[..|conns|] == conns;
  }

  method AddDefaults(switchIds: seq<Id>, conns: seq<Connection>, haveDefault: set<Id>, target: Id) returns (added: seq<Connection>)
    requires forall a :: a in haveDefault <==> a != NO_ID && HasDefault(conns, a)
    ensures added == conns + DefaultEdges(switchIds, conns, target)
  {
    added := conns;
    for i := 0 to |switchIds|
      invariant added == conns + DefaultEdges(switchIds[..i], conns, target)
    {
      assert switchIds[..i + 1][..i] == switchIds[..i];
      var id := switchIds[i];
      if id == NO_ID || id in haveDefault { continue; }
      added := added + [Connection(id, target, "Default")];
    }
    assert switchIds[..|switchIds|] == switchIds;
  }

  method EnsureSwitchDefaultEdges(chain: Chain) returns (chain': Chain)
    ensures chain' == WithDefaults(chain)
  {
    var conns := chain.connections;
    var switchIds, target, hasEnd := ListSwitches(chain.nodes);
    var haveDefault := DefaultSources(conns);
    DefaultEdgesAre(chain.nodes, conns, target);
    if |switchIds| == 0 || !hasEnd {
      assert conns + [] == conns;
      return chain;
    }
    var added := AddDefaults(switchIds, conns, haveDefault, target);
    chain' := chain.(connections := added);
  }

  // ---- What the passes keep and establish ----

  /** Every connection ends at a listed node, and no node lacks a name. */
  ghost predicate EndsListed(chain: Chain) {
    && (forall c | c in chain.connections :: IsListed(chain.nodes, c.toId))
    && !IsListed(chain.nodes, NO_ID)
  }

  /** Every connection joins two listed nodes, and no node lacks a name. */
  ghost predicate Joined(chain: Chain) {
    EndsListed(chain) && forall c | c in chain.connections :: IsListed(chain.nodes, c.fromId)
  }

  ghost predicate Steps(conns: seq<Connection>, p: seq<Id>) {
    forall i | 0 <= i < |p| - 1 :: HasEdge(conns, p[i], p[i + 1])
  }

  /** A closed walk over listed nodes along at least one connection. */
  ghost predicate Loop(chain: Chain, p: seq<Id>) {
    |p| >= 2 && p[0] == p[|p| - 1] && Steps(chain.connections, p) && forall i | 0 <= i < |p| :: IsListed(chain.nodes, p[i])
  }

  ghost predicate LoopFree(chain: Chain) {
    forall p :: !Loop(chain, p)
  }

  /** Loops are what cycle detection at deployment looks for. */
  lemma LoopFreeIsAcyclic(chain: Chain, g: ChainGraph)
    requires Views(g, chain)
    ensures LoopFree(chain) <==> Acyclic(g)
  {
    forall p ensures Loop(chain, p) <==> ClosedWalk(g, p) {
      forall i | 0 <= i < |p| - 1 ensures HasEdge(chain.connections, p[i], p[i + 1]) <==> p[i + 1] in Succ(g.fwd, p[i]) {
        EndsAre(chain.connections, p[i], p[i + 1]);
      }
    }
  }

  /** A walk over connections from a to b. */
  ghost predicate Leads(conns: seq<Connection>, a: Id, b: Id) {
    exists p :: |p| > 0 && p[0] == a && p[|p| - 1] == b && Steps(conns, p)
  }

  lemma {:induction false} TailsAre(nodes: seq<Node>, conns: seq<Connection>, end: Id)
    ensures forall c :: c in Tails(nodes, conns, end) <==>
              c.toId == end && c.relation == "Success" && c.fromId != NO_ID && c.fromId != end
              && IsListed(nodes, c.fromId) && !Leaves(conns, c.fromId)
  {
    if nodes != [] {
      var front, x := nodes[..|nodes| - 1], nodes[|nodes| - 1];
      TailsAre(front, conns, end);
      assert forall y :: y in nodes <==> y in front || y == x;
    }
  }

  lemma {:induction false} DefaultsAre(nodes: seq<Node>, conns: seq<Connection>, target: Id)
    ensures forall c :: c in Defaults(nodes, conns, target) <==>
              c.toId == target && c.relation == "Default" && c.fromId != NO_ID && !HasDefault(conns, c.fromId)
              && exists x :: x in nodes && x.id == c.fromId && NeedsDefault(x.typ)
  {
    if nodes != [] {
      var front, x := nodes[..|nodes| - 1], nodes[|nodes| - 1];
      DefaultsAre(front, conns, target);
      assert forall y :: y in nodes <==> y in front || y == x;
    }
  }

  /** What both passes make of a definition without an end node: the new edges all lead to the new end. */
  ghost predicate Completes(chain: Chain, chain': Chain, end: Id) {
    && !IsListed(chain.nodes, end) && end != NO_ID
    && chain'.nodes == chain.nodes + [Node(end, End, false)]
    && chain.connections <= chain'.connections
    && (forall c | c in chain'.connections :: c in chain.connections || (c.toId == end && IsListed(chain.nodes, c.fromId)))
    && (forall n | IsListed(chain.nodes, n) :: Leaves(chain'.connections, n))
    && (forall x | x in chain.nodes && NeedsDefault(x.typ) :: HasDefault(chain'.connections, x.id))
  }

  lemma PassesComplete(chain: Chain, mid: Chain, end: Id)
    requires EndsListed(chain) && !HasEnd(chain.nodes) && chain.nodes != [] && IsFree(chain.nodes, end) && mid == AddEnd(chain, end)
    ensures Completes(chain, WithDefaults(mid), end)
  {
    var chain' := WithDefaults(mid);
    assert forall x :: x in mid.nodes <==> x in chain.nodes || x == Node(end, End, false);
    assert mid.nodes[|chain.nodes|].typ == End;
    TailsAre(mid.nodes, chain.connections, end);
    DefaultsAre(mid.nodes, mid.connections, end);
    NewEdgesEnd(chain, mid, end);
    forall n | IsListed(chain.nodes, n) ensures Leaves(chain'.connections, n) { EveryNodeLeaves(chain, mid, end, n); }
    forall x | x in chain.nodes && NeedsDefault(x.typ) ensures HasDefault(chain'.connections, x.id) {
      SwitchHasDefault(chain, mid, end, x);
    }
  }

  lemma NewEdgesEnd(chain: Chain, mid: Chain, end: Id)
    requires mid == AddEnd(chain, end) && !HasEnd(chain.nodes) && HasEnd(mid.nodes)
    ensures forall c | c in WithDefaults(mid).connections ::
              c in chain.connections || (c.toId == end && IsListed(chain.nodes, c.fromId))
  {
    TailsAre(mid.nodes, chain.connections, end);
    DefaultsAre(mid.nodes, mid.connections, end);
    assert forall x :: x in mid.nodes <==> x in chain.nodes || x == Node(end, End, false);
  }

  lemma EveryNodeLeaves(chain: Chain, mid: Chain, end: Id, n: Id)
    requires mid == AddEnd(chain, end) && HasEnd(mid.nodes) && IsListed(chain.nodes, n) && n != NO_ID && n != end
    ensures Leaves(WithDefaults(mid).connections, n)
  {
    var x :| x in chain.nodes && x.id == n;
    assert x in mid.nodes;
    TailsAre(mid.nodes, chain.connections, end);
    if Leaves(chain.connections, n) {
      var c :| c in chain.connections && c.fromId == n;
      assert c in WithDefaults(mid).connections;
    } else {
      assert Connection(n, end, "Success") in mid.connections;
      assert Connection(n, end, "Success") in WithDefaults(mid).connections;
    }
  }

  lemma SwitchHasDefault(chain: Chain, mid: Chain, end: Id, x: Node)
    requires mid == AddEnd(chain, end) && HasEnd(mid.nodes) && LastEnd(mid.nodes) == end
    requires x in chain.nodes && NeedsDefault(x.typ) && x.id != NO_ID
    ensures HasDefault(WithDefaults(mid).connections, x.id)
  {
    assert x in mid.nodes;
    DefaultsAre(mid.nodes, mid.connections, end);
    if HasDefault(mid.connections, x.id) {
      var c :| c in mid.connections && c.fromId == x.id && c.relation == "Default";
      assert c in WithDefaults(mid).connections;
    } else {
      assert Connection(x.id, end, "Default") in WithDefaults(mid).connections;
    }
  }

  /** New edges only lead to the new end, which no edge leaves, so they close no loop. */
  lemma StaysLoopFree(chain: Chain, chain': Chain, end: Id)
    requires !Leaves(chain.connections, end) && Completes(chain, chain', end) && LoopFree(chain)
    ensures LoopFree(chain')
  {
    forall p ensures !Loop(chain', p) {
      if Loop(chain', p) {
        forall i | 0 <= i < |p| - 1 ensures p[i] != end { NotFromEnd(chain, chain', end, p[i], p[i + 1]); }
        assert end !in p;
        forall i | 0 <= i < |p| - 1 ensures HasEdge(chain.connections, p[i], p[i + 1]) {
        }
        assert Loop(chain, p);
      }
    }
  }

  lemma NotFromEnd(chain: Chain, chain': Chain, end: Id, a: Id, b: Id)
    requires !Leaves(chain.connections, end) && Completes(chain, chain', end) && HasEdge(chain'.connections, a, b)
    ensures a != end
  {
    var c :| c in chain'.connections && c.fromId == a && c.toId == b;
  }

  /** Going on from a listed node, a path without repeats must arrive at the end: it cannot close a loop. */
  lemma {:induction false} ArrivesAtEnd(chain: Chain, chain': Chain, end: Id, p: seq<Id>)
    requires EndsListed(chain) && Completes(chain, chain', end) && LoopFree(chain')
    requires |p| > 0 && NoDup(p) && Steps(chain'.connections, p) && forall n | n in p :: IsListed(chain'.nodes, n)
    ensures Leads(chain'.connections, p[0], end)
    decreases |chain'.nodes| + 1 - |p|
  {
    var last := p[|p| - 1];
    if last != end {
      assert last in p;
      assert IsListed(chain.nodes, last) by { var x :| x in chain'.nodes && x.id == last; }
      var c :| c in chain'.connections && c.fromId == last;
      var next := c.toId;
      assert HasEdge(chain'.connections, last, next);
      FitsNodes(chain'.nodes, p);
      if next in p {
        var k :| 0 <= k < |p| && p[k] == next;
        CloseLoop(chain', p, k, next);
        assert false;
      } else {
        Extend(chain', p, next);
        ArrivesAtEnd(chain, chain', end, p + [next]);
      }
    }
  }

  lemma FitsNodes(nodes: seq<Node>, p: seq<Id>)
    requires NoDup(p) && forall n | n in p :: IsListed(nodes, n)
    ensures |p| <= |nodes|
  {
    NoDupSize(p);
    forall n | n in Elems(p) ensures n in NodeIds(nodes) { var x :| x in nodes && x.id == n; }
    SubsetSize(Elems(p), NodeIds(nodes));
    IdsBound(nodes);
  }

  lemma {:induction false} NoDupSize(p: seq<Id>)
    requires NoDup(p)
    ensures |Elems(p)| == |p|
  {
    if p != [] {
      var rest := p[1..];
      assert forall i | 0 <= i < |rest| :: rest[i] == p[i + 1];
      NoDupSize(rest);
      assert Elems(p) == {p[0]} + Elems(rest);
      assert p[0] !in rest;
    }
  }

  lemma CloseLoop(chain: Chain, p: seq<Id>, k: int, next: Id)
    requires 0 <= k < |p| && p[k] == next && Steps(chain.connections, p) && HasEdge(chain.connections, p[|p| - 1], next)
    requires forall n | n in p :: IsListed(chain.nodes, n)
    ensures Loop(chain, p[k..] + [next])
  {
    var c := p[k..] + [next];
    forall i | 0 <= i < |c| - 1 ensures HasEdge(chain.connections, c[i], c[i + 1]) {
      assert c[i] == p[k + i];
      if i < |c| - 2 { assert c[i + 1] == p[k + i + 1]; }
    }
    forall i | 0 <= i < |c| ensures IsListed(chain.nodes, c[i]) { assert c[i] in p; }
  }

  lemma Extend(chain: Chain, p: seq<Id>, next: Id)
    requires |p| > 0 && NoDup(p) && next !in p && Steps(chain.connections, p) && HasEdge(chain.connections, p[|p| - 1], next)
    ensures NoDup(p + [next]) && Steps(chain.connections, p + [next])
  {
    var q := p + [next];
    forall i | 0 <= i < |q| - 1 ensures HasEdge(chain.connections, q[i], q[i + 1]) { assert q[i] == p[i]; }
    forall i, j | 0 <= i < j < |q| ensures q[i] != q[j] { assert q[i] == p[i] && p[i] in p; }
  }

  /**
   A loop-free definition without an end node comes out of both passes loop-free, with its nodes and connections
   kept in front, a Default edge at every switch, and the new end reached from every node.
   */
  lemma NormalForm(chain: Chain, mid: Chain) returns (end: Id)
    requires Joined(chain) && LoopFree(chain) && chain.nodes != [] && !HasEnd(chain.nodes) && EndEnsured(chain, mid)
    ensures Completes(chain, WithDefaults(mid), end) && LoopFree(WithDefaults(mid))
    ensures forall n | IsListed(chain.nodes, n) :: Leads(WithDefaults(mid).connections, n, end)
  {
    end :| IsFree(chain.nodes, end) && mid == AddEnd(chain, end);
    var chain' := WithDefaults(mid);
    PassesComplete(chain, mid, end);
    forall c | c in chain.connections ensures c.fromId != end { assert IsListed(chain.nodes, c.fromId); }
    StaysLoopFree(chain, chain', end);
    forall n | IsListed(chain.nodes, n) ensures Leads(chain'.connections, n, end) { Arrives(chain, chain', end, n); }
  }

  lemma Arrives(chain: Chain, chain': Chain, end: Id, n: Id)
    requires EndsListed(chain) && Completes(chain, chain', end) && LoopFree(chain') && IsListed(chain.nodes, n)
    ensures Leads(chain'.connections, n, end)
  {
    var x :| x in chain.nodes && x.id == n;
    assert x in chain'.nodes;
    assert forall m | m in [n] :: m == n;
    ArrivesAtEnd(chain, chain', end, [n]);
  }

  /** With an edge from the end to a listed node, the walk from there back to the end closes a loop. */
  lemma LeavingEndLoops(chain: Chain, chain': Chain, end: Id)
    requires EndsListed(chain) && Completes(chain, chain', end) && Leaves(chain.connections, end)
    ensures !LoopFree(chain')
  {
    if LoopFree(chain') {
      var c :| c in chain.connections && c.fromId == end;
      var n := c.toId;
      assert c in chain'.connections;
      Arrives(chain, chain', end, n);
      var p :| |p| > 0 && p[0] == n && p[|p| - 1] == end && Steps(chain'.connections, p);
      WalkListed(chain, chain', end, p);
      BackLoop(chain', p, end);
      assert false;
    }
  }

  /** A walk that begins at a listed node meets listed nodes only. */
  lemma WalkListed(chain: Chain, chain': Chain, end: Id, p: seq<Id>)
    requires EndsListed(chain) && Completes(chain, chain', end)
    requires |p| > 0 && IsListed(chain.nodes, p[0]) && Steps(chain'.connections, p)
    ensures forall i | 0 <= i < |p| :: IsListed(chain'.nodes, p[i])
  {
    forall i | 0 <= i < |p| ensures IsListed(chain'.nodes, p[i]) {
      if i == 0 {
        var x :| x in chain.nodes && x.id == p[0];
        assert x in chain'.nodes;
      } else {
        assert HasEdge(chain'.connections, p[i - 1], p[i - 1 + 1]);
        var c :| c in chain'.connections && c.fromId == p[i - 1] && c.toId == p[i];
      }
    }
  }

  lemma BackLoop(chain: Chain, p: seq<Id>, end: Id)
    requires |p| > 0 && p[|p| - 1] == end && Steps(chain.connections, p) && HasEdge(chain.connections, end, p[0])
    requires forall i | 0 <= i < |p| :: IsListed(chain.nodes, p[i])
    ensures Loop(chain, [end] + p)
  {
    var q := [end] + p;
    forall i | 0 <= i < |q| - 1 ensures HasEdge(chain.connections, q[i], q[i + 1]) {
      if i > 0 { assert q[i] == p[i - 1] && q[i + 1] == p[i - 1 + 1]; }
    }
    forall i | 0 <= i < |q| ensures IsListed(chain.nodes, q[i]) {
      if i > 0 { assert q[i] == p[i - 1]; } else { assert q[0] == p[|p| - 1]; }
    }
  }

  /** The old loops are still there. */
  lemma LoopsStay(chain: Chain, chain': Chain, end: Id)
    requires Completes(chain, chain', end) && LoopFree(chain')
    ensures LoopFree(chain)
  {
    forall p ensures !Loop(chain, p) {
      if Loop(chain, p) {
        forall i | 0 <= i < |p| - 1 ensures HasEdge(chain'.connections, p[i], p[i + 1]) {
          assert HasEdge(chain.connections, p[i], p[i + 1]);
          var c :| c in chain.connections && c.fromId == p[i] && c.toId == p[i + 1];
          assert c in chain'.connections;
        }
        forall i | 0 <= i < |p| ensures IsListed(chain'.nodes, p[i]) {
          var x :| x in chain.nodes && x.id == p[i];
          assert x in chain'.nodes;
        }
        assert Loop(chain', p);
      }
    }
  }

  /** The passes keep a definition loop-free exactly when no connection starts at the name of the new end. */
  lemma LoopFreeExactly(chain: Chain, mid: Chain) returns (end: Id)
    requires EndsListed(chain) && chain.nodes != [] && !HasEnd(chain.nodes) && EndEnsured(chain, mid)
    ensures IsFree(chain.nodes, end) && mid == AddEnd(chain, end)
    ensures LoopFree(WithDefaults(mid)) <==> LoopFree(chain) && !Leaves(chain.connections, end)
  {
    end :| IsFree(chain.nodes, end) && mid == AddEnd(chain, end);
    PassesComplete(chain, mid, end);
    if Leaves(chain.connections, end) { LeavingEndLoops(chain, WithDefaults(mid), end); }
    else if LoopFree(chain) { StaysLoopFree(chain, WithDefaults(mid), end); }
    if LoopFree(WithDefaults(mid)) { LoopsStay(chain, WithDefaults(mid), end); }
  }

  // ---- The new connections ----

  /** The first pass adds exactly the Success edges from the nodes no connection starts at, behind the old connections. */
  lemma EndConnections(chain: Chain, mid: Chain) returns (end: Id)
    requires chain.nodes != [] && !HasEnd(chain.nodes) && EndEnsured(chain, mid)
    ensures IsFree(chain.nodes, end) && mid.nodes == chain.nodes + [Node(end, End, false)] && mid.firstNodeIndex == chain.firstNodeIndex
    ensures chain.connections <= mid.connections
    ensures forall c :: c in mid.connections <==>
              || c in chain.connections
              || (c.toId == end && c.relation == "Success" && c.fromId != NO_ID && IsListed(chain.nodes, c.fromId)
                  && forall d | d in chain.connections :: d.fromId != c.fromId)
  {
    end :| IsFree(chain.nodes, end) && mid == AddEnd(chain, end);
    TailsAre(mid.nodes, chain.connections, end);
    assert forall x :: x in mid.nodes <==> x in chain.nodes || x == Node(end, End, false);
    forall x | x in chain.nodes ensures x.id != end { }
  }

  lemma {:induction false} LastEndIs(nodes: seq<Node>, i: nat)
    requires i < |nodes| && nodes[i].typ == End && forall j | i < j < |nodes| :: nodes[j].typ != End
    ensures LastEnd(nodes) == nodes[i].id && HasEnd(nodes)
  {
    assert nodes[i] in nodes;
    if i < |nodes| - 1 { LastEndIs(nodes[..|nodes| - 1], i); }
  }

  /** The second pass adds exactly the Default edges from the switches without one to the end node listed last. */
  lemma DefaultConnections(chain: Chain, i: nat)
    requires i < |chain.nodes| && chain.nodes[i].typ == End && forall j | i < j < |chain.nodes| :: chain.nodes[j].typ != End
    ensures WithDefaults(chain).nodes == chain.nodes && WithDefaults(chain).firstNodeIndex == chain.firstNodeIndex
    ensures chain.connections <= WithDefaults(chain).connections
    ensures forall c :: c in WithDefaults(chain).connections <==>
              || c in chain.connections
              || (c.toId == chain.nodes[i].id && c.relation == "Default" && c.fromId != NO_ID
                  && (exists x :: x in chain.nodes && x.id == c.fromId && x.typ in {Switch, JsSwitch, MsgTypeSwitch, Inclusive})
                  && forall d | d in chain.connections && d.fromId == c.fromId :: d.relation != "Default")
  {
    LastEndIs(chain.nodes, i);
    DefaultsAre(chain.nodes, chain.connections, chain.nodes[i].id);
  }

  // ---- Definitions that have an end node ----

  /** The node is a switch that gets a Default edge from the second pass. */
  ghost predicate IsCompleted(chain: Chain, a: Id) {
    a != NO_ID && !HasDefault(chain.connections, a) && exists x :: x in chain.nodes && x.id == a && NeedsDefault(x.typ)
  }

  /** A walk leads on from the last end node to a switch without a Default edge. */
  ghost predicate EndReachesSwitch(chain: Chain) {
    exists a :: IsCompleted(chain, a) && Leads(chain.connections, LastEnd(chain.nodes), a)
  }

  lemma {:induction false} LastEndListed(nodes: seq<Node>)
    requires HasEnd(nodes)
    ensures IsListed(nodes, LastEnd(nodes))
  {
    var front, x := nodes[..|nodes| - 1], nodes[|nodes| - 1];
    if x.typ != End {
      LastEndListed(front);
      var y :| y in front && y.id == LastEnd(front);
      assert y in nodes;
    }
  }

  /** The second pass adds exactly the edges from the completed switches to the last end node. */
  lemma CompletedEdges(chain: Chain, a: Id, b: Id)
    requires HasEnd(chain.nodes)
    ensures HasEdge(WithDefaults(chain).connections, a, b) <==>
              HasEdge(chain.connections, a, b) || (IsCompleted(chain, a) && b == LastEnd(chain.nodes))
  {
    var target, conns := LastEnd(chain.nodes), chain.connections;
    var new' := Defaults(chain.nodes, conns, target);
    DefaultsAre(chain.nodes, conns, target);
    assert forall c :: c in conns + new' <==> c in conns || c in new';
    if IsCompleted(chain, a) && b == target { assert Connection(a, target, "Default") in new'; }
  }

  /** Cut at its first new edge, a walk from the end to a completed switch leads to one over old edges. */
  lemma {:induction false} OldWalk(chain: Chain, q: seq<Id>)
    requires HasEnd(chain.nodes) && |q| > 0 && q[0] == LastEnd(chain.nodes) && IsCompleted(chain, q[|q| - 1])
    requires Steps(WithDefaults(chain).connections, q)
    ensures EndReachesSwitch(chain)
    decreases |q|
  {
    if !Steps(chain.connections, q) {
      var i :| 0 <= i < |q| - 1 && !HasEdge(chain.connections, q[i], q[i + 1]);
      assert HasEdge(WithDefaults(chain).connections, q[i], q[i + 1]);
      CompletedEdges(chain, q[i], q[i + 1]);
      OldWalk(chain, q[..i + 1]);
    }
  }

  /** A loop that uses a new edge goes from the end round to the switch of that edge. */
  lemma LoopThroughEnd(chain: Chain, p: seq<Id>, i: nat)
    requires HasEnd(chain.nodes) && Loop(WithDefaults(chain), p) && i < |p| - 1 && !HasEdge(chain.connections, p[i], p[i + 1])
    ensures EndReachesSwitch(chain)
  {
    var chain', q := WithDefaults(chain), p[i + 1..] + p[1..i + 1];
    assert HasEdge(chain'.connections, p[i], p[i + 1]);
    CompletedEdges(chain, p[i], p[i + 1]);
    var n := |p| - (i + 1);
    forall k | 0 <= k < |q| - 1 ensures HasEdge(chain'.connections, q[k], q[k + 1]) {
      if k < n - 1 { assert q[k] == p[i + 1 + k] && q[k + 1] == p[i + 1 + k + 1]; }
      else if k == n - 1 { assert q[k] == p[|p| - 1] == p[0] && q[k + 1] == p[0 + 1]; }
      else { assert q[k] == p[k - n + 1] && q[k + 1] == p[k - n + 1 + 1]; }
    }
    assert q[|q| - 1] == p[i] by { if i > 0 { assert q[|q| - 1] == p[1..i + 1][i - 1]; } else { assert q == p[1..]; } }
    OldWalk(chain, q);
  }

  lemma {:induction false} WalkStaysListed(chain: Chain, p: seq<Id>)
    requires EndsListed(chain) && |p| > 0 && IsListed(chain.nodes, p[0]) && Steps(chain.connections, p)
    ensures forall i | 0 <= i < |p| :: IsListed(chain.nodes, p[i])
  {
    forall i | 0 <= i < |p| ensures IsListed(chain.nodes, p[i]) {
      if i > 0 { assert HasEdge(chain.connections, p[i - 1], p[i - 1 + 1]); }
    }
  }

  /** The new edge closes a walk from the end to its switch. */
  lemma WalkClosed(chain: Chain, a: Id)
    requires EndsListed(chain) && HasEnd(chain.nodes) && IsCompleted(chain, a) && Leads(chain.connections, LastEnd(chain.nodes), a)
    ensures !LoopFree(WithDefaults(chain))
  {
    var chain', end := WithDefaults(chain), LastEnd(chain.nodes);
    var p :| |p| > 0 && p[0] == end && p[|p| - 1] == a && Steps(chain.connections, p);
    LastEndListed(chain.nodes);
    WalkStaysListed(chain, p);
    var q := p + [end];
    forall i | 0 <= i < |q| - 1 ensures HasEdge(chain'.connections, q[i], q[i + 1]) {
      if i < |p| - 1 { assert HasEdge(chain.connections, p[i], p[i + 1]); }
      CompletedEdges(chain, q[i], q[i + 1]);
    }
    assert Loop(chain', q);
  }

  /**
   A definition that has an end node: the second pass keeps it loop-free exactly when no switch without a Default
   edge is reached from the last end node.
   */
  lemma DefaultsLoopFreeExactly(chain: Chain)
    requires EndsListed(chain) && HasEnd(chain.nodes)
    ensures LoopFree(WithDefaults(chain)) <==> LoopFree(chain) && !EndReachesSwitch(chain)
  {
    var chain' := WithDefaults(chain);
    forall p | Loop(chain, p) ensures Loop(chain', p) {
      forall i | 0 <= i < |p| - 1 ensures HasEdge(chain'.connections, p[i], p[i + 1]) { CompletedEdges(chain, p[i], p[i + 1]); }
    }
    if EndReachesSwitch(chain) {
      var a :| IsCompleted(chain, a) && Leads(chain.connections, LastEnd(chain.nodes), a);
      WalkClosed(chain, a);
    } else {
      forall p | Loop(chain', p) ensures Loop(chain, p) {
        forall i | 0 <= i < |p| - 1 ensures HasEdge(chain.connections, p[i], p[i + 1]) {
          if !HasEdge(chain.connections, p[i], p[i + 1]) { LoopThroughEnd(chain, p, i); }
        }
      }
    }
  }

  /** A loop leaves its first node and comes back to it. */
  lemma LoopEdges(chain: Chain, p: seq<Id>)
    requires Loop(chain, p)
    ensures HasEdge(chain.connections, p[0], p[1]) && HasEdge(chain.connections, p[|p| - 2], p[0])
  {
    assert HasEdge(chain.connections, p[0], p[0 + 1]) && HasEdge(chain.connections, p[|p| - 2], p[|p| - 2 + 1]);
  }

  /** An end node that leads on to a switch: the definition has no loop, and gets one from the Default edge. */
  lemma EndWithExit(e: Id, s: Id)
    requires e != s && e != NO_ID && s != NO_ID
    ensures var chain := Chain([Node(e, End, false), Node(s, Switch, false)], [Connection(e, s, "Success")], 0);
            Joined(chain) && LoopFree(chain) && !LoopFree(WithDefaults(chain))
  {
    var chain := Chain([Node(e, End, false), Node(s, Switch, false)], [Connection(e, s, "Success")], 0);
    assert chain.nodes[0] in chain.nodes && chain.nodes[1] in chain.nodes && chain.connections[0] in chain.connections;
    forall p ensures !Loop(chain, p) {
      if Loop(chain, p) {
        LoopEdges(chain, p);
        assert false;
      }
    }
    assert chain.nodes[..1] == [chain.nodes[0]];
    assert LastEnd(chain.nodes[..1]) == e;
    assert Steps(chain.connections, [e, s]) && [e, s][0] == e && [e, s][|[e, s]| - 1] == s;
    assert IsCompleted(chain, s) && Leads(chain.connections, e, s);
    DefaultsLoopFreeExactly(chain);
  }

  /** Running both passes again changes nothing. */
  lemma SecondRunChangesNothing(chain: Chain, mid: Chain, mid2: Chain)
    requires EndEnsured(chain, mid) && EndEnsured(WithDefaults(mid), mid2)
    ensures WithDefaults(mid2) == WithDefaults(mid)
  {
    var chain' := WithDefaults(mid);
    if chain.nodes != [] && !HasEnd(chain.nodes) { assert mid.nodes[|chain.nodes|].typ == End; }
    assert mid2 == chain';
    NoDefaultsLeft(mid);
  }

  lemma NoDefaultsLeft(chain: Chain)
    ensures WithDefaults(WithDefaults(chain)) == WithDefaults(chain)
  {
    if HasEnd(chain.nodes) {
      var target, conns := LastEnd(chain.nodes), chain.connections;
      var all := conns + Defaults(chain.nodes, conns, target);
      DefaultsAre(chain.nodes, conns, target);
      DefaultsAre(chain.nodes, all, target);
      forall x | x in chain.nodes && NeedsDefault(x.typ) && x.id != NO_ID ensures HasDefault(all, x.id) {
        if HasDefault(conns, x.id) {
          var d :| d in conns && d.fromId == x.id && d.relation == "Default";
          assert d in all;
        } else {
          assert Connection(x.id, target, "Default") in all;
        }
      }
      if Defaults(chain.nodes, all, target) != [] {
        HasConnection(Defaults(chain.nodes, all, target));
        assert false;
      }
    }
  }

  lemma HasConnection(s: seq<Connection>)
    requires s != []
    ensures exists c :: c in s
  {
    assert s[0] in s;
  }

  function Dangling(a: Id, end: Id): Chain {
    Chain([Node(a, UserTask, false)], [Connection(end, a, "Success")], 0)
  }

  /** A connection that starts at the unlisted name "node_end" becomes part of a loop once that node exists. */
  lemma DanglingEdgeClosesLoop(a: Id)
    requires a != EndName(0) && a != NO_ID
    ensures LoopFree(Dangling(a, EndName(0))) && IsFree(Dangling(a, EndName(0)).nodes, EndName(0))
    ensures Loop(AddEnd(Dangling(a, EndName(0)), EndName(0)), [a, EndName(0), a])
  {
    assert Tried(0) == {};
    DanglingLoopFree(a, EndName(0));
    DanglingLoop(a, EndName(0));
  }

  lemma DanglingLoopFree(a: Id, end: Id)
    requires a != end
    ensures LoopFree(Dangling(a, end))
  {
    var chain := Dangling(a, end);
    forall p ensures !Loop(chain, p) {
      if Loop(chain, p) {
        FirstStep(chain, p);
        assert false;
      }
    }
  }

  lemma FirstStep(chain: Chain, p: seq<Id>)
    requires Loop(chain, p)
    ensures exists x, c :: x in chain.nodes && c in chain.connections && c.fromId == x.id
  {
    assert HasEdge(chain.connections, p[0], p[0 + 1]) && IsListed(chain.nodes, p[0]);
  }

  lemma DanglingLoop(a: Id, end: Id)
    requires a != end && a != NO_ID
    ensures Loop(AddEnd(Dangling(a, end), end), [a, end, a])
  {
    var chain, chain' := Dangling(a, end), AddEnd(Dangling(a, end), end);
    TailsAre(chain'.nodes, chain.connections, end);
    assert chain'.nodes[0] == Node(a, UserTask, false) && chain'.nodes[1] == Node(end, End, false);
    assert Connection(a, end, "Success") in Tails(chain'.nodes, chain.connections, end);
    assert Connection(end, a, "Success") in chain.connections;
    assert HasEdge(chain'.connections, a, end) && HasEdge(chain'.connections, end, a);
    var p := [a, end, a];
    forall i | 0 <= i < |p| - 1 ensures HasEdge(chain'.connections, p[i], p[i + 1]) { }
  }
}
