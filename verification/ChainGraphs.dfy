/** The chain-level view of a definition that deployment checks work on (`service/config_validate.go`). */
module ChainGraphs {
  import opened Text
  import opened Definitions
  import opened Walks

  datatype ChainGraph = ChainGraph(
    nodeIds: set<Id>,
    nodeTypes: map<Id, NodeType>,
    fwd: Adj,
    bwd: Adj,
    startNodeId: Id)

  function TypeOf(g: ChainGraph, n: Id): NodeType {
    if n in g.nodeTypes then g.nodeTypes[n] else Other("")
  }

  /** The ends of the connections that start at a, in their order. */
  function EndsFrom(conns: seq<Connection>, a: Id): seq<Id> {
    if conns == [] then [] else
      var c := conns[|conns| - 1];
      EndsFrom(conns[..|conns| - 1], a) + if c.fromId == a then [c.toId] else []
  }

  /** The starts of the connections that end at b, in their order. */
  function StartsTo(conns: seq<Connection>, b: Id): seq<Id> {
    if conns == [] then [] else
      var c := conns[|conns| - 1];
      StartsTo(conns[..|conns| - 1], b) + if c.toId == b then [c.fromId] else []
  }

  predicate HasEdge(conns: seq<Connection>, a: Id, b: Id) {
    exists c :: c in conns && c.fromId == a && c.toId == b
  }

  lemma {:induction false} EndsAre(conns: seq<Connection>, a: Id, b: Id)
    ensures b in EndsFrom(conns, a) <==> HasEdge(conns, a, b)
    ensures a in StartsTo(conns, b) <==> HasEdge(conns, a, b)
  {
    if conns != [] {
      EndsAre(conns[..|conns| - 1], a, b);
      assert forall c :: c in conns <==> c in conns[..|conns| - 1] || c == conns[|conns| - 1];
    }
  }

  /** The type listed last for a node. */
  function TypeIn(nodes: seq<Node>, n: Id): NodeType {
    if nodes == [] then Other("")
    else if nodes[|nodes| - 1].id == n then nodes[|nodes| - 1].typ
    else TypeIn(nodes[..|nodes| - 1], n)
  }

  predicate IsListed(nodes: seq<Node>, n: Id) {
    exists x :: x in nodes && x.id == n
  }

  predicate FirstInRange(chain: Chain) {
    0 <= chain.firstNodeIndex < |chain.nodes|
  }

  /** The graph has the chain's nodes, types and connections; its start is empty when the index is out of range. */
  ghost predicate Views(g: ChainGraph, chain: Chain) {
    && (forall n :: n in g.nodeIds <==> IsListed(chain.nodes, n))
    && (forall n :: TypeOf(g, n) == TypeIn(chain.nodes, n))
    && (forall n :: Succ(g.fwd, n) == EndsFrom(chain.connections, n))
    && (forall n :: Succ(g.bwd, n) == StartsTo(chain.connections, n))
    && g.startNodeId == if FirstInRange(chain) then chain.nodes[chain.firstNodeIndex].id else NO_ID
  }

  lemma ViewsConverse(g: ChainGraph, chain: Chain)
    requires Views(g, chain)
    ensures Converse(g.fwd, g.bwd)
  {
    forall x, y ensures y in Succ(g.fwd, x) <==> x in Succ(g.bwd, y) { EndsAre(chain.connections, x, y); }
  }

  method BuildChainGraph(chain: Chain) returns (g: ChainGraph)
    ensures Views(g, chain)
  {
    var ids: set<Id>, types: map<Id, NodeType> := {}, map[];
    for i := 0 to |chain.nodes|
      invariant forall n :: n in ids <==> IsListed(chain.nodes[..i], n)
      invariant forall n :: (if n in types then types[n] else Other("")) == TypeIn(chain.nodes[..i], n)
    {
      var x := chain.nodes[i];
      assert chain.nodes[..i + 1] == chain.nodes[..i] + [x];
      ids := ids + {x.id};
      types := types[x.id := x.typ];
    }
    assert chain.nodes[..|chain.nodes|] == chain.nodes;
    var fwd, bwd := BuildEdges(chain.connections);
    var start := if FirstInRange(chain) then chain.nodes[chain.firstNodeIndex].id else NO_ID;
    g := ChainGraph(ids, types, fwd, bwd, start);
  }

  /** The lists hold the ends and the starts of the connections. */
  ghost predicate Lists(fwd: Adj, bwd: Adj, conns: seq<Connection>) {
    (forall n :: Succ(fwd, n) == EndsFrom(conns, n)) && (forall n :: Succ(bwd, n) == StartsTo(conns, n))
  }

  lemma ListsMore(fwd: Adj, bwd: Adj, conns: seq<Connection>, c: Connection)
    requires Lists(fwd, bwd, conns)
    ensures Lists(fwd[c.fromId := Succ(fwd, c.fromId) + [c.toId]], bwd[c.toId := Succ(bwd, c.toId) + [c.fromId]], conns + [c])
  {
    forall n ensures Succ(fwd[c.fromId := Succ(fwd, c.fromId) + [c.toId]], n) == EndsFrom(conns + [c], n) {
    }
    forall n ensures Succ(bwd[c.toId := Succ(bwd, c.toId) + [c.fromId]], n) == StartsTo(conns + [c], n) {
    }
  }

  method BuildEdges(conns: seq<Connection>) returns (fwd: Adj, bwd: Adj)
    ensures Lists(fwd, bwd, conns)
  {
    fwd, bwd := map[], map[];
    for i := 0 to |conns|
      invariant Lists(fwd, bwd, conns[..i])
    {
      var c := conns[i];
      assert conns[..i + 1] == conns[..i] + [c];
      ListsMore(fwd, bwd, conns[..i], c);
      fwd := fwd[c.fromId := Succ(fwd, c.fromId) + [c.toId]];
      bwd := bwd[c.toId := Succ(bwd, c.toId) + [c.fromId]];
    }
    assert conns[..|conns|] == conns;
  }
}
