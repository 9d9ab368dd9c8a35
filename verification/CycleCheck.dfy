/** Detecting cycles when a chain is deployed (`detectChainCycle` in `service/config_validate.go`). */
module CycleCheck {
  import opened Text
  import opened Walks
  import opened ChainGraphs

  /** Nodes not coloured yet are white. */
  datatype Color = Gray | Black

  /** Each node leads to the next one, and all of them are nodes of the chain. */
  ghost predicate IsPath(g: ChainGraph, p: seq<Id>) {
    && (forall i | 0 <= i < |p| :: p[i] in g.nodeIds)
    && forall i | 0 <= i < |p| - 1 :: p[i + 1] in Succ(g.fwd, p[i])
  }

  /** A walk along at least one edge that ends where it began. */
  ghost predicate ClosedWalk(g: ChainGraph, c: seq<Id>) {
    |c| >= 2 && c[0] == c[|c| - 1] && IsPath(g, c)
  }

  ghost predicate Acyclic(g: ChainGraph) {
    forall c :: !ClosedWalk(g, c)
  }

  /** Every edge from a finished node leads to a node finished before it. */
  ghost predicate Finishes(g: ChainGraph, order: seq<Id>) {
    && NoDup(order)
    && forall i, n | 0 <= i < |order| && n in Succ(g.fwd, order[i]) && n in g.nodeIds :: n in order[..i]
  }

  /** The search: colours, the nodes on the current path, and the cycle once it is found. */
  class CycleSearch {
    const g: ChainGraph
    var color: map<Id, Color>
    var stack: seq<Id>
    var cycle: seq<Id>

    constructor (g: ChainGraph)
      ensures this.g == g && Valid() && stack == [] && cycle == [] && color == map[]
    {
      this.g, color, stack, cycle := g, map[], [], [];
      assert Shape(g, map[], [], []);
    }

    ghost predicate Valid()
      reads this
    {
      Searching(g, color, stack)
    }

    /** The path from n on, closed by the edge back to n. A gray node is always on the path, so the loop finds it. */
    method CutCycle(n: Id)
      requires n in stack && IsPath(g, stack) && n in Succ(g.fwd, stack[|stack| - 1])
      modifies this`cycle
      ensures ClosedWalk(g, cycle)
    {
      var path := stack;
      assert path[..|path|] == path;
      for k := 0 to |path|
        invariant n !in path[..k]
      {
        assert path[..k + 1] == path[..k] + [path[k]];
        if path[k] == n {
          cycle := path[k..] + [n];
          Close(g, path, k, n);
          return;
        }
      }
      assert false;
    }

    /** The search below one node, which turns gray on the way in and black on the way out. */
    method Dfs(id: Id) returns (found: bool)
      requires Valid() && id in g.nodeIds && id !in color
      requires stack != [] ==> id in Succ(g.fwd, stack[|stack| - 1])
      modifies this
      ensures found ==> ClosedWalk(g, cycle)
      ensures !found ==> Valid() && stack == old(stack) && cycle == old(cycle)
      ensures !found ==> Grows(old(color), color) && id in Blacks(color)
      decreases |g.nodeIds - color.Keys|, 0
    {
      Start(id);
      found := Below(id);
      if !found { Done(id, old(stack)); }
    }

    method Start(id: Id)
      requires Valid() && id in g.nodeIds && id !in color
      requires stack != [] ==> id in Succ(g.fwd, stack[|stack| - 1])
      modifies this`stack, this`color
      ensures Valid() && stack == old(stack) + [id] && Grows(old(color), color)
      ensures |g.nodeIds - color.Keys| < |g.nodeIds - old(color.Keys)|
    {
      Enter(g, color, stack, id);
      FewerWhite(g.nodeIds, color, id);
      color := color[id := Gray];
      stack := stack + [id];
    }

    method Done(id: Id, ghost rest: seq<Id>)
      requires Valid() && stack == rest + [id] && id in g.nodeIds
      requires forall n | n in Succ(g.fwd, id) && n in g.nodeIds :: n in Blacks(color)
      modifies this`stack, this`color
      ensures Valid() && stack == rest && Grows(old(color), color) && id in Blacks(color)
    {
      Leave(g, color, rest, id);
      stack := stack[..|stack| - 1];
      color := color[id := Black];
    }

    /** The loop over the successors of the node on top of the path. */
    method Below(id: Id) returns (found: bool)
      requires Valid() && stack != [] && stack[|stack| - 1] == id
      modifies this
      ensures found ==> ClosedWalk(g, cycle)
      ensures !found ==> Valid() && stack == old(stack) && cycle == old(cycle)
      ensures !found ==> Grows(old(color), color)
      ensures !found ==> forall n | n in Succ(g.fwd, id) && n in g.nodeIds :: n in Blacks(color)
      decreases |g.nodeIds - color.Keys|, 1
    {
      var next := Succ(g.fwd, id);
      for i := 0 to |next|
        invariant Valid() && stack == old(stack) && cycle == old(cycle)
        invariant Grows(old(color), color)
        invariant forall k | 0 <= k < i && next[k] in g.nodeIds :: next[k] in Blacks(color)
      {
        var n := next[i];
        if n !in g.nodeIds { continue; }
        if n !in color {
          SubsetSize(g.nodeIds - color.Keys, g.nodeIds - old(color.Keys));
          found := Dfs(n);
          if found { return; }
        } else if color[n] == Gray {
          CutCycle(n);
          return true;
        }
      }
      return false;
    }
  }

  function Blacks(color: map<Id, Color>): set<Id> {
    set n | n in color && color[n] == Black
  }

  /** Coloured nodes stay coloured, and black ones black. */
  predicate Grows(before: map<Id, Color>, after: map<Id, Color>) {
    before.Keys <= after.Keys && Blacks(before) <= Blacks(after)
  }

  /** The gray nodes are the path from the root, the black ones are finished in some order. */
  ghost predicate Searching(g: ChainGraph, color: map<Id, Color>, stack: seq<Id>) {
    exists order :: Shape(g, color, stack, order)
  }

  ghost predicate Shape(g: ChainGraph, color: map<Id, Color>, stack: seq<Id>, order: seq<Id>) {
    && color.Keys <= g.nodeIds
    && (forall n :: n in stack <==> n in color && color[n] == Gray)
    && Elems(order) == Blacks(color)
    && NoDup(stack) && IsPath(g, stack) && Finishes(g, order)
  }

  lemma Enter(g: ChainGraph, color: map<Id, Color>, stack: seq<Id>, id: Id)
    requires Searching(g, color, stack) && id in g.nodeIds && id !in color
    requires stack != [] ==> id in Succ(g.fwd, stack[|stack| - 1])
    ensures Searching(g, color[id := Gray], stack + [id])
    ensures Grows(color, color[id := Gray])
  {
    var order :| Shape(g, color, stack, order);
    assert Shape(g, color[id := Gray], stack + [id], order);
  }

  /** Colouring a node leaves fewer white ones. */
  lemma FewerWhite(nodes: set<Id>, color: map<Id, Color>, id: Id)
    requires id in nodes && id !in color
    ensures |nodes - color[id := Gray].Keys| < |nodes - color.Keys|
  {
    SmallerSet(nodes - color[id := Gray].Keys, nodes - color.Keys, id);
  }

  lemma Leave(g: ChainGraph, color: map<Id, Color>, rest: seq<Id>, id: Id)
    requires Searching(g, color, rest + [id]) && id in g.nodeIds
    requires forall n | n in Succ(g.fwd, id) && n in g.nodeIds :: n in Blacks(color)
    ensures Searching(g, color[id := Black], rest)
    ensures Grows(color, color[id := Black]) && id in Blacks(color[id := Black])
  {
    var order :| Shape(g, color, rest + [id], order);
    assert (rest + [id])[|rest|] == id && id in rest + [id] && id !in Elems(order);
    Finish(g, order, id);
    Pop(g, rest, id);
    assert Elems(order + [id]) == Elems(order) + {id};
    assert Shape(g, color[id := Black], rest, order + [id]);
  }

  lemma Pop(g: ChainGraph, rest: seq<Id>, id: Id)
    requires NoDup(rest + [id]) && IsPath(g, rest + [id])
    ensures NoDup(rest) && IsPath(g, rest) && forall n :: n in rest <==> n in rest + [id] && n != id
  {
    var s := rest + [id];
    assert forall i | 0 <= i < |rest| :: s[i] == rest[i];
    forall i | 0 <= i < |rest| ensures rest[i] != id { assert s[i] != s[|rest|]; }
    forall i | 0 <= i < |rest| - 1 ensures rest[i + 1] in Succ(g.fwd, rest[i]) { assert s[i + 1] in Succ(g.fwd, s[i]); }
  }

  /** A back edge to the k-th node of the path closes a cycle. */
  lemma Close(g: ChainGraph, stack: seq<Id>, k: int, n: Id)
    requires 0 <= k < |stack| && stack[k] == n && IsPath(g, stack) && n in Succ(g.fwd, stack[|stack| - 1])
    ensures ClosedWalk(g, stack[k..] + [n])
  {
    var c := stack[k..] + [n];
    forall i | 0 <= i < |c| - 1 ensures c[i + 1] in Succ(g.fwd, c[i]) {
      assert c[i] == stack[k + i];
      if i < |c| - 2 { assert c[i + 1] == stack[k + i + 1]; }
    }
  }

  lemma Finish(g: ChainGraph, order: seq<Id>, id: Id)
    requires Finishes(g, order) && id !in order
    requires forall n | n in Succ(g.fwd, id) && n in g.nodeIds :: n in order
    ensures Finishes(g, order + [id])
  {
    var o := order + [id];
    forall i, n | 0 <= i < |o| && n in Succ(g.fwd, o[i]) && n in g.nodeIds ensures n in o[..i] {
      assert o[..i] == order[..i];
      if i < |order| { assert o[i] == order[i]; } else { assert order[..i] == order; }
    }
    forall i, j | 0 <= i < j < |o| ensures o[i] != o[j] { assert o[i] == order[i] && order[i] in order; }
  }

  /** Along a path that starts at a finished node the finishing positions go down. */
  lemma {:induction false} PathDescends(g: ChainGraph, order: seq<Id>, c: seq<Id>, i: int) returns (j: int)
    requires Finishes(g, order) && |c| > 0 && IsPath(g, c) && 0 <= i < |order| && c[0] == order[i]
    ensures 0 <= j <= i - (|c| - 1) && order[j] == c[|c| - 1]
    decreases |c|
  {
    if |c| == 1 {
      j := i;
    } else {
      assert c[0 + 1] in Succ(g.fwd, order[i]) && c[1] in g.nodeIds;
      var k :| 0 <= k < i && order[..i][k] == c[1];
      var d := c[1..];
      forall m | 0 <= m < |d| ensures d[m] == c[m + 1] { }
      j := PathDescends(g, order, d, k);
    }
  }

  lemma FinishedAcyclic(g: ChainGraph, order: seq<Id>)
    requires Finishes(g, order) && g.nodeIds <= Elems(order)
    ensures Acyclic(g)
  {
    forall c ensures !ClosedWalk(g, c) {
      if ClosedWalk(g, c) {
        assert c[0] in Elems(order);
        var i :| 0 <= i < |order| && order[i] == c[0];
        var j := PathDescends(g, order, c, i);
        assert false;
      }
    }
  }

  /** The cycle found is a closed walk of real edges, and none is found exactly when the chain has none. */
  method DetectChainCycle(g: ChainGraph) returns (cycle: seq<Id>)
    ensures cycle != [] ==> ClosedWalk(g, cycle)
    ensures cycle == [] <==> Acyclic(g)
  {
    var search := new CycleSearch(g);
    var rest := g.nodeIds;
    while rest != {}
      invariant rest <= g.nodeIds && search.g == g && search.Valid() && search.stack == [] && search.cycle == []
      invariant g.nodeIds - rest <= Blacks(search.color)
      decreases rest
    {
      var id :| id in rest;
      rest := rest - {id};
      if id !in search.color {
        var found := search.Dfs(id);
        if found { return search.cycle; }
      }
    }
    ghost var order :| Shape(g, search.color, search.stack, order);
    FinishedAcyclic(g, order);
    return [];
  }
}
