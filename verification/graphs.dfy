/** The part of a graphology graph that the two modes use: node attributes,
    keyed edges and neighbour enumeration. An operation that graphology
    refuses by throwing returns None; the caller then leaves everything as it
    was, because the exception aborts the event handler before any later
    write. */
module Graphs {
  import opened Wrappers

  type NodeKey = string
  type EdgeKey = string

  /** A point in graph space, as produced by the camera's viewport-to-graph transform. */
  datatype Point = Point(x: real, y: real)

  /** The node attributes the core reads or writes. `possibleFox` is None while
      the attribute is absent (outside simulation mode). */
  datatype NodeAttrs = NodeAttrs(x: real, y: real, size: real, possibleFox: Option<bool>)

  /** The two endpoints of an edge; `directed` tells a directed edge of the
      mixed graph from an undirected one. */
  datatype Ends = Ends(source: NodeKey, target: NodeKey, directed: bool) {

    predicate Touches(n: NodeKey) {
      source == n || target == n
    }

    predicate Joins(a: NodeKey, b: NodeKey) {
      (source == a && target == b) || (source == b && target == a)
    }

    /** The endpoint opposite `n` (the node itself for a self-loop). */
    function Other(n: NodeKey): NodeKey {
      if source == n then target else source
    }
  }

  datatype Graph = Graph(attrs: map<NodeKey, NodeAttrs>, edges: map<EdgeKey, Ends>) {

    function Nodes(): set<NodeKey> {
      attrs.Keys
    }

    /** Every edge joins two nodes of the graph, as graphology maintains. */
    predicate Valid() {
      forall k :: k in edges ==> edges[k].source in attrs && edges[k].target in attrs
    }

    /** `a` and `b` are joined by some edge, in either direction. */
    predicate Adjacent(a: NodeKey, b: NodeKey) {
      exists k :: k in edges && edges[k].Joins(a, b)
    }

    /** graphology's `neighbors(n)`: every node across an edge from `n`,
        whatever the edge's direction. */
    function Neighbors(n: NodeKey): (r: set<NodeKey>)
      ensures forall m :: m in r <==> Adjacent(n, m)
    {
      var r := set k | k in edges && edges[k].Touches(n) :: edges[k].Other(n);
      assert forall m :: Adjacent(n, m) ==> m in r by {
        forall m | Adjacent(n, m)
          ensures m in r
        {
          var k :| k in edges && edges[k].Joins(n, m);
          assert edges[k].Touches(n) && edges[k].Other(n) == m;
        }
      }
      r
    }

    /** The topology (node keys and edges) of `h` is that of this graph. */
    predicate SameTopology(h: Graph) {
      attrs.Keys == h.attrs.Keys && edges == h.edges
    }

    /** `h` differs from this graph at most in the nodes' `possibleFox` attribute. */
    predicate FlagsOnlyDiffer(h: Graph) {
      && SameTopology(h)
      && forall n :: n in attrs ==> h.attrs[n].(possibleFox := attrs[n].possibleFox) == attrs[n]
    }
  }

  /** `addNode(key, a)`; graphology throws when the key is taken. */
  function AddNode(g: Graph, key: NodeKey, a: NodeAttrs): (r: Option<Graph>)
    ensures r.None? <==> key in g.attrs
    ensures r.Some? ==> r.value.Nodes() == g.Nodes() + {key} && r.value.attrs[key] == a
    ensures r.Some? ==> r.value.edges == g.edges
    ensures r.Some? ==> forall n :: n in g.attrs ==> r.value.attrs[n] == g.attrs[n]
    ensures r.Some? && g.Valid() ==> r.value.Valid()
  {
    if key in g.attrs then None else Some(g.(attrs := g.attrs[key := a]))
  }

  /** `addEdge(source, target)` on the default (mixed, non-multi) graph: the
      new edge is directed; graphology throws when an endpoint is missing, when
      a directed edge from `source` to `target` already exists, or when the key
      is taken. */
  function AddEdge(g: Graph, key: EdgeKey, source: NodeKey, target: NodeKey): (r: Option<Graph>)
    ensures r.Some? <==>
      && source in g.attrs && target in g.attrs && key !in g.edges
      && !(exists k :: k in g.edges && g.edges[k] == Ends(source, target, true))
    ensures r.Some? ==> r.value.attrs == g.attrs && r.value.edges == g.edges[key := Ends(source, target, true)]
    ensures r.Some? && g.Valid() ==> r.value.Valid()
  {
    if source !in g.attrs || target !in g.attrs then None
    else if key in g.edges then None
    else if exists k :: k in g.edges && g.edges[k].directed && g.edges[k].source == source && g.edges[k].target == target then None
    else Some(g.(edges := g.edges[key := Ends(source, target, true)]))
  }

  /** `dropNode(key)`: removes the node and every edge touching it; graphology
      throws for a missing node. */
  function DropNode(g: Graph, key: NodeKey): (r: Option<Graph>)
    ensures r.None? <==> key !in g.attrs
    ensures r.Some? ==> r.value.Nodes() == g.Nodes() - {key}
    ensures r.Some? ==> forall n :: n in r.value.attrs ==> r.value.attrs[n] == g.attrs[n]
    ensures r.Some? ==> forall k :: k in r.value.edges <==> k in g.edges && !g.edges[k].Touches(key)
    ensures r.Some? ==> forall k :: k in r.value.edges ==> r.value.edges[k] == g.edges[k]
    ensures r.Some? && g.Valid() ==> r.value.Valid()
  {
    if key !in g.attrs then None
    else Some(Graph(g.attrs - {key}, map k | k in g.edges && !g.edges[k].Touches(key) :: g.edges[k]))
  }

  /** `dropEdge(key)`; graphology throws for a missing edge. */
  function DropEdge(g: Graph, key: EdgeKey): (r: Option<Graph>)
    ensures r.None? <==> key !in g.edges
    ensures r.Some? ==> r.value.attrs == g.attrs && r.value.edges.Keys == g.edges.Keys - {key}
    ensures r.Some? ==> forall k :: k in r.value.edges ==> r.value.edges[k] == g.edges[k]
    ensures r.Some? && g.Valid() ==> r.value.Valid()
  {
    if key !in g.edges then None else Some(g.(edges := g.edges - {key}))
  }

  /** Two `setNodeAttribute` calls writing `x` then `y`; the first throws for
      a missing node, so either both happen or neither. */
  function SetPosition(g: Graph, key: NodeKey, p: Point): (r: Option<Graph>)
    ensures r.None? <==> key !in g.attrs
    ensures r.Some? ==> r.value.SameTopology(g)
    ensures r.Some? ==> r.value.attrs[key] == g.attrs[key].(x := p.x, y := p.y)
    ensures r.Some? ==> forall n :: n in g.attrs && n != key ==> r.value.attrs[n] == g.attrs[n]
  {
    if key !in g.attrs then None
    else Some(g.(attrs := g.attrs[key := g.attrs[key].(x := p.x, y := p.y)]))
  }
}
