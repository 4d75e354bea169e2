/**
 * The import graph of `amas-app/src/workspace_graph/workspace_graph.rs`: an
 * undirected petgraph graph whose nodes are files and whose edges are
 * imports of weight 1.0.  Nodes and edges are kept in insertion order, and a
 * node's index is its position, as in petgraph's `Graph`.
 */
module Graph {

  /** `File { name }` of `amas-app/src/file/file.rs`. */
  datatype File = File(name: string)

  /** An undirected edge between the nodes at positions `a` and `b`. */
  datatype Edge = Edge(a: nat, b: nat, weight: real)

  predicate EdgesWithin(edges: seq<Edge>, n: nat)
  {
    forall i :: 0 <= i < |edges| ==> edges[i].a < n && edges[i].b < n
  }

  class WorkspaceGraph {
    var nodes: seq<File>
    var edges: seq<Edge>

    /** Every edge joins two existing nodes (petgraph panics otherwise). */
    ghost predicate Valid()
      reads this
    {
      EdgesWithin(edges, |nodes|)
    }

    /** `WorkspaceGraph::new`: an empty undirected graph. */
    constructor ()
      ensures nodes == [] && edges == []
      ensures Valid()
    {
      nodes := [];
      edges := [];
    }

    /** `add_file`: appends a node and returns its index. */
    method AddFile(file: File) returns (index: nat)
      requires Valid()
      modifies this
      ensures index == old(|nodes|)
      ensures nodes == old(nodes) + [file] && nodes[index] == file
      ensures edges == old(edges)
      ensures Valid()
    {
      index := |nodes|;
      nodes := nodes + [file];
    }

    /** `add_import`: appends an edge of weight 1.0; both ends must be nodes. */
    method AddImport(a: nat, b: nat)
      requires Valid()
      requires a < |nodes| && b < |nodes|
      modifies this
      ensures edges == old(edges) + [Edge(a, b, 1.0)]
      ensures nodes == old(nodes)
      ensures Valid()
    {
      edges := edges + [Edge(a, b, 1.0)];
    }
  }

  // ---------------------------------------------------------------------
  // Adjacency as petgraph's `edges(v)` reports it
  // ---------------------------------------------------------------------

  /** Targets of the edges stored with `v` as first end, most recent first. */
  function Outgoing(edges: seq<Edge>, v: nat): seq<nat>
  {
    if edges == [] then []
    else
      var e := edges[|edges| - 1];
      (if e.a == v then [e.b] else []) + Outgoing(edges[..|edges| - 1], v)
  }

  /** Sources of the edges stored with `v` as second end only, most recent first. */
  function Incoming(edges: seq<Edge>, v: nat): seq<nat>
  {
    if edges == [] then []
    else
      var e := edges[|edges| - 1];
      (if e.b == v && e.a != v then [e.a] else []) + Incoming(edges[..|edges| - 1], v)
  }

  /**
   * The other ends of the edges at `v`, in the order `graph.edges(v)` yields
   * them on an undirected graph: the outgoing list first, then the incoming
   * list, a self-loop once.
   */
  function Neighbours(edges: seq<Edge>, v: nat): seq<nat>
  {
    Outgoing(edges, v) + Incoming(edges, v)
  }

  /** The number of edges touching `v` (a self-loop counts once). */
  function Degree(edges: seq<Edge>, v: nat): nat
  {
    if edges == [] then 0
    else
      var e := edges[|edges| - 1];
      (if e.a == v || e.b == v then 1 else 0) + Degree(edges[..|edges| - 1], v)
  }

  /** `edges(v)` yields one entry per edge touching `v`. */
  lemma {:induction false} NeighboursCount(edges: seq<Edge>, v: nat)
    ensures |Neighbours(edges, v)| == Degree(edges, v)
    decreases |edges|
  {
    if edges != [] {
      NeighboursCount(edges[..|edges| - 1], v);
    }
  }

  /** Every neighbour is a node of the graph. */
  lemma {:induction false} NeighboursWithin(edges: seq<Edge>, n: nat, v: nat)
    requires EdgesWithin(edges, n)
    ensures forall u :: u in Neighbours(edges, v) ==> u < n
    decreases |edges|
  {
    if edges != [] {
      var init := edges[..|edges| - 1];
      assert EdgesWithin(init, n) by {
        forall i | 0 <= i < |init| ensures init[i].a < n && init[i].b < n {
          assert init[i] == edges[i];
        }
      }
      NeighboursWithin(init, n, v);
      forall u | u in Neighbours(edges, v) ensures u < n {
        NeighbourOfLast(edges, u, v);
      }
    }
  }

  /** Adjacency is symmetric: `u` is reported at `v` exactly when `v` is reported at `u`. */
  lemma {:induction false} NeighboursSymmetric(edges: seq<Edge>, u: nat, v: nat)
    ensures u in Neighbours(edges, v) <==> v in Neighbours(edges, u)
    decreases |edges|
  {
    if edges != [] {
      var init := edges[..|edges| - 1];
      NeighboursSymmetric(init, u, v);
      NeighbourOfLast(edges, u, v);
      NeighbourOfLast(edges, v, u);
    }
  }

  /** What the last edge adds to the neighbours of `v`. */
  lemma NeighbourOfLast(edges: seq<Edge>, u: nat, v: nat)
    requires edges != []
    ensures var e := edges[|edges| - 1];
      u in Neighbours(edges, v) <==>
        u in Neighbours(edges[..|edges| - 1], v) || (e.a == v && e.b == u) || (e.b == v && e.a == u)
  {
    var e := edges[|edges| - 1];
    var init := edges[..|edges| - 1];
    assert Neighbours(edges, v) == (if e.a == v then [e.b] else []) + Outgoing(init, v)
      + (if e.b == v && e.a != v then [e.a] else []) + Incoming(init, v);
  }

  /** The import just added at `a` is the first entry of `edges(a)`. */
  lemma AddedImportFirst(edges: seq<Edge>, a: nat, b: nat)
    ensures Neighbours(edges + [Edge(a, b, 1.0)], a) == [b] + Neighbours(edges, a)
  {
    assert (edges + [Edge(a, b, 1.0)])[..|edges|] == edges;
  }

  /** At the other end `b != a`, the new import comes after `b`'s outgoing edges and before its incoming ones. */
  lemma AddedImportAtTarget(edges: seq<Edge>, a: nat, b: nat)
    requires a != b
    ensures Neighbours(edges + [Edge(a, b, 1.0)], b) == Outgoing(edges, b) + [a] + Incoming(edges, b)
  {
    assert (edges + [Edge(a, b, 1.0)])[..|edges|] == edges;
  }
}
