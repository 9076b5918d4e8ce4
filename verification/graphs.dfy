/**
 * Undirected graphs as immutable values: nodes in insertion order and edges
 * carrying the three link-prediction attribute columns (last prediction
 * algorithm, iteration the edge was added in, last calculated value).
 */
module Graphs {
  import opened Wrappers

  /** A node: its identifier and its label (`label` is a Dafny keyword). */
  datatype Node = Node(id: string, labelText: string)

  /**
   * The per-edge attribute columns. `lastPrediction` is None for an edge no
   * algorithm produced; `addedInRun` is 0 for such an edge.
   */
  datatype Attributes = Attributes(lastPrediction: Option<string>, addedInRun: nat, lastCalculatedValue: int)

  /** The attributes of an edge that was present from the start. */
  const Untagged := Attributes(None, 0, 0)

  datatype Edge = Edge(source: Node, target: Node, attributes: Attributes)

  /** Nodes are kept in insertion order; edges in the order they were added. */
  datatype Graph = Graph(nodes: seq<Node>, edges: seq<Edge>)

  /** Edges are undirected: an edge connects its endpoints in either order. */
  predicate Connects(e: Edge, u: Node, v: Node) {
    (e.source == u && e.target == v) || (e.source == v && e.target == u)
  }

  predicate Incident(e: Edge, n: Node) {
    e.source == n || e.target == n
  }

  /** Distinct nodes, and every edge endpoint is a node of the graph. */
  predicate WellFormed(g: Graph) {
    && (forall i, j :: 0 <= i < j < |g.nodes| ==> g.nodes[i] != g.nodes[j])
    && (forall k :: 0 <= k < |g.edges| ==> g.edges[k].source in g.nodes && g.edges[k].target in g.nodes)
  }

  function EdgeCount(g: Graph): nat {
    |g.edges|
  }

  /** Whether some edge of `es` at position `k` or later connects `u` and `v`. */
  predicate HasEdgeFrom(es: seq<Edge>, u: Node, v: Node, k: nat)
    decreases |es| - k
  {
    if k >= |es| then false else Connects(es[k], u, v) || HasEdgeFrom(es, u, v, k + 1)
  }

  predicate Adjacent(g: Graph, u: Node, v: Node) {
    HasEdgeFrom(g.edges, u, v, 0)
  }

  /** The scan agrees with the existential reading: some edge connects the two nodes. */
  lemma {:induction false} HasEdgeFromMeansSomeEdge(es: seq<Edge>, u: Node, v: Node, k: nat)
    ensures HasEdgeFrom(es, u, v, k) <==> exists m :: k <= m < |es| && Connects(es[m], u, v)
    decreases |es| - k
  {
    if k < |es| {
      HasEdgeFromMeansSomeEdge(es, u, v, k + 1);
    }
  }

  /** Adjacency is symmetric, as the graph is undirected. */
  lemma AdjacentSymmetric(g: Graph, u: Node, v: Node)
    ensures Adjacent(g, u, v) <==> Adjacent(g, v, u)
  {
    HasEdgeFromMeansSomeEdge(g.edges, u, v, 0);
    HasEdgeFromMeansSomeEdge(g.edges, v, u, 0);
  }

  /** The number of edges of `es`, from position `k` on, incident to `n`. */
  function IncidentCountFrom(es: seq<Edge>, n: Node, k: nat): nat
    decreases |es| - k
  {
    if k >= |es| then 0 else (if Incident(es[k], n) then 1 else 0) + IncidentCountFrom(es, n, k + 1)
  }

  /** The degree of a node: the number of edges incident to it. */
  function Degree(g: Graph, n: Node): nat {
    IncidentCountFrom(g.edges, n, 0)
  }

  /** Appending one edge raises the count of exactly its endpoints, by one. */
  lemma {:induction false} IncidentCountAppend(es: seq<Edge>, e: Edge, n: Node, k: nat)
    requires k <= |es|
    ensures IncidentCountFrom(es + [e], n, k) == IncidentCountFrom(es, n, k) + (if Incident(e, n) then 1 else 0)
    decreases |es| - k
  {
    if k < |es| {
      IncidentCountAppend(es, e, n, k + 1);
    }
  }

  /** The graph with one more edge; nodes unchanged, no existing edge removed. */
  function AddEdge(g: Graph, e: Edge): (r: Graph)
    ensures r.nodes == g.nodes
    ensures EdgeCount(r) == EdgeCount(g) + 1
    ensures forall k :: 0 <= k < |g.edges| ==> r.edges[k] == g.edges[k]
    ensures r.edges[|g.edges|] == e
    ensures WellFormed(g) && e.source in g.nodes && e.target in g.nodes ==> WellFormed(r)
  {
    Graph(g.nodes, g.edges + [e])
  }

  /** Degrees after `AddEdge`: only the two endpoints gain one. */
  lemma DegreeAfterAddEdge(g: Graph, e: Edge, n: Node)
    ensures Degree(AddEdge(g, e), n) == Degree(g, n) + (if Incident(e, n) then 1 else 0)
  {
    IncidentCountAppend(g.edges, e, n, 0);
  }

  /** A new graph holding the same nodes as `g` and no edges. */
  function NodeOnlyClone(g: Graph): (r: Graph)
    ensures r.nodes == g.nodes
    ensures EdgeCount(r) == 0
    ensures WellFormed(g) ==> WellFormed(r)
  {
    Graph(g.nodes, [])
  }
}
