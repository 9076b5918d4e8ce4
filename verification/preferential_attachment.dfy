/**
 * The Preferential Attachment prediction step: every pair of distinct,
 * non-adjacent nodes is scored by the product of the two degrees, and one
 * `execute` inserts a single edge for a pair of maximum score, tagged with the
 * algorithm name, the iteration number and the score.
 *
 * Ties are broken deterministically: among the pairs of maximum score, the
 * first pair (i, j), i < j, in node-insertion order wins.
 */
module PreferentialAttachment {
  import opened Wrappers
  import opened Graphs

  /** The value written to the last-prediction column by this algorithm. */
  const Name := "Preferential Attachment"

  /** The score of the nodes at positions `i` and `j`: the product of their degrees. */
  function PairScore(g: Graph, i: nat, j: nat): nat
    requires i < |g.nodes| && j < |g.nodes|
  {
    Degree(g, g.nodes[i]) * Degree(g, g.nodes[j])
  }

  /** Positions `i < j` of two nodes that no edge connects yet. */
  ghost predicate IsCandidatePair(g: Graph, i: int, j: int) {
    0 <= i < j < |g.nodes| && !Adjacent(g, g.nodes[i], g.nodes[j])
  }

  ghost predicate HasCandidate(g: Graph) {
    exists i, j :: IsCandidatePair(g, i, j)
  }

  /** Node-insertion order on pairs of positions: by first position, then second. */
  predicate PairBefore(i: int, j: int, i': int, j': int) {
    i < i' || (i == i' && j < j')
  }

  /**
   * The pair the step must select: a candidate of maximum score such that
   * every candidate ordered before it scores strictly less.
   */
  ghost predicate IsBestPair(g: Graph, i: int, j: int) {
    && IsCandidatePair(g, i, j)
    && (forall i', j' :: IsCandidatePair(g, i', j') ==> PairScore(g, i', j') <= PairScore(g, i, j))
    && (forall i', j' :: IsCandidatePair(g, i', j') && PairBefore(i', j', i, j) ==> PairScore(g, i', j') < PairScore(g, i, j))
  }

  /** The tie-break makes the selection unique. */
  lemma BestPairUnique(g: Graph, i: int, j: int, i': int, j': int)
    requires IsBestPair(g, i, j) && IsBestPair(g, i', j')
    ensures i == i' && j == j'
  {
  }

  /** A scored candidate pair, by node positions. */
  datatype Candidate = Candidate(i: nat, j: nat, score: nat)

  predicate SortedByPosition(cs: seq<Candidate>) {
    forall a, b :: 0 <= a < b < |cs| ==> PairBefore(cs[a].i, cs[a].j, cs[b].i, cs[b].j)
  }

  /**
   * All candidate pairs at or after position pair (i, j), scored, in
   * node-insertion order.
   */
  function CandidatesFrom(g: Graph, i: nat, j: nat): (cs: seq<Candidate>)
    requires i < j
    decreases |g.nodes| - i, |g.nodes| - j
    ensures forall c :: c in cs <==>
      (IsCandidatePair(g, c.i, c.j) && !PairBefore(c.i, c.j, i, j) && c.score == PairScore(g, c.i, c.j))
    ensures SortedByPosition(cs)
  {
    if i >= |g.nodes| then []
    else if j >= |g.nodes| then CandidatesFrom(g, i + 1, i + 2)
    else
      var rest := CandidatesFrom(g, i, j + 1);
      if Adjacent(g, g.nodes[i], g.nodes[j]) then rest
      else [Candidate(i, j, PairScore(g, i, j))] + rest
  }

  /**
   * The position of the first candidate of maximum score: a later candidate
   * replaces the current best only when it scores strictly more.
   */
  function FirstMax(cs: seq<Candidate>): (r: nat)
    requires |cs| > 0
    ensures r < |cs|
    ensures forall k :: 0 <= k < |cs| ==> cs[k].score <= cs[r].score
    ensures forall k :: 0 <= k < r ==> cs[k].score < cs[r].score
  {
    if |cs| == 1 then 0
    else
      var best := FirstMax(cs[1..]) + 1;
      if cs[0].score >= cs[best].score then 0 else best
  }

  /**
   * In a position-sorted list holding exactly the scored candidate pairs, the
   * first candidate of maximum score is the best pair.
   */
  lemma FirstMaxIsBestPair(g: Graph, cs: seq<Candidate>)
    requires |cs| > 0
    requires forall c :: c in cs ==> IsCandidatePair(g, c.i, c.j) && c.score == PairScore(g, c.i, c.j)
    requires forall i, j :: IsCandidatePair(g, i, j) ==> Candidate(i, j, PairScore(g, i, j)) in cs
    requires SortedByPosition(cs)
    ensures IsBestPair(g, cs[FirstMax(cs)].i, cs[FirstMax(cs)].j)
  {
    var k := FirstMax(cs);
    var c := cs[k];
    assert c in cs;
    forall i', j' | IsCandidatePair(g, i', j')
      ensures PairScore(g, i', j') <= c.score
      ensures PairBefore(i', j', c.i, c.j) ==> PairScore(g, i', j') < c.score
    {
      var c' := Candidate(i', j', PairScore(g, i', j'));
      var a :| 0 <= a < |cs| && cs[a] == c';
      if PairBefore(i', j', c.i, c.j) {
        ListedBeforeWhenOrderedBefore(cs, a, k);
      }
    }
  }

  /** In a position-sorted list, a pair ordered before another one is listed before it. */
  lemma ListedBeforeWhenOrderedBefore(cs: seq<Candidate>, a: nat, k: nat)
    requires SortedByPosition(cs) && a < |cs| && k < |cs|
    requires PairBefore(cs[a].i, cs[a].j, cs[k].i, cs[k].j)
    ensures a < k
  {
  }

  /** The pair one `execute` selects. */
  function SelectPair(g: Graph): (c: Candidate)
    requires HasCandidate(g)
    ensures IsBestPair(g, c.i, c.j)
    ensures c.score == PairScore(g, c.i, c.j)
  {
    var cs := CandidatesFrom(g, 0, 1);
    assert |cs| > 0 by {
      var i0, j0 :| IsCandidatePair(g, i0, j0);
      assert Candidate(i0, j0, PairScore(g, i0, j0)) in cs;
    }
    FirstMaxIsBestPair(g, cs);
    cs[FirstMax(cs)]
  }

  /**
   * The part of the algorithm object's state that `execute` changes: its
   * highest prediction. It is the state an `EvaluationMetric.Statistic`
   * for this algorithm would carry.
   */
  datatype PredictionState = PredictionState(highestPrediction: Option<Edge>)

  /** A statistic that has not executed yet. */
  const Unexecuted := PredictionState(None)

  /** What one `execute` produces: the updated statistic and the graph with the new edge. */
  datatype Step = Step(statistic: PredictionState, graph: Graph)

  predicate TaggedWith(e: Edge, name: string) {
    e.attributes.lastPrediction == Some(name)
  }

  /** The largest iteration among the edges of `es`, from `k` on, tagged with `name`; 0 if none. */
  function MaxIterationFrom(es: seq<Edge>, name: string, k: nat): (m: nat)
    decreases |es| - k
    ensures forall p :: k <= p < |es| && TaggedWith(es[p], name) ==> es[p].attributes.addedInRun <= m
    ensures m == 0 || exists p :: k <= p < |es| && TaggedWith(es[p], name) && es[p].attributes.addedInRun == m
  {
    if k >= |es| then 0
    else
      var rest := MaxIterationFrom(es, name, k + 1);
      if TaggedWith(es[k], name) && es[k].attributes.addedInRun > rest then es[k].attributes.addedInRun else rest
  }

  /**
   * The iteration number the next edge of algorithm `name` gets: one more than
   * the largest iteration among the edges tagged with `name`, or 1 if none is.
   */
  function NextIteration(g: Graph, name: string): (r: nat)
    ensures r >= 1
    ensures forall p :: 0 <= p < |g.edges| && TaggedWith(g.edges[p], name) ==> g.edges[p].attributes.addedInRun < r
    ensures r == 1 || exists p :: 0 <= p < |g.edges| && TaggedWith(g.edges[p], name) && g.edges[p].attributes.addedInRun == r - 1
  {
    MaxIterationFrom(g.edges, name, 0) + 1
  }

  /** The edge the step inserts for the selected pair. */
  function PredictedEdge(g: Graph, c: Candidate): Edge
    requires c.i < |g.nodes| && c.j < |g.nodes|
  {
    Edge(g.nodes[c.i], g.nodes[c.j], Attributes(Some(Name), NextIteration(g, Name), c.score))
  }

  /**
   * One prediction step: adds exactly one edge, between the best pair, and
   * records it as the statistic's highest prediction.
   */
  function Execute(s: PredictionState, g: Graph): (r: Step)
    requires WellFormed(g) && HasCandidate(g)
    ensures r.graph.nodes == g.nodes
    ensures EdgeCount(r.graph) == EdgeCount(g) + 1
    ensures r.graph.edges[..|g.edges|] == g.edges
    ensures r.statistic.highestPrediction.Some?
    ensures r.graph.edges[|g.edges|] == r.statistic.highestPrediction.value
    ensures exists i, j ::
      && IsBestPair(g, i, j)
      && r.statistic.highestPrediction.value ==
         Edge(g.nodes[i], g.nodes[j], Attributes(Some(Name), NextIteration(g, Name), PairScore(g, i, j)))
    ensures WellFormed(r.graph)
  {
    var c := SelectPair(g);
    var e := PredictedEdge(g, c);
    assert e == Edge(g.nodes[c.i], g.nodes[c.j], Attributes(Some(Name), NextIteration(g, Name), PairScore(g, c.i, c.j)));
    assert e.source in g.nodes && e.target in g.nodes;
    Step(PredictionState(Some(e)), AddEdge(g, e))
  }

  /** The edge with the highest prediction of the last `execute`, if there was one. */
  function HighestPrediction(s: PredictionState): Option<Edge> {
    s.highestPrediction
  }

  /**
   * The inserted pair was not adjacent before, in either order, and is
   * adjacent afterwards, in either order.
   */
  lemma ExecuteConnectsNonAdjacentPair(s: PredictionState, g: Graph)
    requires WellFormed(g) && HasCandidate(g)
    ensures var e := Execute(s, g).statistic.highestPrediction.value;
      && e.source != e.target
      && !Adjacent(g, e.source, e.target) && !Adjacent(g, e.target, e.source)
      && Adjacent(Execute(s, g).graph, e.source, e.target) && Adjacent(Execute(s, g).graph, e.target, e.source)
  {
    var r := Execute(s, g);
    var e := r.statistic.highestPrediction.value;
    var i, j :| IsBestPair(g, i, j) && e ==
      Edge(g.nodes[i], g.nodes[j], Attributes(Some(Name), NextIteration(g, Name), PairScore(g, i, j)));
    HasEdgeFromMeansSomeEdge(r.graph.edges, e.source, e.target, 0);
    assert Connects(r.graph.edges[|g.edges|], e.source, e.target);
    AdjacentSymmetric(g, e.source, e.target);
    AdjacentSymmetric(r.graph, e.source, e.target);
  }

  /**
   * The degrees the next step scores with: the two endpoints of the inserted
   * edge gain one each, every other node keeps its degree.
   */
  lemma DegreesAfterExecute(s: PredictionState, g: Graph, n: Node)
    requires WellFormed(g) && HasCandidate(g)
    ensures var e := Execute(s, g).statistic.highestPrediction.value;
      Degree(Execute(s, g).graph, n) == Degree(g, n) + (if n == e.source || n == e.target then 1 else 0)
  {
    var e := PredictedEdge(g, SelectPair(g));
    assert Execute(s, g).graph == AddEdge(g, e);
    DegreeAfterAddEdge(g, e, n);
  }

  /**
   * Appending an edge tagged with `name` and the current next iteration
   * advances the next iteration by exactly one.
   */
  lemma NextIterationAfterTaggedEdge(g: Graph, e: Edge, name: string)
    requires TaggedWith(e, name) && e.attributes.addedInRun == NextIteration(g, name)
    ensures NextIteration(AddEdge(g, e), name) == NextIteration(g, name) + 1
  {
    var g' := AddEdge(g, e);
    var m := NextIteration(g', name);
    assert g'.edges[|g.edges|] == e;
    if m != 1 {
      var p :| 0 <= p < |g'.edges| && TaggedWith(g'.edges[p], name) && g'.edges[p].attributes.addedInRun == m - 1;
    }
  }

  /** Each step advances the algorithm's iteration counter by exactly one. */
  lemma NextIterationAfterExecute(s: PredictionState, g: Graph)
    requires WellFormed(g) && HasCandidate(g)
    ensures NextIteration(Execute(s, g).graph, Name) == NextIteration(g, Name) + 1
  {
    var e := PredictedEdge(g, SelectPair(g));
    NextIterationAfterTaggedEdge(g, e, Name);
  }
}
