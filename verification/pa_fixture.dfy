/**
 * The nine-node fixture of the Preferential Attachment test and the facts
 * the test asserts about one `execute` on it.
 *
 * Degrees: A..F have degree 3, G has 4, H and I have 1. The non-adjacent
 * pairs A-G, B-G, C-G and D-G all score 12, the maximum; the tie-break picks
 * A-G because A comes first in node-insertion order.
 */
module PreferentialAttachmentFixture {
  import opened Wrappers
  import opened Graphs
  import opened PreferentialAttachment

  const A := Node("A", "Node A")
  const B := Node("B", "Node B")
  const C := Node("C", "Node C")
  const D := Node("D", "Node D")
  const E := Node("E", "Node E")
  const F := Node("F", "Node F")
  const G := Node("G", "Node G")
  const H := Node("H", "Node H")
  const I := Node("I", "Node I")

  /** Nodes A..I added in this order, then the twelve undirected edges E1..E12. */
  function Fixture(): Graph {
    Graph([A, B, C, D, E, F, G, H, I],
      [ Edge(A, B, Untagged), Edge(A, D, Untagged), Edge(A, E, Untagged), Edge(B, D, Untagged)
      , Edge(B, C, Untagged), Edge(C, D, Untagged), Edge(C, F, Untagged), Edge(E, F, Untagged)
      , Edge(E, G, Untagged), Edge(F, G, Untagged), Edge(G, H, Untagged), Edge(G, I, Untagged) ])
  }

  /** The fixture's degree of the node at each position. */
  function ExpectedDegree(k: nat): nat {
    if k == 6 then 4 else if k >= 7 then 1 else 3
  }

  lemma FixtureWellFormed()
    ensures WellFormed(Fixture())
  {
  }

  lemma DegreesAToC()
    ensures Degree(Fixture(), A) == 3 && Degree(Fixture(), B) == 3 && Degree(Fixture(), C) == 3
  {
  }

  lemma DegreesDToF()
    ensures Degree(Fixture(), D) == 3 && Degree(Fixture(), E) == 3 && Degree(Fixture(), F) == 3
  {
  }

  lemma DegreesGToI()
    ensures Degree(Fixture(), G) == 4 && Degree(Fixture(), H) == 1 && Degree(Fixture(), I) == 1
  {
  }

  /** The degree of the node at each position is the expected one. */
  lemma DegreeAt(k: nat)
    requires k < |Fixture().nodes|
    ensures Degree(Fixture(), Fixture().nodes[k]) == ExpectedDegree(k)
  {
    var g := Fixture();
    if k == 0 { DegreesAToC(); assert g.nodes[k] == A; }
    else if k == 1 { DegreesAToC(); assert g.nodes[k] == B; }
    else if k == 2 { DegreesAToC(); assert g.nodes[k] == C; }
    else if k == 3 { DegreesDToF(); assert g.nodes[k] == D; }
    else if k == 4 { DegreesDToF(); assert g.nodes[k] == E; }
    else if k == 5 { DegreesDToF(); assert g.nodes[k] == F; }
    else if k == 6 { DegreesGToI(); assert g.nodes[k] == G; }
    else if k == 7 { DegreesGToI(); assert g.nodes[k] == H; }
    else { DegreesGToI(); assert g.nodes[k] == I; }
  }

  /** Node A's neighbours among the nodes before G, and A-G itself. */
  lemma AdjacencyOfA()
    ensures Adjacent(Fixture(), A, B) && Adjacent(Fixture(), A, D) && Adjacent(Fixture(), A, E)
    ensures !Adjacent(Fixture(), A, G)
  {
  }

  /** No edge of the fixture carries an algorithm tag. */
  lemma FixtureUntagged()
    ensures NextIteration(Fixture(), Name) == 1
  {
    var g := Fixture();
    assert forall p :: 0 <= p < |g.edges| ==> !TaggedWith(g.edges[p], Name);
  }

  /** A-G is the pair the tie-break must choose. */
  lemma FixtureBestPairIsAG()
    ensures IsBestPair(Fixture(), 0, 6)
    ensures PairScore(Fixture(), 0, 6) == 12
  {
    var g := Fixture();
    AdjacencyOfA();
    DegreeAt(0);
    DegreeAt(6);
    forall i', j' | IsCandidatePair(g, i', j')
      ensures PairScore(g, i', j') <= 12
    {
      DegreeAt(i');
      DegreeAt(j');
    }
    forall i', j' | IsCandidatePair(g, i', j') && PairBefore(i', j', 0, 6)
      ensures PairScore(g, i', j') < 12
    {
      DegreeAt(i');
      DegreeAt(j');
      assert g.nodes[1] == B && g.nodes[3] == D && g.nodes[4] == E;
    }
  }

  /**
   * One `execute` on the fixture adds exactly one edge, from A to G, tagged
   * with the algorithm name, iteration 1 and score 12 = 3 * 4; the highest
   * prediction is that edge and it belongs to the graph afterwards.
   */
  lemma ExecuteOnFixture()
    ensures WellFormed(Fixture()) && HasCandidate(Fixture())
    ensures var r := Execute(Unexecuted, Fixture());
      && EdgeCount(r.graph) == EdgeCount(Fixture()) + 1
      && HighestPrediction(r.statistic).Some?
      && var max := HighestPrediction(r.statistic).value;
      && max.source.labelText == "Node A"
      && max.target.labelText == "Node G"
      && max.attributes.lastPrediction == Some(Name)
      && max.attributes.addedInRun == 1
      && max.attributes.lastCalculatedValue == 12
      && max in r.graph.edges
  {
    var g := Fixture();
    FixtureWellFormed();
    FixtureBestPairIsAG();
    var r := Execute(Unexecuted, g);
    var i, j :| IsBestPair(g, i, j) && r.statistic.highestPrediction.value ==
      Edge(g.nodes[i], g.nodes[j], Attributes(Some(Name), NextIteration(g, Name), PairScore(g, i, j)));
    BestPairUnique(g, i, j, 0, 6);
    FixtureUntagged();
    assert r.graph.edges[|g.edges|] in r.graph.edges;
  }

  /** The next iteration is 1 before any `execute` and 2 after one. */
  lemma NextIterationOnFixture()
    ensures WellFormed(Fixture()) && HasCandidate(Fixture())
    ensures NextIteration(Fixture(), Name) == 1
    ensures NextIteration(Execute(Unexecuted, Fixture()).graph, Name) == 2
  {
    FixtureWellFormed();
    FixtureBestPairIsAG();
    FixtureUntagged();
    NextIterationAfterExecute(Unexecuted, Fixture());
  }
}
