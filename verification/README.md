# Link-prediction evaluation engine, modelled in Dafny

This project models the evaluation engine of the LinkPrediction plugin for
Gephi. An evaluation metric takes an initial graph and a validation graph.
It picks the graph with fewer edges as the "current" one and copies that
graph's nodes into a new trained graph. Whether that framework copy also
brings edges along is left open (see "## Left out"). It then runs a
link-prediction algorithm (`execute`) once per missing edge. After each run it
records one metric value per iteration, and at the end it records a final
value. The model also covers
one prediction step of the Preferential Attachment algorithm, as its unit test
pins it down.

Files:

- `wrappers.dfy`: `Option`.
- `graphs.dfy`: undirected graphs as values. Nodes are kept in insertion
  order. Each edge carries the three attribute columns: last prediction
  algorithm, iteration added in, and last calculated value. The file also
  defines degree, adjacency, edge insertion and the node-only copy.
- `preferential_attachment.dfy`: the Preferential Attachment step. A pair
  scores `deg(u) * deg(v)`. Candidates are the non-adjacent pairs of distinct
  nodes. Among the highest-scoring candidates, the first pair in
  node-insertion order wins. One `execute` inserts exactly one edge, tagged
  with the algorithm name, the next iteration number and the score.
  `NextIteration` is one more than the largest iteration tagged with the
  algorithm name, or 1 if there is none.
- `pa_fixture.dfy`: the test's nine-node graph and the facts the test asserts
  about one `execute` on it.
- `evaluation_metric.dfy`: the metric-independent logic of
  `EvaluationMetric`. It covers the graph-size reconciliation, the prediction
  loop, the routing of the two graphs into the abstract `calculate`, the run,
  and equality and hashing.

The algorithm's `execute` and the metric's `calculate` are function values.
The metric value type is a type parameter, so no floating point is involved.
`execute` changes the algorithm object as well as the graph (the unit test
reads the new highest prediction from the algorithm afterwards). The model
gives the algorithm a state of an abstract type that `execute` maps to a new
state along with the new graph. Every `calculate` receives the algorithm
object as the preceding runs of `execute` have left it, and the run returns
that changed object.

Run-time state becomes explicit values. The metric's existing result map is
an input to `Run`. The trained graph, the changed algorithm object, the result
map, the final value and `diffEdgeCount` are its output. The input graphs are values, so a run cannot
change them.

Edge counts are snapshots: every iteration and the final value use the
validation count and the trained count taken before prediction, while the
graph passed as `trained` grows from one iteration to the next. `Run` is
stated for any node-copy function `copyNodes`, with the trained count being
the edge count of the copy. `RunWithNodeOnlyCopy` is the case where the copy
brings no edges along: the trained count is then 0, so `calculate` receives
the validation edge count as `addedEdges`, then the trained graph, then the
validation graph.

The Preferential Attachment implementation is not shown. Ties are broken by
node-insertion order, which selects A-G on the test fixture.

## Model

| member | source | states |
|---|---|---|
| EvaluationMetric.DetermineCurrentGraph | modules/LinkPrediction/src/main/java/org/gephi/plugins/linkprediction/base/EvaluationMetric.java:246-263 | The validation graph is current if and only if the initial graph has strictly more edges. Equal counts pick the initial graph. `diffEdgeCount` is never negative and equals the absolute difference of the two counts. The current graph has no more edges than the other graph. |
| Graphs.NodeOnlyClone | modules/LinkPrediction/src/main/java/org/gephi/plugins/linkprediction/base/EvaluationMetric.java:118-122 | The node-only copy holds exactly the nodes of the current graph and no edges. |
| EvaluationMetric.Route | modules/LinkPrediction/src/main/java/org/gephi/plugins/linkprediction/base/EvaluationMetric.java:272-290 | `addedEdges` is the validation count minus the trained count and may be negative. The validation graph goes first if and only if the trained count is strictly larger. The first graph never has more edges than the second. `addedEdges` is, up to sign, the gap between the two counts. |
| EvaluationMetric.CalculateCurrentResult | modules/LinkPrediction/src/main/java/org/gephi/plugins/linkprediction/base/EvaluationMetric.java:272-290 | `calculate` receives (validation, trained) when the trained count is strictly larger, and (trained, validation) when it is smaller or equal, so the smaller and equal branches behave the same. `addedEdges` is the validation count minus the trained count in both cases. The algorithm object passed is the one given, that is, the algorithm in its current state. |
| EvaluationMetric.PredictLinks | modules/LinkPrediction/src/main/java/org/gephi/plugins/linkprediction/base/EvaluationMetric.java:217-236 | `execute` runs exactly `diffEdgeCount` times, or 0 times when that count is not positive. Afterwards the algorithm object and the trained graph are those that many runs of `execute` produce, and the algorithm keeps its class and name. Key i holds the metric for the trained graph and the algorithm object after i runs, computed from the same two snapshot counts. Other keys keep their earlier values. |
| EvaluationMetric.KeysUpTo | modules/LinkPrediction/src/main/java/org/gephi/plugins/linkprediction/base/EvaluationMetric.java:220 | The iteration keys are exactly the integers 1..n, and there are none when n <= 0. |
| EvaluationMetric.SnapshotRouting | modules/LinkPrediction/src/main/java/org/gephi/plugins/linkprediction/base/EvaluationMetric.java:272-290 | With a trained count of 0, `calculate` gets the validation count as `addedEdges`, then the trained graph, then the validation graph, then the algorithm object as it is. |
| EvaluationMetric.Run | modules/LinkPrediction/src/main/java/org/gephi/plugins/linkprediction/base/EvaluationMetric.java:103-133 | `diffEdgeCount` is the absolute difference of the edge counts. The trained graph is the copy of the graph with fewer edges (the initial graph on a tie) after `diffEdgeCount` runs of `execute`. The algorithm object returned is the one those runs leave behind. Iteration results occupy keys 1..`diffEdgeCount`. Key i holds the current result for the trained graph and the algorithm object after i runs, computed from the copy's edge count and the validation count taken before prediction. The final result uses the same two counts, the final trained graph and the final algorithm object. Other keys keep their earlier values. |
| EvaluationMetric.RunWithNodeOnlyCopy | modules/LinkPrediction/src/main/java/org/gephi/plugins/linkprediction/base/EvaluationMetric.java:119-133 | When the copy has no edges, every iteration result is `calculate(validation count, trained after i runs, validation, algorithm after i runs)`, and the final result is the same call with the final trained graph and the final algorithm. |
| EvaluationMetric.RunKeepsAlgorithmClass | modules/LinkPrediction/src/main/java/org/gephi/plugins/linkprediction/base/EvaluationMetric.java:192-198 | Running `execute` any number of times keeps the algorithm's class and name, so the metric after a run equals the metric before it. |
| EvaluationMetric.AlgorithmName | modules/LinkPrediction/src/main/java/org/gephi/plugins/linkprediction/base/EvaluationMetric.java:173-175 | A plain getter: the metric reports the name of the algorithm it wraps. |
| EvaluationMetric.EqualsIffSameStatisticClass | modules/LinkPrediction/src/main/java/org/gephi/plugins/linkprediction/base/EvaluationMetric.java:192-198 | A metric equals another metric if and only if their algorithms have the same class. It never equals an object that is not a metric. |
| EvaluationMetric.MetricClassIgnored | modules/LinkPrediction/src/main/java/org/gephi/plugins/linkprediction/base/EvaluationMetric.java:192-198 | Two metrics of different metric classes that wrap algorithms of the same class are equal. |
| EvaluationMetric.EqualsIsEquivalence | modules/LinkPrediction/src/main/java/org/gephi/plugins/linkprediction/base/EvaluationMetric.java:192-198 | Equality is reflexive, symmetric and transitive. |
| EvaluationMetric.EqualMetricsHashEqually | modules/LinkPrediction/src/main/java/org/gephi/plugins/linkprediction/base/EvaluationMetric.java:192-208 | Equal metrics have equal hash codes, for any class hash codes. The hash depends only on the algorithm's class. |
| EvaluationMetric.Wrap32 | modules/LinkPrediction/src/main/java/org/gephi/plugins/linkprediction/base/EvaluationMetric.java:207 | The hash is computed in Java `int` arithmetic: the result is congruent to the exact value modulo 2^32. |
| PreferentialAttachment.SelectPair | modules/LinkPrediction/src/test/java/org/gephi/plugins/linkprediction/statistics/PreferentialAttachmentStatisticsTest.java:98-106 | The selected pair is a pair of distinct, non-adjacent nodes with maximum degree product. Every candidate that comes earlier in node-insertion order scores strictly less. |
| PreferentialAttachment.BestPairUnique | modules/LinkPrediction/src/test/java/org/gephi/plugins/linkprediction/statistics/PreferentialAttachmentStatisticsTest.java:98-106 | The selection rule picks a single pair, so the prediction is deterministic. |
| PreferentialAttachment.CandidatesFrom | modules/LinkPrediction/src/test/java/org/gephi/plugins/linkprediction/statistics/PreferentialAttachmentStatisticsTest.java:98-109 | The candidates listed are exactly the non-adjacent node pairs, scored by degree product and ordered by node-insertion order. |
| PreferentialAttachment.FirstMax | modules/LinkPrediction/src/test/java/org/gephi/plugins/linkprediction/statistics/PreferentialAttachmentStatisticsTest.java:98-106 | The chosen candidate has the maximum score, and every candidate before it scores strictly less. |
| PreferentialAttachment.FirstMaxIsBestPair | modules/LinkPrediction/src/test/java/org/gephi/plugins/linkprediction/statistics/PreferentialAttachmentStatisticsTest.java:98-106 | Taking the first maximum-score entry of the position-sorted candidate list yields the best pair. |
| PreferentialAttachment.NextIteration | modules/LinkPrediction/src/test/java/org/gephi/plugins/linkprediction/statistics/PreferentialAttachmentStatisticsTest.java:122-135 | The next iteration is at least 1 and exceeds every iteration tagged with the algorithm. It is 1, or one more than some tagged iteration. |
| PreferentialAttachment.Execute | modules/LinkPrediction/src/test/java/org/gephi/plugins/linkprediction/statistics/PreferentialAttachmentStatisticsTest.java:87-120 | Nodes are unchanged and the edge count grows by exactly one. The old edges are kept, in order, and the new edge is the highest prediction. That edge joins the selected pair and is tagged with the algorithm name, the next iteration and the pair's score. The graph stays well formed. |
| PreferentialAttachment.HighestPrediction | modules/LinkPrediction/src/test/java/org/gephi/plugins/linkprediction/statistics/PreferentialAttachmentStatisticsTest.java:103-117 | A plain getter for the edge the last `execute` recorded. What it returns is stated by the contract of `Execute` and by `ExecuteOnFixture`. |
| PreferentialAttachment.ExecuteConnectsNonAdjacentPair | modules/LinkPrediction/src/test/java/org/gephi/plugins/linkprediction/statistics/PreferentialAttachmentStatisticsTest.java:87-106 | The inserted edge joins two distinct nodes that were not adjacent before, in either order, and are adjacent afterwards, in either order. |
| PreferentialAttachment.DegreesAfterExecute | modules/LinkPrediction/src/test/java/org/gephi/plugins/linkprediction/statistics/PreferentialAttachmentStatisticsTest.java:87-120 | After one `execute`, the two endpoints of the inserted edge have one more incident edge each and every other node keeps its degree. These are the degrees the next `execute` scores with. |
| PreferentialAttachment.NextIterationAfterTaggedEdge | modules/LinkPrediction/src/test/java/org/gephi/plugins/linkprediction/statistics/PreferentialAttachmentStatisticsTest.java:122-135 | Adding an edge that carries the algorithm name and the current next iteration raises the next iteration by exactly one. |
| PreferentialAttachment.NextIterationAfterExecute | modules/LinkPrediction/src/test/java/org/gephi/plugins/linkprediction/statistics/PreferentialAttachmentStatisticsTest.java:122-135 | Each `execute` raises the algorithm's next iteration by exactly one. |
| PreferentialAttachmentFixture.DegreeAt | modules/LinkPrediction/src/test/java/org/gephi/plugins/linkprediction/statistics/PreferentialAttachmentStatisticsTest.java:29-84 | In the fixture, A..F have degree 3, G has degree 4, and H and I have degree 1. |
| PreferentialAttachmentFixture.FixtureBestPairIsAG | modules/LinkPrediction/src/test/java/org/gephi/plugins/linkprediction/statistics/PreferentialAttachmentStatisticsTest.java:29-84 | A-G is the pair the rule selects, with score 12 = 3 * 4, even though B-G, C-G and D-G also score 12. |
| PreferentialAttachmentFixture.ExecuteOnFixture | modules/LinkPrediction/src/test/java/org/gephi/plugins/linkprediction/statistics/PreferentialAttachmentStatisticsTest.java:87-120 | One `execute` on the fixture adds one edge. The highest prediction runs from "Node A" to "Node G", carries the algorithm name, iteration 1 and score 12, and is contained in the graph. |
| PreferentialAttachmentFixture.NextIterationOnFixture | modules/LinkPrediction/src/test/java/org/gephi/plugins/linkprediction/statistics/PreferentialAttachmentStatisticsTest.java:122-135 | The next iteration is 1 before any `execute` and 2 after one. |

## Left out

- Graphs.NodeOnlyClone: assumes that the framework's node copy into the new workspace brings no edges along. That copy is not part of this model. `Run` itself takes the copy as a parameter and states its results through the copy's edge count, so only `RunWithNodeOnlyCopy` depends on this assumption. The model also assumes that the `initial` and `validation` fields are the same graphs as those of the initial and validation workspaces that the run reads the current graph from.
- Workspace and project plumbing (controller lookups, creating, renaming, opening and restoring workspaces) is not modelled: these are framework calls. Their effect is reduced to choosing a graph value and copying its nodes. Logging is not modelled either.
- Column initialization (`initializeColumns`) is not modelled. Its code is not part of this model, and every edge simply carries the three attribute columns.
- The getters `getIterationResults`, `getFinalResult`, `getDiffEdgeCount` and `getStatistic` are not separate members: they are the fields of `EvaluationRun` and `Metric`.
- EvaluationMetric.PredictLinks: does not model the Java `int` loop counter wrapping around when `diffEdgeCount` is 2^31 - 1. That would take two billion edges.
- The concrete `calculate` formulas and the `double` metric values are not modelled. Their code is not part of this model, so `calculate` stays an abstract function.
- The state an algorithm object carries is an abstract type. The model does not say that the run changes one shared object in place; it returns the changed object as a value in the run's result.
- The class hash codes behind `Objects.hash` are identity hash codes and are a parameter of `HashCode`.
- PreferentialAttachment.Execute: requires a well-formed graph with at least one non-adjacent pair. The implementation class is not part of this model, and what it does when no pair is left is not shown.
- The Preferential Attachment name constant lives in the builder class, which is not part of this model. The value "Preferential Attachment" is assumed.
- `NextIteration` is assumed to be the largest tagged iteration plus one, because the implementation class is not part of this model. The test confirms only 1 and 2.
- A self-loop counts once towards a node's degree. Self-loops never occur in the fixture, and candidates are always pairs of distinct nodes.
- The evaluation loop takes `execute` as an arbitrary function and is not instantiated with the Preferential Attachment step, because that step needs a remaining candidate pair.
- The Neo4j importer, its integration test and the Swing panels are not modelled: they are network, database and UI code.
