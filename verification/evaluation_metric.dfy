/**
 * The metric-independent part of an evaluation metric: choosing which graph
 * the prediction starts from, the prediction loop that records one metric
 * value per iteration, the routing of the two graphs into the abstract
 * `calculate`, and equality and hashing of metric instances.
 *
 * The link-prediction algorithm's `execute` and the metric's `calculate` are
 * function values; the metric value type `R` is left abstract.
 */
module EvaluationMetric {
  import opened Graphs

  /** The runtime class of an object, as `getClass()` reports it. */
  datatype ClassId = ClassId(name: string)

  /** What one `execute` leaves behind: the algorithm's new state and the trained graph. */
  datatype Progress<S> = Progress(state: S, trained: Graph)

  /**
   * A link-prediction algorithm object: its class, its name, the state it
   * carries (such as its highest prediction), and `execute`, which changes
   * both that state and the graph it is given.
   */
  datatype Statistic<!S> = Statistic(cls: ClassId, algorithmName: string, state: S, execute: (S, Graph) -> Progress<S>)

  /**
   * An evaluation metric: its own class, the algorithm it evaluates, and the
   * metric-specific `calculate(addedEdges, trained, validation, statistic)`.
   */
  datatype Metric<!S, R> = Metric(cls: ClassId, statistic: Statistic<S>, calculate: (int, Graph, Graph, Statistic<S>) -> R)

  /** The metric reports the name of the algorithm it evaluates. */
  function AlgorithmName<S, R>(m: Metric<S, R>): string {
    m.statistic.algorithmName
  }

  function Abs(x: int): nat {
    if x < 0 then -x else x
  }

  // ---------------------------------------------------------------- graph-size reconciliation

  /** One of the two input graphs. */
  datatype GraphRole = InitialRole | ValidationRole

  /** The graph the prediction starts from, and how many edges are to be predicted. */
  datatype Reconciliation = Reconciliation(current: GraphRole, diffEdgeCount: nat)

  function EdgesOf(role: GraphRole, initialEdges: int, validationEdges: int): int {
    if role == InitialRole then initialEdges else validationEdges
  }

  function Other(role: GraphRole): GraphRole {
    if role == InitialRole then ValidationRole else InitialRole
  }

  /**
   * The validation graph is current only when the initial graph has strictly
   * more edges; equal counts make the initial graph current. The current graph
   * has no more edges than the other one, and the difference is the number of
   * edges to predict.
   */
  function DetermineCurrentGraph(initialEdges: nat, validationEdges: nat): (r: Reconciliation)
    ensures r.current == ValidationRole <==> initialEdges > validationEdges
    ensures r.diffEdgeCount == Abs(initialEdges - validationEdges)
    ensures EdgesOf(r.current, initialEdges, validationEdges) <= EdgesOf(Other(r.current), initialEdges, validationEdges)
    ensures r.diffEdgeCount ==
      EdgesOf(Other(r.current), initialEdges, validationEdges) - EdgesOf(r.current, initialEdges, validationEdges)
  {
    if initialEdges > validationEdges then
      Reconciliation(ValidationRole, initialEdges - validationEdges)
    else
      Reconciliation(InitialRole, validationEdges - initialEdges)
  }

  // ---------------------------------------------------------------- routing into calculate

  /** Which of the two graphs is meant. */
  datatype Operand = TrainedOperand | ValidationOperand

  /**
   * The arguments `calculate` receives: the added-edge count, the graph passed
   * in its `trained` position and the graph passed in its `validation` position.
   */
  datatype Routing = Routing(addedEdges: int, first: Operand, second: Operand)

  function EdgesOfOperand(o: Operand, trainedEdges: int, validationEdges: int): int {
    if o == TrainedOperand then trainedEdges else validationEdges
  }

  /**
   * The added-edge count is the validation count minus the trained count and
   * may be negative. The validation graph goes first exactly when the trained
   * graph has strictly more edges, so the first graph never has more edges
   * than the second, and the added-edge count is the gap between them up to sign.
   */
  function Route(trainedEdges: int, validationEdges: int): (r: Routing)
    ensures r.addedEdges == validationEdges - trainedEdges
    ensures r.first != r.second
    ensures r.first == ValidationOperand <==> trainedEdges > validationEdges
    ensures EdgesOfOperand(r.first, trainedEdges, validationEdges) <= EdgesOfOperand(r.second, trainedEdges, validationEdges)
    ensures Abs(r.addedEdges) ==
      EdgesOfOperand(r.second, trainedEdges, validationEdges) - EdgesOfOperand(r.first, trainedEdges, validationEdges)
  {
    var addedEdges := validationEdges - trainedEdges;
    if trainedEdges > validationEdges then
      Routing(addedEdges, ValidationOperand, TrainedOperand)
    else if trainedEdges < validationEdges then
      Routing(addedEdges, TrainedOperand, ValidationOperand)
    else
      Routing(addedEdges, TrainedOperand, ValidationOperand)
  }

  function GraphOf(o: Operand, trained: Graph, validation: Graph): Graph {
    if o == TrainedOperand then trained else validation
  }

  /**
   * The metric value for the given edge counts, the current trained graph and
   * the algorithm as it is at that point. `calculate` receives (validation,
   * trained) when the trained count is strictly larger and (trained,
   * validation) otherwise: fewer and equal counts are routed alike.
   */
  function CalculateCurrentResult<S, R>(m: Metric<S, R>, statistic: Statistic<S>, trainedEdges: int, validationEdges: int,
                                        trained: Graph, validation: Graph): (r: R)
    ensures trainedEdges > validationEdges ==>
      r == m.calculate(validationEdges - trainedEdges, validation, trained, statistic)
    ensures trainedEdges <= validationEdges ==>
      r == m.calculate(validationEdges - trainedEdges, trained, validation, statistic)
  {
    var rt := Route(trainedEdges, validationEdges);
    m.calculate(rt.addedEdges, GraphOf(rt.first, trained, validation), GraphOf(rt.second, trained, validation), statistic)
  }

  // ---------------------------------------------------------------- the prediction loop

  /** The algorithm state and the trained graph after `n` runs of `execute`. */
  function Iterate<S>(execute: (S, Graph) -> Progress<S>, p: Progress<S>, n: nat): Progress<S> {
    if n == 0 then p else
      var q := Iterate(execute, p, n - 1);
      execute(q.state, q.trained)
  }

  /** The algorithm object after `n` runs of `execute`: same class, name and `execute`, advanced state. */
  function StatisticAfter<S>(statistic: Statistic<S>, trained0: Graph, n: nat): Statistic<S> {
    statistic.(state := Iterate(statistic.execute, Progress(statistic.state, trained0), n).state)
  }

  /** The trained graph after `n` runs of `execute`. */
  function TrainedAfter<S>(statistic: Statistic<S>, trained0: Graph, n: nat): Graph {
    Iterate(statistic.execute, Progress(statistic.state, trained0), n).trained
  }

  /** The iteration numbers 1..n; empty when n <= 0. */
  function KeysUpTo(n: int): (ks: set<int>)
    ensures forall k :: k in ks <==> 1 <= k <= n
  {
    if n <= 0 then {} else KeysUpTo(n - 1) + {n}
  }

  /**
   * The value recorded for iteration `k`: the metric on the trained graph and
   * the algorithm object, both after `k` runs of `execute`.
   */
  function ResultAt<S, R>(m: Metric<S, R>, trainedEdges: int, validationEdges: int, trained0: Graph, validation: Graph, k: nat): R {
    CalculateCurrentResult(m, StatisticAfter(m.statistic, trained0, k), trainedEdges, validationEdges,
      TrainedAfter(m.statistic, trained0, k), validation)
  }

  /**
   * Runs `execute` `diffEdgeCount` times, which changes both the trained graph
   * and the algorithm object; after the i-th run stores under key i the
   * metric value computed from the two edge counts it was given, which stay
   * the same in every iteration, the trained graph and the algorithm object as
   * they are at that point. Keys of `previous` outside 1..diffEdgeCount keep
   * their values. The ghost output records how often `execute` ran.
   */
  method PredictLinks<S, R>(m: Metric<S, R>, diffEdgeCount: int, trainedEdges: int, validationEdges: int,
                            trained0: Graph, validation: Graph, previous: map<int, R>)
    returns (statistic: Statistic<S>, trained: Graph, results: map<int, R>, ghost executeCalls: nat)
    ensures executeCalls == if diffEdgeCount > 0 then diffEdgeCount else 0
    ensures statistic == StatisticAfter(m.statistic, trained0, executeCalls)
    ensures trained == TrainedAfter(m.statistic, trained0, executeCalls)
    ensures results.Keys == previous.Keys + KeysUpTo(diffEdgeCount)
    ensures forall i: nat :: 1 <= i <= diffEdgeCount ==>
      results[i] == ResultAt(m, trainedEdges, validationEdges, trained0, validation, i)
    ensures forall k :: k in previous && !(1 <= k <= diffEdgeCount) ==> results[k] == previous[k]
  {
    statistic := m.statistic;
    trained := trained0;
    results := previous;
    executeCalls := 0;
    var i := 1;
    while i <= diffEdgeCount
      invariant 1 <= i
      invariant i <= (if diffEdgeCount > 0 then diffEdgeCount else 0) + 1
      invariant executeCalls == i - 1
      invariant statistic == StatisticAfter(m.statistic, trained0, executeCalls)
      invariant trained == TrainedAfter(m.statistic, trained0, executeCalls)
      invariant results.Keys == previous.Keys + KeysUpTo(i - 1)
      invariant forall k: nat :: 1 <= k < i ==> results[k] == ResultAt(m, trainedEdges, validationEdges, trained0, validation, k)
      invariant forall k :: k in previous && !(1 <= k < i) ==> results[k] == previous[k]
    {
      var next := statistic.execute(statistic.state, trained);
      statistic := statistic.(state := next.state);
      trained := next.trained;
      executeCalls := executeCalls + 1;
      var currentResult := CalculateCurrentResult(m, statistic, trainedEdges, validationEdges, trained, validation);
      assert currentResult == ResultAt(m, trainedEdges, validationEdges, trained0, validation, i);
      results := results[i := currentResult];
      assert KeysUpTo(i) == KeysUpTo(i - 1) + {i};
      i := i + 1;
    }
  }

  // ---------------------------------------------------------------- the whole run

  /** What a run leaves in the metric: the algorithm object it changed, among the rest. */
  datatype EvaluationRun<!S, R> =
    EvaluationRun(diffEdgeCount: nat, statistic: Statistic<S>, trained: Graph, iterationResults: map<int, R>, finalResult: R)

  /** The graph prediction starts from: validation when initial has strictly more edges, else initial. */
  function CurrentGraph(initial: Graph, validation: Graph): Graph {
    if EdgeCount(initial) > EdgeCount(validation) then validation else initial
  }

  /**
   * One evaluation: picks the current graph, lets `copyNodes` build the
   * trained graph from it (the framework's node copy into a new workspace),
   * predicts `diffEdgeCount` edges into it, and computes one metric value per
   * iteration and a final one, all from the edge counts taken before
   * prediction and from the algorithm object as `execute` has left it at that
   * point. `previous` is the metric's result map before the run.
   */
  method Run<S, R>(m: Metric<S, R>, copyNodes: Graph -> Graph, initial: Graph, validation: Graph, previous: map<int, R>)
    returns (run: EvaluationRun<S, R>)
    ensures run.diffEdgeCount == Abs(EdgeCount(initial) - EdgeCount(validation))
    ensures var trained0 := copyNodes(CurrentGraph(initial, validation));
      && run.trained == TrainedAfter(m.statistic, trained0, run.diffEdgeCount)
      && run.statistic == StatisticAfter(m.statistic, trained0, run.diffEdgeCount)
    ensures run.iterationResults.Keys == previous.Keys + KeysUpTo(run.diffEdgeCount)
    ensures var trained0 := copyNodes(CurrentGraph(initial, validation));
      forall i: nat :: 1 <= i <= run.diffEdgeCount ==>
        run.iterationResults[i] == CalculateCurrentResult(m, StatisticAfter(m.statistic, trained0, i),
          EdgeCount(trained0), EdgeCount(validation), TrainedAfter(m.statistic, trained0, i), validation)
    ensures forall k :: k in previous && !(1 <= k <= run.diffEdgeCount) ==> run.iterationResults[k] == previous[k]
    ensures run.finalResult == CalculateCurrentResult(m, run.statistic,
      EdgeCount(copyNodes(CurrentGraph(initial, validation))), EdgeCount(validation), run.trained, validation)
  {
    var initialEdges := EdgeCount(initial);
    var validationEdges := EdgeCount(validation);
    var reconciliation := DetermineCurrentGraph(initialEdges, validationEdges);
    var current := if reconciliation.current == ValidationRole then validation else initial;
    var trained0 := copyNodes(current);
    var trainedEdges := EdgeCount(trained0);
    var statistic, trained, results, _ :=
      PredictLinks(m, reconciliation.diffEdgeCount, trainedEdges, validationEdges, trained0, validation, previous);
    var finalResult := CalculateCurrentResult(m, statistic, trainedEdges, validationEdges, trained, validation);
    run := EvaluationRun(reconciliation.diffEdgeCount, statistic, trained, results, finalResult);
  }

  /**
   * With a trained count of 0 (a trained graph without edges), `calculate`
   * gets the validation count as added edges, the trained graph first and
   * the validation graph second.
   */
  lemma SnapshotRouting<S, R>(m: Metric<S, R>, statistic: Statistic<S>, validationEdges: nat, trained: Graph, validation: Graph)
    ensures CalculateCurrentResult(m, statistic, 0, validationEdges, trained, validation)
      == m.calculate(validationEdges, trained, validation, statistic)
  {
  }

  /**
   * `Run` when the node copy brings no edges along: every iteration and the
   * final value call `calculate` with the validation edge count, the trained
   * graph, the validation graph and the algorithm object as it is then.
   */
  method RunWithNodeOnlyCopy<S, R>(m: Metric<S, R>, initial: Graph, validation: Graph, previous: map<int, R>)
    returns (run: EvaluationRun<S, R>)
    ensures run.diffEdgeCount == Abs(EdgeCount(initial) - EdgeCount(validation))
    ensures var trained0 := NodeOnlyClone(CurrentGraph(initial, validation));
      && run.trained == TrainedAfter(m.statistic, trained0, run.diffEdgeCount)
      && run.statistic == StatisticAfter(m.statistic, trained0, run.diffEdgeCount)
    ensures run.iterationResults.Keys == previous.Keys + KeysUpTo(run.diffEdgeCount)
    ensures var trained0 := NodeOnlyClone(CurrentGraph(initial, validation));
      forall i: nat :: 1 <= i <= run.diffEdgeCount ==>
        run.iterationResults[i] == m.calculate(EdgeCount(validation),
          TrainedAfter(m.statistic, trained0, i), validation, StatisticAfter(m.statistic, trained0, i))
    ensures forall k :: k in previous && !(1 <= k <= run.diffEdgeCount) ==> run.iterationResults[k] == previous[k]
    ensures run.finalResult == m.calculate(EdgeCount(validation), run.trained, validation, run.statistic)
  {
    run := Run(m, NodeOnlyClone, initial, validation, previous);
    var trained0 := NodeOnlyClone(CurrentGraph(initial, validation));
    forall i: nat | 1 <= i <= run.diffEdgeCount
      ensures run.iterationResults[i] == m.calculate(EdgeCount(validation),
        TrainedAfter(m.statistic, trained0, i), validation, StatisticAfter(m.statistic, trained0, i))
    {
      SnapshotRouting(m, StatisticAfter(m.statistic, trained0, i), EdgeCount(validation),
        TrainedAfter(m.statistic, trained0, i), validation);
    }
    SnapshotRouting(m, run.statistic, EdgeCount(validation), run.trained, validation);
  }

  /**
   * Running `execute` keeps the algorithm's class, so the metric stays equal
   * to the metric it was before the run.
   */
  lemma RunKeepsAlgorithmClass<S, R>(m: Metric<S, R>, trained0: Graph, n: nat)
    ensures StatisticAfter(m.statistic, trained0, n).cls == m.statistic.cls
    ensures StatisticAfter(m.statistic, trained0, n).algorithmName == m.statistic.algorithmName
    ensures Equals(m, MetricObject(m.(statistic := StatisticAfter(m.statistic, trained0, n))))
  {
  }

  // ---------------------------------------------------------------- equality and hashing

  /** Any object a metric may be compared with. */
  datatype Object<!S, R> = MetricObject(metric: Metric<S, R>) | OtherObject

  /** A metric equals another metric whose algorithm has the same class. */
  predicate Equals<S, R>(m: Metric<S, R>, o: Object<S, R>) {
    o.MetricObject? && o.metric.statistic.cls == m.statistic.cls
  }

  newtype Int32 = x: int | -0x8000_0000 <= x < 0x8000_0000

  /** Java `int` arithmetic: reduce modulo 2^32 into the signed range. */
  function Wrap32(x: int): (r: Int32)
    ensures (r as int - x) % 0x1_0000_0000 == 0
  {
    (((x + 0x8000_0000) % 0x1_0000_0000) - 0x8000_0000) as Int32
  }

  /**
   * `Objects.hash` of the algorithm's class, i.e. 31 + its hash code in `int`
   * arithmetic; `classHash` stands for the class objects' identity hash codes.
   */
  function HashCode<S, R>(m: Metric<S, R>, classHash: ClassId -> Int32): Int32 {
    Wrap32(31 + classHash(m.statistic.cls) as int)
  }

  lemma EqualsIffSameStatisticClass<S, R>(m: Metric<S, R>, m': Metric<S, R>)
    ensures Equals(m, MetricObject(m')) <==> m.statistic.cls == m'.statistic.cls
    ensures !Equals(m, OtherObject)
  {
  }

  /** The metric's own class plays no part: different metrics of one algorithm are equal. */
  lemma MetricClassIgnored<S, R>(m: Metric<S, R>, m': Metric<S, R>)
    requires m.cls != m'.cls && m.statistic.cls == m'.statistic.cls
    ensures Equals(m, MetricObject(m'))
  {
  }

  lemma EqualsIsEquivalence<S, R>(m1: Metric<S, R>, m2: Metric<S, R>, m3: Metric<S, R>)
    ensures Equals(m1, MetricObject(m1))
    ensures Equals(m1, MetricObject(m2)) ==> Equals(m2, MetricObject(m1))
    ensures Equals(m1, MetricObject(m2)) && Equals(m2, MetricObject(m3)) ==> Equals(m1, MetricObject(m3))
  {
  }

  /** Equal metrics hash equally, whatever the class hash codes are. */
  lemma EqualMetricsHashEqually<S, R>(m: Metric<S, R>, m': Metric<S, R>, classHash: ClassId -> Int32)
    requires Equals(m, MetricObject(m'))
    ensures HashCode(m, classHash) == HashCode(m', classHash)
  {
  }
}
