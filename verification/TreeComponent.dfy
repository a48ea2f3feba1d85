/**
 * The tree bounds of query-cold-joint-dp.py: `joint_table` and `weighted_tree_component` are exact maxima over
 * all ordered pairs of endpoints, for every height.
 */
module TreeComponent {
  import opened Binary
  import opened TreeBits
  import opened MaxTable
  import opened EndpointDp
  import opened JointDp

  /** The best pair found for one way of parting; `j` is 0 for equal endpoints. */
  datatype Row = Row(j: nat, value: int, union: nat, total: int, x: Bits, y: Bits)

  /** Prices of both endpoints and what ends the pair's phases, with and without a zero in y. */
  datatype Phases = Phases(px: Prices, py: Prices, endFull: int, endOpen: int)

  ghost predicate UnitQueries(f: Phases) { f.px.queryWeight == f.py.queryWeight == 1 }

  function PhaseCost(x: Bits, y: Bits, f: Phases): int {
    JointCost((x, y), f.px, f.py) + (if Zeros(y) > 0 then f.endOpen else f.endFull)
  }

  ghost predicate RowExact(r: Row, h: nat, j: nat, f: Phases, nodeWeight: int) {
    && r.j == j && |r.x| == h && Diverges(r.x, r.y, j)
    && r.value == PhaseCost(r.x, r.y, f) && r.union == |Union(r.x, r.y)| && r.total == r.value + nodeWeight * r.union
    && forall x: Bits, y: Bits :: |x| == h && Diverges(x, y, j) ==> PhaseCost(x, y, f) <= r.value
  }

  /** One exact row for each width from 1 on. */
  ghost predicate RowsExact(rows: seq<Row>, h: nat, f: Phases, nodeWeight: int) {
    forall i :: 0 <= i < |rows| ==> RowExact(rows[i], h, i + 1, f, nodeWeight)
  }

  lemma SomePairParts(h: nat, j: nat)
    requires 1 <= j <= h
    ensures var x := seq(h, i => false); Diverges(x, x[h - j := true], j)
  {
  }

  function EndOf(s: JState, f: Phases): int {
    if s.2 == 2 then f.endOpen else f.endFull
  }

  lemma PhaseCostOfState(x: Bits, y: Bits, f: Phases)
    ensures PhaseCost(x, y, f) == JointCost((x, y), f.px, f.py) + EndOf(JStateOf((x, y)), f)
  {
  }

  lemma LargestIsBest(t: Table<JState, Couple>, s: JState, h: nat, j: nat, f: Phases)
    requires JExact(t, h, j, f.px, f.py) && s in t
    requires forall q :: q in t ==> t[q].value + EndOf(q, f) <= t[s].value + EndOf(s, f)
    ensures var (x, y) := t[s].wit;
      && |x| == h && Diverges(x, y, j)
      && forall x': Bits, y': Bits :: |x'| == h && Diverges(x', y', j) ==> PhaseCost(x', y', f) <= PhaseCost(x, y, f)
  {
    var (x, y) := t[s].wit;
    assert JAttained(t[s], s, h, j, f.px, f.py);
    PhaseCostOfState(x, y, f);
    forall x': Bits, y': Bits | |x'| == h && Diverges(x', y', j) ensures PhaseCost(x', y', f) <= PhaseCost(x, y, f) {
      assert JAtMost(t, (x', y'), f.px, f.py);
      PhaseCostOfState(x', y', f);
    }
  }

  /** The best row for pairs that part at width `j`. */
  method RowFor(h: nat, j: nat, f: Phases, nodeWeight: int, tx: Table<State, Bits>, ty: Table<State, Bits>) returns (r: Row)
    requires 1 <= j <= h && UnitQueries(f) && ExactFor(tx, j - 1, f.px) && ExactFor(ty, j - 1, f.py)
    ensures RowExact(r, h, j, f, nodeWeight)
  {
    var t := JointStates(h, j, tx, ty, f.px, f.py);
    SomePairParts(h, j);
    var any := seq(h, i => false);
    assert JAtMost(t, (any, any[h - j := true]), f.px, f.py);
    var s := Largest(t, (s: JState) => EndOf(s, f));
    var (x, y) := t[s].wit;
    LargestIsBest(t, s, h, j, f);
    UnionSize(x, y, j);
    var union := if h == 40 then 79 + 2 * j else 2 * h - 1 + 2 * j;
    var value := PhaseCost(x, y, f);
    r := Row(j, value, union, value + nodeWeight * union, x, y);
  }

  method DivergentRows(h: nat, f: Phases, nodeWeight: int) returns (rows: seq<Row>)
    requires UnitQueries(f)
    ensures |rows| == h && RowsExact(rows, h, f, nodeWeight)
  {
    var tx := EndpointTables(h, f.px);
    var ty := EndpointTables(h, f.py);
    rows := [];
    for j := 1 to h + 1
      invariant |rows| == j - 1 && RowsExact(rows, h, f, nodeWeight)
    {
      var r := RowFor(h, j, f, nodeWeight, tx[j - 1], ty[j - 1]);
      rows := rows + [r];
    }
  }

  /** The equal-endpoint row, as RowFor's counterpart. */
  ghost predicate EqualExact(r: Row, h: nat, f: Phases, nodeWeight: int) {
    && r.x == r.y && |r.x| == h && r.value == PhaseCost(r.x, r.x, f)
    && r.union == |Union(r.x, r.x)| && r.total == r.value + nodeWeight * r.union
    && forall x: Bits :: |x| == h ==> PhaseCost(x, x, f) <= r.value
  }

  /** The best endpoint against itself: both phases on one path of 2h + 1 nodes. */
  method EqualRow(h: nat, f: Phases, both: Prices, nodeWeight: int) returns (r: Row)
    requires both == Prices(f.px.boundary + f.py.boundary, f.px.fullChild + f.py.fullChild, f.px.queryWeight + f.py.queryWeight)
    ensures r.j == 0 && EqualExact(r, h, f, nodeWeight)
  {
    var tables := EndpointTables(h, both);
    var t := tables[h];
    assert AtMost(t, seq(h, i => false), both);
    var s := Largest(t, (s: State) => if s.0 > 0 then f.endOpen else f.endFull);
    var x := t[s].wit;
    assert Attained(t[s], s, h, both);
    BothCosts(x, f, both);
    TouchedSize(x);
    assert Union(x, x) == Touched(x);
    r := Row(0, PhaseCost(x, x, f), 2 * h + 1, PhaseCost(x, x, f) + nodeWeight * (2 * h + 1), x, x);
    forall x': Bits | |x'| == h ensures PhaseCost(x', x', f) <= r.value {
      BothCosts(x', f, both);
      assert AtMost(t, x', both);
    }
  }

  lemma BothCosts(x: Bits, f: Phases, both: Prices)
    requires both == Prices(f.px.boundary + f.py.boundary, f.px.fullChild + f.py.fullChild, f.px.queryWeight + f.py.queryWeight)
    ensures EndpointCost(x, both) == JointCost((x, x), f.px, f.py)
  {
    Sum(f.px.queryWeight, f.py.queryWeight, QueryCost(x));
    Sum(f.px.boundary, f.py.boundary, |Active(x)|);
    Sum(f.px.fullChild, f.py.fullChild, |Active(x)| - Zeros(x));
  }

  lemma Sum(a: int, b: int, x: int)
    ensures (a + b) * x == a * x + b * x
  {
  }

  /** The row with the largest total. */
  method LargestTotal(rows: seq<Row>) returns (r: Row)
    requires rows != []
    ensures r in rows && forall q :: q in rows ==> q.total <= r.total
  {
    r := rows[0];
    for i := 1 to |rows|
      invariant r in rows[..i] && forall q :: q in rows[..i] ==> q.total <= r.total
    {
      if rows[i].total > r.total {
        r := rows[i];
      }
    }
    assert rows[..|rows|] == rows;
  }

  /** What the programs maximise: phases of an ordered pair plus the weight of the nodes its pushes touch. */
  ghost function PairTotal(x: Bits, y: Bits, f: Phases, nodeWeight: int): int {
    PhaseCost(x, y, f) + nodeWeight * |Union(x, y)|
  }

  /** `r` is the maximum over every pair x <= y of `h`-bit endpoints. */
  ghost predicate IsPairMaximum(r: Row, h: nat, f: Phases, nodeWeight: int) {
    && |r.x| == |r.y| == h && Val(r.x) <= Val(r.y) && r.total == PairTotal(r.x, r.y, f, nodeWeight)
    && forall x: Bits, y: Bits :: |x| == |y| == h && Val(x) <= Val(y) ==> PairTotal(x, y, f, nodeWeight) <= r.total
  }

  lemma EqualUnion(x: Bits)
    ensures |Union(x, x)| == 2 * |x| + 1
  {
    TouchedSize(x);
    assert Union(x, x) == Touched(x);
  }

  lemma SameNodes(a: int, b: int, weight: int, m: nat, n: nat)
    requires a <= b && m == n
    ensures a + weight * m <= b + weight * n
  {
  }

  lemma EqualPairBelow(equal: Row, x: Bits, h: nat, f: Phases, nodeWeight: int)
    requires EqualExact(equal, h, f, nodeWeight) && |x| == h
    ensures PairTotal(x, x, f, nodeWeight) <= equal.total
  {
    EqualUnion(x);
    EqualUnion(equal.x);
    SameNodes(PhaseCost(x, x, f), equal.value, nodeWeight, |Union(x, x)|, |Union(equal.x, equal.x)|);
  }

  lemma PartedPairBelow(r: Row, x: Bits, y: Bits, j: nat, h: nat, f: Phases, nodeWeight: int)
    requires RowExact(r, h, j, f, nodeWeight) && |x| == h && Diverges(x, y, j)
    ensures PairTotal(x, y, f, nodeWeight) <= r.total
  {
    hide PhaseCost, Union, Diverges;
    UnionSize(x, y, j);
    UnionSize(r.x, r.y, j);
    SameNodes(PhaseCost(x, y, f), r.value, nodeWeight, |Union(x, y)|, |Union(r.x, r.y)|);
  }

  /** The largest row is the maximum over all ordered pairs: equal, or parting at one of the widths. */
  lemma RowsCoverPairs(rows: seq<Row>, equal: Row, best: Row, h: nat, f: Phases, nodeWeight: int)
    requires |rows| == h && RowsExact(rows, h, f, nodeWeight) && EqualExact(equal, h, f, nodeWeight)
    requires best in rows + [equal] && forall q :: q in rows + [equal] ==> q.total <= best.total
    ensures IsPairMaximum(best, h, f, nodeWeight)
  {
    BestIsPair(rows, equal, best, h, f, nodeWeight);
    forall x: Bits, y: Bits | |x| == |y| == h && Val(x) <= Val(y) ensures PairTotal(x, y, f, nodeWeight) <= best.total {
      OrderIsDivergence(x, y);
      if x == y {
        EqualPairBelow(equal, x, h, f, nodeWeight);
        assert equal in rows + [equal];
      } else {
        var j: nat :| Diverges(x, y, j);
        PartedPairBelow(rows[j - 1], x, y, j, h, f, nodeWeight);
        assert rows[j - 1] in rows + [equal];
      }
    }
  }

  lemma RowIsPair(r: Row, h: nat, j: nat, f: Phases, nodeWeight: int)
    requires RowExact(r, h, j, f, nodeWeight)
    ensures |r.x| == |r.y| == h && Val(r.x) <= Val(r.y) && r.total == PairTotal(r.x, r.y, f, nodeWeight)
  {
    OrderIsDivergence(r.x, r.y);
  }

  lemma EqualIsPair(equal: Row, h: nat, f: Phases, nodeWeight: int)
    requires EqualExact(equal, h, f, nodeWeight)
    ensures |equal.x| == |equal.y| == h && Val(equal.x) <= Val(equal.y)
    ensures equal.total == PairTotal(equal.x, equal.y, f, nodeWeight)
  {
  }

  lemma BestIsPair(rows: seq<Row>, equal: Row, best: Row, h: nat, f: Phases, nodeWeight: int)
    requires |rows| == h && RowsExact(rows, h, f, nodeWeight) && EqualExact(equal, h, f, nodeWeight)
    requires best in rows + [equal]
    ensures |best.x| == |best.y| == h && Val(best.x) <= Val(best.y)
    ensures best.total == PairTotal(best.x, best.y, f, nodeWeight)
  {
    hide PairTotal, Val, EqualExact, RowExact;
    if best == equal {
      EqualIsPair(equal, h, f, nodeWeight);
    } else {
      var j :| 0 <= j < |rows| && rows[j] == best;
      RowIsPair(best, h, j + 1, f, nodeWeight);
    }
  }

  // ---- joint_table ------------------------------------------------------------------------------------------------

  const QueriesOnly: Prices := Prices(0, 0, 1)
  const PlainPhases: Phases := Phases(QueriesOnly, QueriesOnly, 0, 0)

  /** With plain prices a pair's phases are its two direct query costs. */
  lemma PlainPhaseCost(x: Bits, y: Bits)
    ensures PhaseCost(x, y, PlainPhases) == QueryCost(x) + QueryCost(y)
  {
    QueryOnly(x);
    QueryOnly(y);
    PhaseSum(x, y, QueryCost(x), QueryCost(y), PlainPhases);
  }

  lemma PhaseSum(x: Bits, y: Bits, a: int, b: int, f: Phases)
    requires EndpointCost(x, f.px) == a && EndpointCost(y, f.py) == b && f.endOpen == f.endFull == 0
    ensures PhaseCost(x, y, f) == a + b
  {
  }

  lemma QueryOnly(x: Bits)
    ensures EndpointCost(x, QueriesOnly) == QueryCost(x)
  {
    QueriesAlone(QueryCost(x), |Active(x)|, Zeros(x));
  }

  lemma QueriesAlone(q: int, d: int, z: int)
    ensures Priced(q, d, z, QueriesOnly) == q
  {
  }

  /** Largest joint query cost plus weighted node union over all ordered pairs. */
  method JointTable(h: nat, nodeWeight: int) returns (best: Row, rows: seq<Row>, equal: Row)
    ensures IsPairMaximum(best, h, PlainPhases, nodeWeight)
    ensures |rows| == h && RowsExact(rows, h, PlainPhases, nodeWeight)
  {
    rows := DivergentRows(h, PlainPhases, nodeWeight);
    equal := EqualRow(h, PlainPhases, Prices(0, 0, 2), nodeWeight);
    best := LargestTotal(rows + [equal]);
    RowsCoverPairs(rows, equal, best, h, PlainPhases, nodeWeight);
  }

  // ---- weighted_tree_component --------------------------------------------------------------------------------------

  const NODE_WEIGHT: int := 4800

  /** Local opcode prices of the preview and lazy phases, for profit and for loss. */
  datatype LocalPrices = LocalPrices(previewBoundary: int, previewFull: int, previewTerminal: int,
                                     lazyBoundary: int, lazyFull: int, lazyRoot: int)

  function PricesOf(isSub: bool): LocalPrices {
    var change := if isSub then 961 else 730;
    LocalPrices(if isSub then 2994 else 2588, if isSub then 0 else 509, if isSub then 522 else 509,
                (if isSub then 2976 else 2996) + change + 200, 566 + change + 200,
                (if isSub then 586 else 845) + change + 200)
  }

  function FixedPush(h: nat, pushes: nat): int { pushes * PushFixed(h) }

  /** Preview of the cutoff endpoint, stated on its bits. */
  function Preview(x: Bits, l: LocalPrices): int {
    QueryCost(x) + l.previewBoundary * |Active(x)| + l.previewFull * (|Active(x)| - Zeros(x)) + l.previewTerminal
  }

  /** Lazy update of the last endpoint, stated on its bits; a full range ends at the root. */
  function Lazy(y: Bits, l: LocalPrices): int {
    if |Active(y)| > 0 then QueryCost(y) + l.lazyBoundary * |Active(y)| + l.lazyFull * (|Active(y)| - Zeros(y) + 1)
    else l.lazyRoot
  }

  function PhasesOf(l: LocalPrices): Phases {
    Phases(Prices(l.previewBoundary, l.previewFull, 1), Prices(l.lazyBoundary, l.lazyFull, 1),
           l.previewTerminal + l.lazyRoot, l.previewTerminal + l.lazyFull)
  }

  /** The phase cost the tables maximise is preview plus lazy. */
  lemma PhasesAreBodies(x: Bits, y: Bits, l: LocalPrices)
    ensures PhaseCost(x, y, PhasesOf(l)) == Preview(x, l) + Lazy(y, l)
  {
    ActiveEmpty(y);
    if Zeros(y) == 0 {
      AllOnesFree(y);
    } else {
      Linear(l.lazyFull, |Active(y)| - Zeros(y), 1);
    }
  }

  /** What the phases spend, each change of a node with its two dirty stores. */
  lemma PricesAre()
    ensures PricesOf(true) == LocalPrices(2994, 0, 522, 4137, 1727, 1747)
    ensures PricesOf(false) == LocalPrices(2588, 509, 509, 3926, 1496, 1775)
  {
  }

  /** Every node is reached once cold and written once clean. */
  function NodeCost(nodes: nat): int { 2000 * nodes + 2800 * nodes }

  /** The tree body of an ordered pair after two pushes. */
  ghost function TreeBody(x: Bits, y: Bits, h: nat, l: LocalPrices): int {
    PushFixed(h) + PushFixed(h) + NodeCost(|Union(x, y)|) + Preview(x, l) + Lazy(y, l)
  }

  /** The tree body of one endpoint after one push. */
  ghost function OnePushBody(x: Bits, h: nat, l: LocalPrices): int {
    PushFixed(h) + NodeCost(|Touched(x)|) + Preview(x, l) + Lazy(x, l)
  }

  /**
   * The bound is the maximum over every pair x <= y; without the fallback it is the maximum over one endpoint.
   * One push never costs more than two, so the third kind of candidate does not change the overall maximum.
   */
  method WeightedTreeComponent(h: nat, isSub: bool) returns (best: int, noFallback: int)
    ensures exists x: Bits, y: Bits :: |x| == |y| == h && Val(x) <= Val(y) && best == TreeBody(x, y, h, PricesOf(isSub))
    ensures forall x: Bits, y: Bits :: |x| == |y| == h && Val(x) <= Val(y) ==> TreeBody(x, y, h, PricesOf(isSub)) <= best
    ensures exists x: Bits :: |x| == h && noFallback == OnePushBody(x, h, PricesOf(isSub))
    ensures forall x: Bits :: |x| == h ==> OnePushBody(x, h, PricesOf(isSub)) <= noFallback
  {
    var l := PricesOf(isSub);
    var f := PhasesOf(l);
    var rows := DivergentRows(h, f, NODE_WEIGHT);
    var equal := EqualRow(h, f, Prices(l.previewBoundary + l.lazyBoundary, l.previewFull + l.lazyFull, 2), NODE_WEIGHT);
    var top := LargestTotal(rows + [equal]);
    RowsCoverPairs(rows, equal, top, h, f, NODE_WEIGHT);
    noFallback := FixedPush(h, 1) + equal.total;
    best := Max(FixedPush(h, 2) + top.total, noFallback);
    assert equal in rows + [equal];
    forall x: Bits, y: Bits ensures PairTotal(x, y, f, NODE_WEIGHT) + FixedPush(h, 2) == TreeBody(x, y, h, l) {
      PhasesAreBodies(x, y, l);
    }
    assert best == TreeBody(top.x, top.y, h, l);
    PhasesAreBodies(equal.x, equal.x, l);
    assert Union(equal.x, equal.x) == Touched(equal.x);
    assert noFallback == OnePushBody(equal.x, h, l);
    forall x: Bits | |x| == h ensures OnePushBody(x, h, l) <= noFallback {
      PhasesAreBodies(x, x, l);
      EqualPairBelow(equal, x, h, f, NODE_WEIGHT);
      assert Union(x, x) == Touched(x);
    }
  }
}
