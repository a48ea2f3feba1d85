/**
 * The two-endpoint dynamic programs of query-cold-joint-dp.py: endpoints x <= y that part at some width, their
 * query and phase costs, and the tree nodes their two pushes touch, for every height.
 */
module JointDp {
  import opened Binary
  import opened TreeBits
  import opened MaxTable
  import opened EndpointDp

  // ---- Pairs of endpoints ------------------------------------------------------------------------------------------

  type Couple = (Bits, Bits)

  /** Equal high bits, then x goes left and y right with `j` bits from there on. */
  ghost predicate Diverges(x: Bits, y: Bits, j: nat) {
    && |x| == |y| && 1 <= j <= |x|
    && x[..|x| - j] == y[..|x| - j] && !x[|x| - j] && y[|x| - j]
  }

  lemma {:induction false} ValCons(b: bool, rest: Bits)
    ensures Val([b] + rest) == Bit(b) * Pow2(|rest|) + Val(rest)
  {
    ValConcat([b], rest);
    assert [b][..0] == [];
  }

  ghost predicate Parts(x: Bits, y: Bits) { exists j: nat :: Diverges(x, y, j) }

  /** Numeric order of endpoints is where they part. */
  lemma {:induction false} OrderIsDivergence(x: Bits, y: Bits)
    requires |x| == |y|
    ensures Val(x) < Val(y) <==> Parts(x, y)
    ensures Val(x) == Val(y) <==> x == y
  {
    if x != [] {
      var x', y' := x[1..], y[1..];
      assert x == [x[0]] + x' && y == [y[0]] + y';
      ValCons(x[0], x');
      ValCons(y[0], y');
      OrderIsDivergence(x', y');
      PartsCons(x, y);
    }
  }

  lemma PartsCons(x: Bits, y: Bits)
    requires |x| == |y| > 0
    ensures Parts(x, y) <==> if x[0] == y[0] then Parts(x[1..], y[1..]) else y[0]
  {
    var x', y' := x[1..], y[1..];
    assert x == [x[0]] + x' && y == [y[0]] + y';
    if x[0] == y[0] {
      forall j: nat ensures Diverges(x, y, j) <==> Diverges(x', y', j) {
        if j < |x| {
          DivergesCons(x[0], x', y', j);
        }
      }
    } else if y[0] {
      assert Diverges(x, y, |x|);
    } else {
      forall j: nat ensures !Diverges(x, y, j) {
        if 1 <= j < |x| {
          assert x[..|x| - j][0] != y[..|x| - j][0];
        }
      }
    }
  }

  lemma DivergesCons(b: bool, x: Bits, y: Bits, j: nat)
    requires j <= |x|
    ensures Diverges([b] + x, [b] + y, j) <==> Diverges(x, y, j)
  {
    var xb, yb := [b] + x, [b] + y;
    if |x| == |y| && 1 <= j <= |x| {
      assert xb[..|xb| - j] == [b] + x[..|x| - j];
      assert yb[..|yb| - j] == [b] + y[..|y| - j];
      assert xb[..|xb| - j][1..] == x[..|x| - j] && yb[..|yb| - j][1..] == y[..|y| - j];
    }
  }

  /** Above the parting both endpoints have the same top bit. */
  lemma DivergesSplit(x: Bits, y: Bits, j: nat)
    requires Diverges(x, y, j) && j < |x|
    ensures x == [x[0]] + x[1..] && y == [x[0]] + y[1..] && Diverges(x[1..], y[1..], j)
  {
    assert x[..|x| - j][0] == y[..|x| - j][0];
    assert x == [x[0]] + x[1..] && y == [x[0]] + y[1..];
    DivergesCons(x[0], x[1..], y[1..], j);
  }

  lemma DivergesHere(x: Bits, y: Bits)
    requires |x| == |y|
    ensures Diverges([false] + x, [true] + y, |x| + 1)
  {
  }

  lemma {:induction false} DivergesZero(x: Bits, y: Bits, j: nat)
    requires Diverges(x, y, j)
    ensures Zeros(x) > 0
  {
    if j < |x| {
      DivergesSplit(x, y, j);
      DivergesZero(x[1..], y[1..], j);
    }
  }

  // ---- Nodes a push touches ----------------------------------------------------------------------------------------

  ghost function Under(b: bool, nodes: set<Bits>): set<Bits> {
    set n | n in nodes :: [b] + n
  }

  /** A push touches the root and, at every level of its path, both children. A node is named by its path. */
  ghost function Touched(bits: Bits): set<Bits> {
    if bits == [] then {[]}
    else {[], [!bits[0]]} + Under(bits[0], Touched(bits[1..]))
  }

  ghost function Union(x: Bits, y: Bits): set<Bits> { Touched(x) + Touched(y) }

  lemma {:induction false} UnderSize(b: bool, nodes: set<Bits>)
    ensures |Under(b, nodes)| == |nodes|
  {
    if nodes == {} {
      assert Under(b, nodes) == {};
    } else {
      var n :| n in nodes;
      UnderSize(b, nodes - {n});
      assert Under(b, nodes) == Under(b, nodes - {n}) + {[b] + n};
      assert [b] + n !in Under(b, nodes - {n}) by {
        forall m | m in nodes - {n} ensures [b] + m != [b] + n {
          assert ([b] + m)[1..] == m && ([b] + n)[1..] == n;
        }
      }
    }
  }

  lemma {:induction false} RootTouched(bits: Bits)
    ensures [] in Touched(bits)
  {
  }

  /** One push touches 2h + 1 nodes. */
  lemma {:induction false} TouchedSize(bits: Bits)
    ensures |Touched(bits)| == 2 * |bits| + 1
  {
    if bits != [] {
      TouchedSize(bits[1..]);
      TopSize(bits[0], Touched(bits[1..]));
    }
  }

  /** What a push spends apart from reaching its nodes, from the root down: a call a level, and the leaf's. */
  function PushSteps(bits: Bits): int {
    if bits == [] then 77 else 1814 + 2 * StoreSteps() + PushSteps(bits[1..])
  }

  /** Setting an amount is a call and a store to a slot that is dirty already. */
  function StoreSteps(): int { 481 + 100 }

  /** The fixed cost of a push at height `h`. */
  function PushFixed(h: nat): int { h * 1814 + 77 + 2 * h * (481 + 100) }

  /** It is what the steps along any path spend: every touched node but the root is stored once, the leaf's level calls none. */
  lemma {:induction false} PushFixedIs(bits: Bits)
    ensures PushFixed(|bits|) == PushSteps(bits) == 77 + 1814 * |bits| + StoreSteps() * (|Touched(bits)| - 1)
  {
    TouchedSize(bits);
    if bits != [] {
      PushFixedIs(bits[1..]);
    }
  }

  /** A root and its two children above a subtree's nodes. */
  lemma TopSize(b: bool, below: set<Bits>)
    ensures |{[], [!b]} + Under(b, below)| == 2 + |below|
  {
    UnderSize(b, below);
    DisjointTop(b, below);
  }

  /** Root and sibling are not below the path child. */
  lemma DisjointTop(b: bool, nodes: set<Bits>)
    ensures |{[], [!b]} + Under(b, nodes)| == 2 + |Under(b, nodes)|
  {
    assert forall n :: n in Under(b, nodes) ==> |n| > 0 && n[0] == b;
    assert {[], [!b]} !! Under(b, nodes);
    assert [] != [!b];
    assert |{[], [!b]}| == 2;
  }

  /** Paths that part at the root share only the root. */
  lemma UnionAtRoot(x: Bits, y: Bits)
    requires |x| == |y|
    ensures |Union([false] + x, [true] + y)| == 1 + |Touched(x)| + |Touched(y)|
  {
    var l, r := Under(false, Touched(x)), Under(true, Touched(y));
    UnderSize(false, Touched(x));
    UnderSize(true, Touched(y));
    RootTouched(x);
    RootTouched(y);
    assert [false] + [] == [false] && [true] + [] == [true];
    assert [false] in l && [true] in r;
    assert ([false] + x)[1..] == x && ([true] + y)[1..] == y;
    assert Union([false] + x, [true] + y) == {[]} + l + r;
    assert forall n :: n in l ==> |n| > 0 && !n[0];
    assert forall n :: n in r ==> |n| > 0 && n[0];
    assert {[]} !! l && {[]} + l !! r;
  }

  lemma UnderUnion(b: bool, m: set<Bits>, n: set<Bits>)
    ensures Under(b, m + n) == Under(b, m) + Under(b, n)
  {
  }

  lemma UnionBelow(b: bool, x: Bits, y: Bits)
    ensures |Union([b] + x, [b] + y)| == 2 + |Union(x, y)|
  {
    assert ([b] + x)[1..] == x && ([b] + y)[1..] == y;
    UnderSize(b, Union(x, y));
    DisjointTop(b, Union(x, y));
    UnderUnion(b, Touched(x), Touched(y));
    assert Union([b] + x, [b] + y) == {[], [!b]} + Under(b, Union(x, y));
  }

  /** Two pushes that part at width j touch 2h - 1 + 2j distinct nodes. */
  lemma {:induction false} UnionSize(x: Bits, y: Bits, j: nat)
    requires Diverges(x, y, j)
    ensures |Union(x, y)| == 2 * |x| - 1 + 2 * j
  {
    var x', y' := x[1..], y[1..];
    if j == |x| {
      assert x == [false] + x' && y == [true] + y';
      UnionAtRoot(x', y');
      TouchedSize(x');
      TouchedSize(y');
    } else {
      DivergesSplit(x, y, j);
      UnionSize(x', y', j);
      UnionBelow(x[0], x', y');
    }
  }

  // ---- The joint tables --------------------------------------------------------------------------------------------

  /** Zeros of both, highest zeros of both added, and how many of the two have a zero. */
  type JState = (nat, nat, nat)

  function JStateOf(w: Couple): JState { Coupled(StateOf(w.0), StateOf(w.1)) }

  function Coupled(x: State, y: State): JState { (x.0 + y.0, x.1 + y.1, 1 + Bit(y.0 > 0)) }

  function JointCost(w: Couple, px: Prices, py: Prices): int {
    EndpointCost(w.0, px) + EndpointCost(w.1, py)
  }

  /** What a common bit adds, from the joint state alone. Both queries have weight one. */
  function JExtra(s: JState, bit: bool, px: Prices, py: Prices): int {
    if !bit then px.boundary + py.boundary
    else 65 * s.2 + 379 * s.0 + 133 * s.1 + px.boundary + px.fullChild
         + (if s.2 == 2 then py.boundary + py.fullChild else 0)
  }

  function JCandidate(s: JState, e: Entry<Couple>, bit: bool, width: nat, px: Prices, py: Prices): (JState, Entry<Couple>) {
    (if bit then s else (s.0 + 2, 2 * width, 2),
     Entry(e.value + JExtra(s, bit, px, py), ([bit] + e.wit.0, [bit] + e.wit.1)))
  }

  /** Where the endpoints part: x goes left above `ex`, y goes right above `ey`. */
  function PartingCandidate(sx: State, ex: Entry<Bits>, sy: State, ey: Entry<Bits>, j: nat, px: Prices, py: Prices)
    : (JState, Entry<Couple>)
  {
    ((sx.0 + 1 + sy.0, j + sy.1, 1 + Bit(sy.0 > 0)),
     Entry(ex.value + Extra(sx, false, px) + ey.value + Extra(sy, true, py), ([false] + ex.wit, [true] + ey.wit)))
  }

  ghost predicate JAttained(e: Entry<Couple>, s: JState, width: nat, j: nat, px: Prices, py: Prices) {
    |e.wit.0| == width && Diverges(e.wit.0, e.wit.1, j) && JStateOf(e.wit) == s && JointCost(e.wit, px, py) == e.value
  }

  ghost predicate JAtMost(t: Table<JState, Couple>, w: Couple, px: Prices, py: Prices) {
    JStateOf(w) in t && JointCost(w, px, py) <= t[JStateOf(w)].value
  }

  /** Exact for all pairs of `width` bits that part at width `j`. */
  ghost predicate JExact(t: Table<JState, Couple>, width: nat, j: nat, px: Prices, py: Prices) {
    && (forall s :: s in t ==> JAttained(t[s], s, width, j, px, py))
    && (forall x: Bits, y: Bits :: |x| == width && Diverges(x, y, j) ==> JAtMost(t, (x, y), px, py))
  }

  /** A common bit above a diverged pair: the joint state is enough, because x already has a zero. */
  lemma JointCons(b: bool, x: Bits, y: Bits, px: Prices, py: Prices)
    requires |x| == |y| && Zeros(x) > 0 && px.queryWeight == py.queryWeight == 1
    ensures var (s, w) := (JStateOf((x, y)), ([b] + x, [b] + y));
      && JStateOf(w) == (if b then s else (s.0 + 2, 2 * (|x| + 1), 2))
      && JointCost(w, px, py) == JointCost((x, y), px, py) + JExtra(s, b, px, py)
  {
    CostCons(b, x, px);
    CostCons(b, y, py);
  }

  lemma PartingState(x: Bits, y: Bits)
    requires |x| == |y|
    ensures JStateOf(([false] + x, [true] + y)) == Coupled(Above(StateOf(x), false, |x| + 1), StateOf(y))
  {
    StateCons(false, x);
    StateCons(true, y);
  }

  lemma PartingCost(x: Bits, y: Bits, px: Prices, py: Prices)
    ensures JointCost(([false] + x, [true] + y), px, py)
         == EndpointCost(x, px) + Extra(StateOf(x), false, px) + EndpointCost(y, py) + Extra(StateOf(y), true, py)
  {
    CostCons(false, x, px);
    CostCons(true, y, py);
  }

  lemma PartingAttained(a: State, ea: Entry<Bits>, b: State, eb: Entry<Bits>, j: nat, px: Prices, py: Prices)
    requires j > 0 && Attained(ea, a, j - 1, px) && Attained(eb, b, j - 1, py)
    ensures var c := PartingCandidate(a, ea, b, eb, j, px, py); JAttained(c.1, c.0, j, j, px, py)
  {
    PartingState(ea.wit, eb.wit);
    PartingCost(ea.wit, eb.wit, px, py);
    DivergesHere(ea.wit, eb.wit);
  }

  lemma PartingDominates(tx: Table<State, Bits>, ty: Table<State, Bits>, next: Table<JState, Couple>, x: Bits, y: Bits,
                         px: Prices, py: Prices)
    requires |x| == |y| && AtMost(tx, x, px) && AtMost(ty, y, py)
    requires Beaten(next, PartingCandidate(StateOf(x), tx[StateOf(x)], StateOf(y), ty[StateOf(y)], |x| + 1, px, py))
    ensures JAtMost(next, ([false] + x, [true] + y), px, py)
  {
    PartingState(x, y);
    PartingCost(x, y, px, py);
  }

  lemma PartingExact(tx: Table<State, Bits>, ty: Table<State, Bits>, next: Table<JState, Couple>, j: nat, px: Prices, py: Prices)
    requires j > 0 && ExactFor(tx, j - 1, px) && ExactFor(ty, j - 1, py)
    requires Pairs(tx, ty, set a, b | a in tx && b in ty :: (a, b),
                   (sx, ex, sy, ey) => PartingCandidate(sx, ex, sy, ey, j, px, py), next)
    ensures JExact(next, j, j, px, py)
  {
    hide PartingCandidate, JAtMost, Diverges;
    PartingCovers(tx, ty, next, j, px, py);
    var f: Pairing<State, Bits, JState, Couple> := (sx, ex, sy, ey) => PartingCandidate(sx, ex, sy, ey, j, px, py);
    forall s | s in next ensures JAttained(next[s], s, j, j, px, py) {
      var a, b :| a in tx && b in ty && (s, next[s]) == f(a, tx[a], b, ty[b]);
      PartingAttained(a, tx[a], b, ty[b], j, px, py);
    }
  }

  lemma PartingCovers(tx: Table<State, Bits>, ty: Table<State, Bits>, next: Table<JState, Couple>, j: nat, px: Prices, py: Prices)
    requires j > 0 && ExactFor(tx, j - 1, px) && ExactFor(ty, j - 1, py)
    requires Pairs(tx, ty, set a, b | a in tx && b in ty :: (a, b),
                   (sx, ex, sy, ey) => PartingCandidate(sx, ex, sy, ey, j, px, py), next)
    ensures forall x: Bits, y: Bits | |x| == j && Diverges(x, y, j) :: JAtMost(next, (x, y), px, py)
  {
    hide PartingCandidate, JAtMost, Beaten, Pairs, StateOf, EndpointCost, Attained;
    forall x: Bits, y: Bits | |x| == j && Diverges(x, y, j) ensures JAtMost(next, (x, y), px, py) {
      assert AtMost(tx, x[1..], px) && AtMost(ty, y[1..], py);
      PartingBeaten(tx, ty, next, j, px, py, StateOf(x[1..]), StateOf(y[1..]));
      PartingNext(tx, ty, next, x, y, j, px, py);
    }
  }

  lemma PartingBeaten(tx: Table<State, Bits>, ty: Table<State, Bits>, next: Table<JState, Couple>, j: nat, px: Prices, py: Prices,
                      a: State, b: State)
    requires j > 0 && a in tx && b in ty
    requires Pairs(tx, ty, set a, b | a in tx && b in ty :: (a, b),
                   (sx, ex, sy, ey) => PartingCandidate(sx, ex, sy, ey, j, px, py), next)
    ensures Beaten(next, PartingCandidate(a, tx[a], b, ty[b], j, px, py))
  {
    hide PartingCandidate, Beaten;
    var f: Pairing<State, Bits, JState, Couple> := (sx, ex, sy, ey) => PartingCandidate(sx, ex, sy, ey, j, px, py);
    assert Beaten(next, f(a, tx[a], b, ty[b]));
  }

  lemma PartingNext(tx: Table<State, Bits>, ty: Table<State, Bits>, next: Table<JState, Couple>, x: Bits, y: Bits, j: nat,
                    px: Prices, py: Prices)
    requires |x| == j && Diverges(x, y, j) && AtMost(tx, x[1..], px) && AtMost(ty, y[1..], py)
    requires Beaten(next, PartingCandidate(StateOf(x[1..]), tx[StateOf(x[1..])], StateOf(y[1..]), ty[StateOf(y[1..])], j, px, py))
    ensures JAtMost(next, (x, y), px, py)
  {
    assert x == [false] + x[1..] && y == [true] + y[1..];
    PartingDominates(tx, ty, next, x[1..], y[1..], px, py);
  }

  lemma CommonAttained(s: JState, e: Entry<Couple>, bit: bool, width: nat, j: nat, px: Prices, py: Prices)
    requires JAttained(e, s, width, j, px, py) && px.queryWeight == py.queryWeight == 1
    ensures var c := JCandidate(s, e, bit, width + 1, px, py); JAttained(c.1, c.0, width + 1, j, px, py)
  {
    DivergesZero(e.wit.0, e.wit.1, j);
    JointCons(bit, e.wit.0, e.wit.1, px, py);
    DivergesCons(bit, e.wit.0, e.wit.1, j);
  }

  lemma CommonDominates(t: Table<JState, Couple>, next: Table<JState, Couple>, b: bool, x: Bits, y: Bits, j: nat,
                        px: Prices, py: Prices)
    requires Diverges(x, y, j) && px.queryWeight == py.queryWeight == 1 && JAtMost(t, (x, y), px, py)
    requires Beaten(next, JCandidate(JStateOf((x, y)), t[JStateOf((x, y))], b, |x| + 1, px, py))
    ensures JAtMost(next, ([b] + x, [b] + y), px, py)
  {
    DivergesZero(x, y, j);
    JointCons(b, x, y, px, py);
  }

  lemma CommonExact(t: Table<JState, Couple>, next: Table<JState, Couple>, width: nat, j: nat, px: Prices, py: Prices)
    requires JExact(t, width, j, px, py) && j <= width && px.queryWeight == py.queryWeight == 1
    requires Extends(t, t.Keys, (s, e, bit) => JCandidate(s, e, bit, width + 1, px, py), next)
    ensures JExact(next, width + 1, j, px, py)
  {
    var f: Extension<JState, Couple> := (s, e, bit) => JCandidate(s, e, bit, width + 1, px, py);
    forall s2 | s2 in next ensures JAttained(next[s2], s2, width + 1, j, px, py) {
      var s, bit :| s in t && s in t.Keys && (s2, next[s2]) == f(s, t[s], bit);
      CommonAttained(s, t[s], bit, width, j, px, py);
    }
    forall x: Bits, y: Bits | |x| == width + 1 && Diverges(x, y, j) ensures JAtMost(next, (x, y), px, py) {
      assert JAtMost(t, (x[1..], y[1..]), px, py) by { DivergesSplit(x, y, j); }
      assert Beaten(next, f(JStateOf((x[1..], y[1..])), t[JStateOf((x[1..], y[1..]))], x[0]));
      CommonNext(t, next, x, y, width, j, px, py);
    }
  }

  lemma CommonNext(t: Table<JState, Couple>, next: Table<JState, Couple>, x: Bits, y: Bits, width: nat, j: nat,
                   px: Prices, py: Prices)
    requires Diverges(x, y, j) && j < |x| == width + 1 && px.queryWeight == py.queryWeight == 1
    requires JAtMost(t, (x[1..], y[1..]), px, py)
    requires Beaten(next, JCandidate(JStateOf((x[1..], y[1..])), t[JStateOf((x[1..], y[1..]))], x[0], width + 1, px, py))
    ensures JAtMost(next, (x, y), px, py)
  {
    DivergesSplit(x, y, j);
    CommonDominates(t, next, x[0], x[1..], y[1..], j, px, py);
  }

  /** The joint table for endpoints of `h` bits that part at width `j`. */
  method JointStates(h: nat, j: nat, tx: Table<State, Bits>, ty: Table<State, Bits>, px: Prices, py: Prices)
    returns (t: Table<JState, Couple>)
    requires 1 <= j <= h && ExactFor(tx, j - 1, px) && ExactFor(ty, j - 1, py)
    requires px.queryWeight == py.queryWeight == 1
    ensures JExact(t, h, j, px, py)
  {
    t := Pair(tx, ty, (sx, ex, sy, ey) => PartingCandidate(sx, ex, sy, ey, j, px, py));
    PartingExact(tx, ty, t, j, px, py);
    for width := j to h
      invariant JExact(t, width, j, px, py)
    {
      var next := Extend(t, (s, e, bit) => JCandidate(s, e, bit, width + 1, px, py));
      CommonExact(t, next, width, j, px, py);
      t := next;
    }
  }
}
