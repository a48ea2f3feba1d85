/**
 * The tree component without suffix queries on whole ranges (suffix-skip-joint-dp.py): `same_path` and
 * `preselect_last` equal their exhaustive maxima for every height. The certified coefficients are parameters.
 */
module SuffixSkip {
  import opened Binary
  import opened TreeBits
  import opened MaxTable
  import opened EndpointDp
  import opened JointDp

  /** Predicate coefficients for left and right steps, entry plus exit, the shortcut, and the lazy prices. */
  datatype Coefficients = Coefficients(left: int, right: int, entry: int, shortcut: int, boundary: int, full: int, root: int)

  // ---- What is maximised, stated on the bits ------------------------------------------------------------------------

  function LazyPhase(bits: Bits, c: Coefficients, queries: bool): int {
    (if queries then QueryCost(bits) else 0) + Updated(|Active(bits)|, Zeros(bits), c) + (if |Active(bits)| > 0 then c.full else c.root)
  }

  /** A lazy update's boundary steps and full children. */
  function Updated(levels: int, zeros: int, c: Coefficients): int {
    c.boundary * levels + c.full * (levels - zeros)
  }

  /** The predicate walks the active bits: a left step at each zero, a right step at each one. */
  function PrefixBody(bits: Bits, c: Coefficients): int {
    Walked(Zeros(bits), |Active(bits)|, c)
  }

  function Walked(zeros: int, levels: int, c: Coefficients): int {
    zeros * c.left + (levels - zeros) * c.right
  }

  // ---- same_path ------------------------------------------------------------------------------------------------------

  function SamePathPrices(c: Coefficients, withPrefix: bool): Prices {
    Prices(c.boundary + (if withPrefix then c.left else 0), c.full + (if withPrefix then c.right - c.left else 0),
           if withPrefix then 1 else 0)
  }

  function SamePathEnd(zeros: nat, c: Coefficients, withPrefix: bool): int {
    (if zeros > 0 then c.full else c.root) + (if withPrefix && zeros > 0 then c.entry else 0)
  }

  /** Phases on one path: the predicate runs only when the cutoff is not the last leaf. */
  function SamePathCost(x: Bits, c: Coefficients, withPrefix: bool): int {
    LazyPhase(x, c, withPrefix) + (if withPrefix && Zeros(x) > 0 then c.entry + PrefixBody(x, c) else 0)
  }

  lemma SamePathIsTable(x: Bits, c: Coefficients, withPrefix: bool)
    ensures SamePathCost(x, c, withPrefix)
         == EndpointCost(x, SamePathPrices(c, withPrefix)) + SamePathEnd(Zeros(x), c, withPrefix)
  {
    ActiveEmpty(x);
    if withPrefix {
      PrefixFolds(x, c);
      NoPrefix(x, c);
    }
  }

  /** The predicate's steps fold into the lazy boundary and full-child prices. */
  lemma PrefixFolds(x: Bits, c: Coefficients)
    ensures EndpointCost(x, SamePathPrices(c, true))
         == QueryCost(x) + Updated(|Active(x)|, Zeros(x), c) + PrefixBody(x, c)
  {
    PricesFold(QueryCost(x), |Active(x)|, Zeros(x), c);
  }

  lemma NoPrefix(x: Bits, c: Coefficients)
    ensures Zeros(x) == 0 ==> PrefixBody(x, c) == 0
  {
    ActiveEmpty(x);
  }

  lemma PricesFold(q: int, d: int, z: int, c: Coefficients)
    ensures Priced(q, d, z, SamePathPrices(c, true)) == q + Updated(d, z, c) + Walked(z, d, c)
  {
    Fold(q, c.boundary, c.left, c.full, c.right, d, z);
  }

  lemma Fold(q: int, b: int, l: int, f: int, r: int, d: int, z: int)
    ensures 1 * q + (b + l) * d + (f + (r - l)) * (d - z) == q + b * d + f * (d - z) + (z * l + (d - z) * r)
  {
  }

  lemma Spread(a: int, b: int, x: int)
    ensures (a + b) * x == a * x + b * x
  {
  }

  /** The maximum over every endpoint of `h` bits. */
  method SamePath(h: nat, c: Coefficients, withPrefix: bool) returns (value: int, total: int, bits: Bits)
    ensures |bits| == h && value == SamePathCost(bits, c, withPrefix)
    ensures forall x: Bits :: |x| == h ==> SamePathCost(x, c, withPrefix) <= value
    ensures total == PushFixed(h) + 4800 * |Touched(bits)| + value + (if withPrefix then 0 else c.shortcut)
  {
    var p := SamePathPrices(c, withPrefix);
    var tables := EndpointTables(h, p);
    var t := tables[h];
    assert AtMost(t, seq(h, i => false), p);
    var s := Largest(t, (s: State) => SamePathEnd(s.0, c, withPrefix));
    bits := t[s].wit;
    assert Attained(t[s], s, h, p);
    value := t[s].value + SamePathEnd(s.0, c, withPrefix);
    total := PushFixed(h) + 2000 * (2 * h + 1) + 2800 * (2 * h + 1) + value + (if withPrefix then 0 else c.shortcut);
    SamePathIsTable(bits, c, withPrefix);
    TouchedSize(bits);
    forall x: Bits | |x| == h ensures SamePathCost(x, c, withPrefix) <= value {
      SamePathIsTable(x, c, withPrefix);
      assert AtMost(t, x, p);
    }
  }

  // ---- The fixed choice of the cutoff's low bits ------------------------------------------------------------------------

  /** Ones followed by a zero. */
  function Choice(w: nat): (x: Bits)
    ensures |x| == w
  {
    if w == 0 then [] else seq(w - 1, i => true) + [false]
  }

  lemma {:induction false} OnesActive(n: nat)
    ensures Zeros(seq(n, i => true)) == 0
  {
    if n > 0 {
      assert seq(n, i => true)[1..] == seq(n - 1, i => true);
      OnesActive(n - 1);
    }
  }

  lemma ChoiceBody(w: nat, c: Coefficients)
    ensures w > 0 ==> Zeros(Choice(w)) == 1 && Active(Choice(w)) == Choice(w)
    ensures PrefixBody(Choice(w), c) == if w == 0 then 0 else c.left + (w - 1) * c.right
  {
    if w > 0 {
      OnesActive(w - 1);
      SnocCounts(seq(w - 1, i => true), false);
    }
  }

  lemma {:induction false} ActiveBound(bits: Bits)
    ensures Zeros(bits) <= |Active(bits)| <= |bits|
  {
    if bits != [] {
      var front, last := bits[..|bits| - 1], bits[|bits| - 1];
      assert bits == front + [last];
      SnocCounts(front, last);
      ActiveBound(front);
    }
  }

  /** When no string of `w` bits walks dearer than the choice, for steps priced `l` and `r`. */
  predicate ChoiceRule(w: nat, l: int, r: int) {
    w == 0 || (0 <= l + (w - 1) * r && (w >= 2 ==> 0 <= r && l <= r))
  }

  /**
   * The dearest walk over `w` bits, for steps priced `l` and `r`: of all ones, of a zero and ones, of the choice, or of
   * all zeros.
   */
  function Dearest(w: nat, l: int, r: int): int {
    if w == 0 then 0 else Max(Max(0, l), Max(l + (w - 1) * r, w * l))
  }

  /** What the choice loses of it. */
  function Loss(w: nat, l: int, r: int): int {
    Dearest(w, l, r) - if w == 0 then 0 else l + (w - 1) * r
  }

  lemma LossIff(w: nat, l: int, r: int)
    ensures Loss(w, l, r) >= 0
    ensures Loss(w, l, r) == 0 <==> ChoiceRule(w, l, r)
  {
    if w >= 2 {
      Signs(w, l, r);
      assert w * l == l + (w - 1) * l;
    }
  }

  lemma Signs(w: nat, l: int, r: int)
    requires w >= 2
    ensures 0 <= (w - 1) * r <==> 0 <= r
    ensures (w - 1) * l <= (w - 1) * r <==> l <= r
  {
    Sign(w - 1, r);
    Sign(w - 1, r - l);
    Differs(w - 1, r, l);
  }

  lemma Sign(n: nat, a: int)
    requires n > 0
    ensures 0 <= n * a <==> 0 <= a
  {
    if a < 0 {
      assert n * a < 0;
    }
  }

  lemma Differs(n: int, a: int, b: int)
    ensures n * (a - b) == n * a - n * b
  {
  }

  lemma WalkAtMost(s: Bits, c: Coefficients)
    ensures PrefixBody(s, c) <= Dearest(|s|, c.left, c.right)
  {
    ActiveEmpty(s);
    ActiveBound(s);
    if Zeros(s) > 0 {
      Between(Zeros(s), |Active(s)|, |s|, c.left, c.right);
    }
  }

  lemma Between(z: int, d: int, w: int, l: int, r: int)
    requires 1 <= z <= d <= w
    ensures z * l + (d - z) * r <= Max(Max(0, l), Max(l + (w - 1) * r, w * l))
  {
    Grows(d - z, w - z, r);
    if r < 0 {
      Grows(z, w, l);
    } else if r < l {
      Grows(w - z, w - z, r - l);
      Differs(w - z, r, l);
      Regroups(w, z, w - z, l);
    } else {
      Grows(z - 1, z - 1, l - r);
      Differs(z - 1, l, r);
      Regroups(z, 1, z - 1, l);
      Regroups(w - 1, z - 1, w - z, r);
    }
  }

  lemma Grows(a: int, b: int, p: int)
    requires 0 <= a <= b
    ensures p >= 0 ==> a * p <= b * p
    ensures p < 0 ==> a * p <= 0
    ensures a * p <= Max(0, b * p)
  {
    Regroups(b, a, b - a, p);
  }

  lemma Regroups(n: int, a: int, b: int, p: int)
    requires n == a + b
    ensures n * p == a * p + b * p
  {
  }

  lemma OnesBody(w: nat, c: Coefficients)
    ensures PrefixBody(seq(w, i => true), c) == 0
  {
    OnesActive(w);
    ActiveEmpty(seq(w, i => true));
  }

  lemma {:induction false} OnesDrop(p: Bits, n: nat)
    requires p != [] && !p[|p| - 1]
    ensures Active(p + seq(n, i => true)) == p
  {
    if n > 0 {
      assert (p + seq(n, i => true))[..|p| + n - 1] == p + seq(n - 1, i => true);
      OnesDrop(p, n - 1);
    } else {
      assert p + seq(0, i => true) == p;
    }
  }

  lemma ZeroAndOnesBody(w: nat, c: Coefficients)
    requires w > 0
    ensures PrefixBody([false] + seq(w - 1, i => true), c) == c.left
  {
    OnesDrop([false], w - 1);
    OnesActive(w - 1);
    ZerosConcat([false], seq(w - 1, i => true));
  }

  lemma {:induction false} NoOnes(w: nat)
    ensures Zeros(seq(w, i => false)) == w
  {
    if w > 0 {
      assert seq(w, i => false)[1..] == seq(w - 1, i => false);
      NoOnes(w - 1);
    }
  }

  lemma ZerosBody(w: nat, c: Coefficients)
    requires w > 0
    ensures PrefixBody(seq(w, i => false), c) == w * c.left
  {
    NoOnes(w);
  }

  lemma DearestWalk(w: nat, c: Coefficients) returns (s: Bits)
    ensures |s| == w && PrefixBody(s, c) == Dearest(w, c.left, c.right)
  {
    hide PrefixBody, Choice;
    OnesBody(w, c);
    ChoiceBody(w, c);
    s := seq(w, i => true);
    if w > 0 {
      ZeroAndOnesBody(w, c);
      ZerosBody(w, c);
      if PrefixBody(s, c) < c.left {
        s := [false] + seq(w - 1, i => true);
      }
      if PrefixBody(s, c) < c.left + (w - 1) * c.right {
        s := Choice(w);
      }
      if PrefixBody(s, c) < w * c.left {
        s := seq(w, i => false);
      }
    }
  }

  ghost predicate ChoiceDearest(w: nat, c: Coefficients) {
    forall s: Bits :: |s| == w ==> PrefixBody(s, c) <= PrefixBody(Choice(w), c)
  }

  /** The fixed choice is right for one width exactly under its rule. */
  lemma ChoiceBestAt(w: nat, c: Coefficients)
    ensures ChoiceDearest(w, c) <==> ChoiceRule(w, c.left, c.right)
  {
    hide PrefixBody, Choice, Dearest, ChoiceRule;
    ChoiceBody(w, c);
    LossIff(w, c.left, c.right);
    var most := DearestWalk(w, c);
    forall s: Bits | |s| == w ensures PrefixBody(s, c) <= Dearest(w, c.left, c.right) {
      WalkAtMost(s, c);
    }
  }

  lemma RuleForAll(w: nat, l: int, r: int)
    requires 0 <= l && (w >= 2 ==> l <= r)
    ensures ChoiceRule(w, l, r)
  {
    if w >= 2 {
      assert 0 <= (w - 1) * r;
    }
  }

  /** The fixed choice maximises the predicate's walk for every width exactly when 0 <= left <= right. */
  lemma ChoiceBestIff(c: Coefficients)
    ensures (forall w: nat :: ChoiceDearest(w, c)) <==> 0 <= c.left <= c.right
  {
    if 0 <= c.left <= c.right {
      forall w: nat ensures ChoiceDearest(w, c) {
        RuleForAll(w, c.left, c.right);
        ChoiceBestAt(w, c);
      }
    }
    if forall w: nat :: ChoiceDearest(w, c) {
      ChoiceBestAt(1, c);
      ChoiceBestAt(2, c);
      assert ChoiceDearest(1, c) && ChoiceDearest(2, c);
    }
  }

  // ---- preselect_last -----------------------------------------------------------------------------------------------------

  /** The cutoff x parts from y at width j and ends in the chosen low bits. */
  ghost predicate Chosen(x: Bits, y: Bits, j: nat) {
    Diverges(x, y, j) && x[|x| - (j - 1)..] == Choice(j - 1)
  }

  function LazyPrices(c: Coefficients): Prices { Prices(c.boundary, c.full, 0) }

  /** The part of a pair's cost that grows bit by bit. */
  function WalkCost(w: Couple, c: Coefficients): int {
    PrefixBody(w.0, c) + EndpointCost(w.1, LazyPrices(c))
  }

  function WalkCandidate(s: State, e: Entry<Couple>, bit: bool, width: nat, c: Coefficients): (State, Entry<Couple>) {
    (Above(s, bit, width),
     Entry(e.value + (if bit then c.right else c.left) + Extra(s, bit, LazyPrices(c)), ([bit] + e.wit.0, [bit] + e.wit.1)))
  }

  ghost predicate WAttained(e: Entry<Couple>, s: State, width: nat, j: nat, c: Coefficients) {
    |e.wit.0| == width && Chosen(e.wit.0, e.wit.1, j) && StateOf(e.wit.1) == s && WalkCost(e.wit, c) == e.value
  }

  ghost predicate WAtMost(t: Table<State, Couple>, w: Couple, c: Coefficients) {
    StateOf(w.1) in t && WalkCost(w, c) <= t[StateOf(w.1)].value
  }

  ghost predicate WExact(t: Table<State, Couple>, width: nat, j: nat, c: Coefficients) {
    && (forall s :: s in t ==> WAttained(t[s], s, width, j, c))
    && (forall x: Bits, y: Bits :: |x| == width && Chosen(x, y, j) ==> WAtMost(t, (x, y), c))
  }

  lemma PrefixCons(b: bool, x: Bits, c: Coefficients)
    requires Zeros(x) > 0 || !b
    ensures PrefixBody([b] + x, c) == PrefixBody(x, c) + if b then c.right else c.left
  {
    ActiveCons(b, x);
    StateCons(b, x);
    WalkedOneMore(Zeros(x), |Active(x)|, b, c);
  }

  lemma WalkedOneMore(z: int, d: int, b: bool, c: Coefficients)
    ensures Walked(z + Bit(!b), d + 1, c) == Walked(z, d, c) + if b then c.right else c.left
  {
    Spread(z, Bit(!b), c.left);
    Spread(d - z, Bit(b), c.right);
  }

  lemma ChosenCons(b: bool, x: Bits, y: Bits, j: nat)
    requires 1 <= j <= |x|
    ensures Chosen([b] + x, [b] + y, j) <==> Chosen(x, y, j)
  {
    DivergesCons(b, x, y, j);
    assert ([b] + x)[|x| + 1 - (j - 1)..] == x[|x| - (j - 1)..];
  }

  lemma ChosenSplit(x: Bits, y: Bits, j: nat)
    requires Chosen(x, y, j) && j < |x|
    ensures x == [x[0]] + x[1..] && y == [x[0]] + y[1..] && Chosen(x[1..], y[1..], j)
  {
    DivergesSplit(x, y, j);
    ChosenCons(x[0], x[1..], y[1..], j);
  }

  lemma WalkCons(b: bool, x: Bits, y: Bits, c: Coefficients)
    requires Zeros(x) > 0
    ensures WalkCost(([b] + x, [b] + y), c)
         == WalkCost((x, y), c) + (if b then c.right else c.left) + Extra(StateOf(y), b, LazyPrices(c))
  {
    PrefixCons(b, x, c);
    CostCons(b, y, LazyPrices(c));
  }

  /** The first table: x goes left above the chosen bits, y goes right above any endpoint of the one-endpoint table. */
  function FirstTable(tb: Table<State, Bits>, j: nat, c: Coefficients): Table<State, Couple>
    requires j > 0
  {
    map s | s in tb :: Entry(PrefixBody(Choice(j - 1), c) + c.left + tb[s].value + Extra(s, true, LazyPrices(c)),
                             ([false] + Choice(j - 1), [true] + tb[s].wit))
  }

  lemma FirstCost(y: Bits, j: nat, c: Coefficients)
    requires j > 0 && |y| == j - 1
    ensures var w := ([false] + Choice(j - 1), [true] + y);
      && Chosen(w.0, w.1, j) && StateOf(w.1) == StateOf(y)
      && WalkCost(w, c) == PrefixBody(Choice(j - 1), c) + c.left + EndpointCost(y, LazyPrices(c))
                          + Extra(StateOf(y), true, LazyPrices(c))
  {
    DivergesHere(Choice(j - 1), y);
    PrefixCons(false, Choice(j - 1), c);
    CostCons(true, y, LazyPrices(c));
    assert ([false] + Choice(j - 1))[1..] == Choice(j - 1);
  }

  lemma ChosenHere(x: Bits, y: Bits, j: nat)
    requires |x| == j && Chosen(x, y, j)
    ensures x == [false] + Choice(j - 1) && y == [true] + y[1..]
  {
  }

  lemma FirstExact(tb: Table<State, Bits>, j: nat, c: Coefficients)
    requires j > 0 && ExactFor(tb, j - 1, LazyPrices(c))
    ensures WExact(FirstTable(tb, j, c), j, j, c)
  {
    var t := FirstTable(tb, j, c);
    forall s | s in t ensures WAttained(t[s], s, j, j, c) {
      assert Attained(tb[s], s, j - 1, LazyPrices(c));
      FirstCost(tb[s].wit, j, c);
    }
    forall x: Bits, y: Bits | |x| == j && Chosen(x, y, j) ensures WAtMost(t, (x, y), c) {
      ChosenHere(x, y, j);
      FirstCost(y[1..], j, c);
      assert AtMost(tb, y[1..], LazyPrices(c));
    }
  }

  lemma WalkAttained(s: State, e: Entry<Couple>, bit: bool, width: nat, j: nat, c: Coefficients)
    requires WAttained(e, s, width, j, c)
    ensures var r := WalkCandidate(s, e, bit, width + 1, c); WAttained(r.1, r.0, width + 1, j, c)
  {
    DivergesZero(e.wit.0, e.wit.1, j);
    WalkCons(bit, e.wit.0, e.wit.1, c);
    ChosenCons(bit, e.wit.0, e.wit.1, j);
    StateCons(bit, e.wit.1);
  }

  lemma WalkDominates(t: Table<State, Couple>, next: Table<State, Couple>, b: bool, x: Bits, y: Bits, j: nat, c: Coefficients)
    requires Chosen(x, y, j) && WAtMost(t, (x, y), c)
    requires Beaten(next, WalkCandidate(StateOf(y), t[StateOf(y)], b, |x| + 1, c))
    ensures WAtMost(next, ([b] + x, [b] + y), c)
  {
    DivergesZero(x, y, j);
    WalkCons(b, x, y, c);
    StateCons(b, y);
  }

  lemma WalkExact(t: Table<State, Couple>, next: Table<State, Couple>, width: nat, j: nat, c: Coefficients)
    requires WExact(t, width, j, c) && 1 <= j <= width
    requires Extends(t, t.Keys, (s, e, bit) => WalkCandidate(s, e, bit, width + 1, c), next)
    ensures WExact(next, width + 1, j, c)
  {
    var f: Extension<State, Couple> := (s, e, bit) => WalkCandidate(s, e, bit, width + 1, c);
    forall s2 | s2 in next ensures WAttained(next[s2], s2, width + 1, j, c) {
      var s, bit :| s in t && s in t.Keys && (s2, next[s2]) == f(s, t[s], bit);
      WalkAttained(s, t[s], bit, width, j, c);
    }
    forall x: Bits, y: Bits | |x| == width + 1 && Chosen(x, y, j) ensures WAtMost(next, (x, y), c) {
      assert WAtMost(t, (x[1..], y[1..]), c) by { ChosenSplit(x, y, j); }
      assert Beaten(next, f(StateOf(y[1..]), t[StateOf(y[1..])], x[0]));
      WalkNext(t, next, x, y, width, j, c);
    }
  }

  lemma WalkNext(t: Table<State, Couple>, next: Table<State, Couple>, x: Bits, y: Bits, width: nat, j: nat, c: Coefficients)
    requires Chosen(x, y, j) && j < |x| == width + 1 && WAtMost(t, (x[1..], y[1..]), c)
    requires Beaten(next, WalkCandidate(StateOf(y[1..]), t[StateOf(y[1..])], x[0], width + 1, c))
    ensures WAtMost(next, (x, y), c)
  {
    ChosenSplit(x, y, j);
    WalkDominates(t, next, x[0], x[1..], y[1..], j, c);
  }

  // ---- Nodes read ------------------------------------------------------------------------------------------------------------

  /** Root and both children for the first `d` levels of the cutoff's path: what the predicate reads. */
  ghost function ReadTo(bits: Bits, d: nat): set<Bits>
    requires d <= |bits|
  {
    if d == 0 then {[]} else {[], [!bits[0]]} + Under(bits[0], ReadTo(bits[1..], d - 1))
  }

  function Over(a: int): nat { if a > 0 then a else 0 }

  lemma {:induction false} ReadToSize(bits: Bits, d: nat)
    requires d <= |bits|
    ensures |ReadTo(bits, d)| == 2 * d + 1
  {
    hide Under;
    if d > 0 {
      ReadToSize(bits[1..], d - 1);
      TopSize(bits[0], ReadTo(bits[1..], d - 1));
    }
  }

  lemma RootRead(bits: Bits, d: nat)
    requires d <= |bits|
    ensures [] in ReadTo(bits, d)
  {
  }

  lemma ReadTouchedAtRoot(x: Bits, y: Bits, d: nat)
    requires |x| == |y| && d <= |x|
    ensures ReadTo([false] + x, d + 1) + Touched([true] + y) == {[]} + Under(false, ReadTo(x, d)) + Under(true, Touched(y))
  {
    RootRead(x, d);
    RootTouched(y);
    assert [false] + [] == [false] && [true] + [] == [true];
    assert [false] in Under(false, ReadTo(x, d)) && [true] in Under(true, Touched(y));
    assert ([false] + x)[1..] == x && ([true] + y)[1..] == y;
  }

  /** A root above two disjoint subtrees. */
  lemma TopTwo(left: set<Bits>, right: set<Bits>, all: set<Bits>)
    requires all == {[]} + Under(false, left) + Under(true, right)
    ensures |all| == 1 + |left| + |right|
  {
    var l, r := Under(false, left), Under(true, right);
    UnderSize(false, left);
    UnderSize(true, right);
    assert forall n :: n in l ==> |n| > 0 && !n[0];
    assert forall n :: n in r ==> |n| > 0 && n[0];
    assert {[]} !! l && {[]} + l !! r;
  }

  lemma ReadBelow(b: bool, x: Bits, y: Bits, d: nat)
    requires 0 < d <= |x| + 1
    ensures |ReadTo([b] + x, d) + Touched([b] + y)| == 2 + |ReadTo(x, d - 1) + Touched(y)|
  {
    ReadTouchedBelow(b, x, y, d);
    TopSize(b, ReadTo(x, d - 1) + Touched(y));
  }

  lemma ReadTouchedBelow(b: bool, x: Bits, y: Bits, d: nat)
    requires 0 < d <= |x| + 1
    ensures ReadTo([b] + x, d) + Touched([b] + y) == {[], [!b]} + Under(b, ReadTo(x, d - 1) + Touched(y))
  {
    assert ([b] + x)[1..] == x && ([b] + y)[1..] == y;
    UnderUnion(b, ReadTo(x, d - 1), Touched(y));
  }

  lemma ReadAtRoot(x: Bits, y: Bits, d: nat, all: set<Bits>)
    requires |x| == |y| && d <= |x| && all == ReadTo([false] + x, d + 1) + Touched([true] + y)
    ensures |all| == 1 + |ReadTo(x, d)| + |Touched(y)|
  {
    ReadTouchedAtRoot(x, y, d);
    TopTwo(ReadTo(x, d), Touched(y), all);
  }

  lemma ReadUnionAtRoot(x: Bits, y: Bits, d: nat, all: set<Bits>)
    requires |x| == |y| && d <= |x| && all == ReadTo([false] + x, d + 1) + Touched([true] + y)
    ensures |all| == 2 * |x| + 3 + 2 * d
  {
    ReadAtRoot(x, y, d, all);
    ReadToSize(x, d);
    TouchedSize(y);
  }

  lemma ReadNothing(x: Bits, y: Bits)
    ensures |ReadTo(x, 0) + Touched(y)| == 2 * |y| + 1
  {
    RootTouched(y);
    TouchedSize(y);
    assert ReadTo(x, 0) + Touched(y) == Touched(y);
  }

  function UnionSizeTo(h: nat, j: nat, d: nat): int { 2 * h + 1 + 2 * Over(d - (h - j + 1)) }

  lemma ReadParted(x: Bits, y: Bits, d: nat, all: set<Bits>)
    requires Diverges(x, y, |x|) && 0 < d <= |x| && all == ReadTo(x, d) + Touched(y)
    ensures |all| == UnionSizeTo(|x|, |x|, d)
  {
    hide ReadTo, Touched;
    var x', y' := x[1..], y[1..];
    assert x == [false] + x' && y == [true] + y';
    ReadUnionAtRoot(x', y', d - 1, all);
  }

  lemma ReadCommon(x: Bits, y: Bits, j: nat, d: nat)
    requires Diverges(x, y, j) && j < |x| && 0 < d <= |x|
    ensures |ReadTo(x, d) + Touched(y)| == 2 + |ReadTo(x[1..], d - 1) + Touched(y[1..])|
  {
    DivergesSplit(x, y, j);
    var b, x', y' := x[0], x[1..], y[1..];
    assert x == [b] + x' && y == [b] + y';
    ReadBelow(b, x', y', d);
  }

  lemma ReadCommonUnion(x: Bits, y: Bits, j: nat, d: nat)
    requires Diverges(x, y, j) && j < |x| && 0 < d <= |x|
    requires |ReadTo(x[1..], d - 1) + Touched(y[1..])| == UnionSizeTo(|x| - 1, j, d - 1)
    ensures |ReadTo(x, d) + Touched(y)| == UnionSizeTo(|x|, j, d)
  {
    ReadCommon(x, y, j, d);
  }

  /** Reading `d` levels of the cutoff's path adds two nodes for each level below the parting. */
  lemma {:induction false} ReadUnion(x: Bits, y: Bits, h: nat, j: nat, d: nat)
    requires h == |x| && Diverges(x, y, j) && d <= h
    ensures |ReadTo(x, d) + Touched(y)| == UnionSizeTo(h, j, d)
    decreases d
  {
    hide ReadTo, Touched;
    if d == 0 {
      ReadNothing(x, y);
    } else if j == h {
      ReadParted(x, y, d, ReadTo(x, d) + Touched(y));
    } else {
      DivergesSplit(x, y, j);
      ReadUnion(x[1..], y[1..], h - 1, j, d - 1);
      ReadCommonUnion(x, y, j, d);
    }
  }

  // ---- The exhaustive maximum ----------------------------------------------------------------------------------------------------

  /** Whole cost of a cutoff below the last endpoint: selector, one push, one lazy update without queries. */
  ghost function SelectBody(x: Bits, y: Bits, c: Coefficients): int
    requires |Active(x)| <= |x|
  {
    PushFixed(|x|) + 2000 * |ReadTo(x, |Active(x)|) + Touched(y)| + 2800 * (2 * |x| + 1)
    + c.entry + PrefixBody(x, c) + LazyPhase(y, c, false)
  }

  /** `x` with its bits below the parting replaced by the choice. */
  function Improved(x: Bits, j: nat): Bits
    requires 1 <= j <= |x|
  {
    x[..|x| - (j - 1)] + Choice(j - 1)
  }

  lemma ImprovedChosen(x: Bits, y: Bits, j: nat)
    requires Diverges(x, y, j)
    ensures Chosen(Improved(x, j), y, j)
  {
    var up := Improved(x, j);
    assert up[..|up| - j] == x[..|x| - j];
    assert up[|up| - (j - 1)..] == Choice(j - 1);
  }

  // ---- What the low bits are worth ------------------------------------------------------------------------------------------------

  /** Each step of the predicate also reads two nodes, at 2000 each. */
  function WithReads(c: Coefficients): Coefficients { c.(left := c.left + 4000, right := c.right + 4000) }

  /** The choice's rule for `w` low bits, with the reads of each step counted. */
  predicate LowRule(w: nat, c: Coefficients) { ChoiceRule(w, c.left + 4000, c.right + 4000) }

  lemma ReadsFold(s: Bits, c: Coefficients)
    ensures PrefixBody(s, WithReads(c)) == PrefixBody(s, c) + 4000 * |Active(s)|
  {
    StepsFold(Zeros(s), |Active(s)|, c.left, c.right);
  }

  lemma StepsFold(z: int, d: int, l: int, r: int)
    ensures z * (l + 4000) + (d - z) * (r + 4000) == z * l + (d - z) * r + 4000 * d
  {
    assert z * (l + 4000) == z * l + z * 4000;
    assert (d - z) * (r + 4000) == (d - z) * r + (d - z) * 4000;
  }

  lemma {:induction false} ZerosConcat(p: Bits, s: Bits)
    ensures Zeros(p + s) == Zeros(p) + Zeros(s)
  {
    if p == [] {
      assert p + s == s;
    } else {
      assert (p + s)[1..] == p[1..] + s;
      ZerosConcat(p[1..], s);
    }
  }

  /** Below a zero the walk goes on through the active part of what follows. */
  lemma {:induction false} ActiveBelowZero(p: Bits, s: Bits)
    requires p != [] && !p[|p| - 1]
    ensures |Active(p + s)| == |p| + |Active(s)|
  {
    if s == [] {
      assert p + s == p;
    } else if s[|s| - 1] {
      assert (p + s)[..|p + s| - 1] == p + s[..|s| - 1];
      ActiveBelowZero(p, s[..|s| - 1]);
    }
  }

  lemma {:induction false} ActiveZeros(s: Bits)
    ensures Zeros(Active(s)) == Zeros(s)
  {
    if s != [] && s[|s| - 1] {
      assert s == s[..|s| - 1] + [true];
      SnocCounts(s[..|s| - 1], true);
      ActiveZeros(s[..|s| - 1]);
    }
  }

  lemma PrefixBelowZero(p: Bits, s: Bits, c: Coefficients)
    requires p != [] && !p[|p| - 1]
    ensures PrefixBody(p + s, c) == PrefixBody(p, c) + PrefixBody(s, c)
  {
    ActiveBelowZero(p, s);
    ZerosConcat(p, s);
    assert Active(p) == p;
    Spread(Zeros(p), Zeros(s), c.left);
    Spread(|p| - Zeros(p), |Active(s)| - Zeros(s), c.right);
  }

  /** The cost of a pair apart from the low bits of the cutoff, given the bits above them. */
  function Upper(p: Bits, y: Bits, c: Coefficients): int {
    PushFixed(|y|) + 2000 * (2 * |y| + 1) + 2800 * (2 * |y| + 1) + c.entry + PrefixBody(p, c) + LazyPhase(y, c, false)
  }

  /** The cutoff's bits down to the parting, and below it. */
  lemma CutoffSplits(x: Bits, y: Bits, j: nat) returns (p: Bits, s: Bits)
    requires Diverges(x, y, j)
    ensures x == p + s && |s| == j - 1 && p != [] && !p[|p| - 1] && p == x[..|x| - (j - 1)]
  {
    p, s := x[..|x| - (j - 1)], x[|x| - (j - 1)..];
  }

  lemma Resplit(x: Bits, y: Bits, j: nat, s: Bits)
    requires Diverges(x, y, j) && |s| == j - 1
    ensures Diverges(x[..|x| - (j - 1)] + s, y, j)
  {
    var t := x[..|x| - (j - 1)] + s;
    assert t[..|t| - j] == x[..|x| - j];
  }

  lemma SelectBodySplits(p: Bits, s: Bits, y: Bits, j: nat, c: Coefficients)
    requires Diverges(p + s, y, j) && |s| == j - 1
    ensures |Active(p + s)| <= |p + s|
    ensures SelectBody(p + s, y, c) == Upper(p, y, c) + PrefixBody(s, WithReads(c))
  {
    assert p != [] && (p + s)[|p + s| - j] == p[|p| - 1];
    ActiveBelowZero(p, s);
    PrefixBelowZero(p, s, c);
    ReadsFold(s, c);
    ActiveBound(s);
    ReadUnion(p + s, y, |y|, j, |Active(p + s)|);
  }

  /** The chosen cutoff ends in a zero, or parts at the last level: its predicate reads its whole path. */
  lemma ChosenActive(x: Bits, y: Bits, j: nat)
    requires Chosen(x, y, j)
    ensures Active(x) == x
  {
    if j > 1 {
      assert x[|x| - 1] == x[|x| - (j - 1)..][j - 2];
    }
  }

  /** The best pair that parts at width `j`, with the chosen cutoff. */
  datatype SelectRow = SelectRow(j: nat, union: nat, value: int, total: int, x: Bits, y: Bits)

  ghost predicate SelectExact(r: SelectRow, h: nat, j: nat, c: Coefficients) {
    && |r.x| == h && Chosen(r.x, r.y, j) && |Active(r.x)| <= h && r.total == SelectBody(r.x, r.y, c)
    && (forall x: Bits, y: Bits :: |x| == h && Chosen(x, y, j) ==> |Active(x)| <= h && SelectBody(x, y, c) <= r.total)
  }

  function SelectEnd(zeros: nat, c: Coefficients): int {
    if zeros > 0 then c.full else c.root
  }

  lemma LazyIsTable(y: Bits, c: Coefficients)
    ensures LazyPhase(y, c, false) == EndpointCost(y, LazyPrices(c)) + SelectEnd(Zeros(y), c)
  {
    ActiveEmpty(y);
  }

  lemma SelectBodyChosen(x: Bits, y: Bits, j: nat, c: Coefficients)
    requires Chosen(x, y, j)
    ensures |Active(x)| <= |x|
    ensures SelectBody(x, y, c) == PushFixed(|x|) + 2000 * (2 * |x| - 1 + 2 * j) + 2800 * (2 * |x| + 1)
                                   + c.entry + WalkCost((x, y), c) + SelectEnd(Zeros(y), c)
  {
    ChosenActive(x, y, j);
    ReadUnion(x, y, |x|, j, |x|);
    LazyIsTable(y, c);
  }

  /** What the chosen low bits lose at width `w`, with the reads of each step counted. */
  function LowLoss(w: nat, c: Coefficients): int { Loss(w, c.left + 4000, c.right + 4000) }

  lemma LowLossIff(w: nat, c: Coefficients)
    ensures LowLoss(w, c) >= 0
    ensures LowLoss(w, c) == 0 <==> LowRule(w, c)
  {
    LossIff(w, c.left + 4000, c.right + 4000);
  }

  lemma LowAtMost(s: Bits, c: Coefficients)
    ensures PrefixBody(s, WithReads(c)) <= PrefixBody(Choice(|s|), WithReads(c)) + LowLoss(|s|, c)
  {
    hide PrefixBody, Choice, Dearest;
    ChoiceBody(|s|, WithReads(c));
    WalkAtMost(s, WithReads(c));
  }

  lemma LowAttained(w: nat, c: Coefficients) returns (s: Bits)
    ensures |s| == w && PrefixBody(s, WithReads(c)) == PrefixBody(Choice(w), WithReads(c)) + LowLoss(w, c)
  {
    hide PrefixBody, Choice, Dearest;
    ChoiceBody(w, WithReads(c));
    s := DearestWalk(w, WithReads(c));
  }

  /** Choosing the low bits lowers the whole cost by at most their loss, and by nothing under the rule. */
  lemma SelectBodyImproves(x: Bits, y: Bits, j: nat, c: Coefficients)
    requires Diverges(x, y, j)
    ensures |Active(x)| <= |x| && Chosen(Improved(x, j), y, j) && |Active(Improved(x, j))| <= |Improved(x, j)| == |x|
    ensures SelectBody(x, y, c) <= SelectBody(Improved(x, j), y, c) + LowLoss(j - 1, c)
    ensures LowRule(j - 1, c) ==> SelectBody(x, y, c) <= SelectBody(Improved(x, j), y, c)
  {
    hide SelectBody, PrefixBody, Upper, Active, Diverges, Choice, Chosen, WithReads, LowLoss, LowRule;
    var p, s := CutoffSplits(x, y, j);
    ImprovedChosen(x, y, j);
    Resplit(x, y, j, Choice(j - 1));
    assert p + s == x && p + Choice(j - 1) == Improved(x, j);
    SelectBodySplits(p, s, y, j, c);
    SelectBodySplits(p, Choice(j - 1), y, j, c);
    LowAtMost(s, c);
    LowLossIff(j - 1, c);
  }

  /** No pair that parts at `j`, whatever the cutoff's low bits, costs more than the row and the loss together. */
  lemma RowAtMost(r: SelectRow, h: nat, j: nat, c: Coefficients, x: Bits, y: Bits)
    requires SelectExact(r, h, j, c) && |x| == h && Diverges(x, y, j)
    ensures |Active(x)| <= h && SelectBody(x, y, c) <= r.total + LowLoss(j - 1, c)
  {
    hide SelectBody, Active, Diverges, Chosen, LowLoss, LowRule;
    SelectBodyImproves(x, y, j, c);
  }

  /** And the row's own pair, with other low bits, costs that. */
  lemma RowAttained(r: SelectRow, h: nat, j: nat, c: Coefficients) returns (x: Bits)
    requires SelectExact(r, h, j, c)
    ensures |x| == h && Diverges(x, r.y, j) && |Active(x)| <= h && SelectBody(x, r.y, c) == r.total + LowLoss(j - 1, c)
  {
    hide SelectBody, PrefixBody, Upper, Active, Choice, Diverges, WithReads, LowLoss;
    var p, t := CutoffSplits(r.x, r.y, j);
    var s := LowAttained(j - 1, c);
    Resplit(r.x, r.y, j, s);
    assert t == Choice(j - 1) && |p + s| == h;
    SelectBodySplits(p, t, r.y, j, c);
    SelectBodySplits(p, s, r.y, j, c);
    x := p + s;
  }

  /** The row's total is the maximum over all pairs that part at `j`, whatever the cutoff's low bits. */
  ghost predicate RowIsMaximum(r: SelectRow, h: nat, j: nat, c: Coefficients) {
    forall x: Bits, y: Bits :: |x| == h && Diverges(x, y, j) ==> |Active(x)| <= h && SelectBody(x, y, c) <= r.total
  }

  lemma RowKeepsMaximum(r: SelectRow, h: nat, j: nat, c: Coefficients)
    requires SelectExact(r, h, j, c) && LowLoss(j - 1, c) == 0
    ensures RowIsMaximum(r, h, j, c)
  {
    hide SelectExact, SelectBody, Active, Diverges, LowLoss;
    forall x: Bits, y: Bits | |x| == h && Diverges(x, y, j) ensures |Active(x)| <= h && SelectBody(x, y, c) <= r.total {
      RowAtMost(r, h, j, c, x, y);
    }
  }

  /** Exactly under the rule: otherwise the row's own pair, with other low bits, costs more. */
  lemma RowMaximumIff(r: SelectRow, h: nat, j: nat, c: Coefficients)
    requires SelectExact(r, h, j, c)
    ensures RowIsMaximum(r, h, j, c) <==> LowRule(j - 1, c)
  {
    assert 1 <= j;
    hide SelectExact, SelectBody, Active, Diverges, LowRule, LowLoss, RowIsMaximum;
    LowLossIff(j - 1, c);
    if LowRule(j - 1, c) {
      RowKeepsMaximum(r, h, j, c);
    }
    if RowIsMaximum(r, h, j, c) {
      RowNotBelow(r, h, j, c);
    }
  }

  lemma RowNotBelow(r: SelectRow, h: nat, j: nat, c: Coefficients)
    requires SelectExact(r, h, j, c) && RowIsMaximum(r, h, j, c)
    ensures LowLoss(j - 1, c) <= 0
  {
    hide SelectExact, SelectBody, Active, Diverges, LowLoss;
    var more := RowAttained(r, h, j, c);
  }

  method SelectRowFor(h: nat, j: nat, c: Coefficients, tb: Table<State, Bits>) returns (r: SelectRow)
    requires 1 <= j <= h && ExactFor(tb, j - 1, LazyPrices(c))
    ensures SelectExact(r, h, j, c)
  {
    var t := FirstTable(tb, j, c);
    FirstExact(tb, j, c);
    for width := j to h
      invariant WExact(t, width, j, c)
    {
      var next := Extend(t, (s, e, bit) => WalkCandidate(s, e, bit, width + 1, c));
      WalkExact(t, next, width, j, c);
      t := next;
    }
    SomeState(t, h, j, c);
    var s := Largest(t, (s: State) => SelectEnd(s.0, c));
    var value := t[s].value + SelectEnd(s.0, c) + c.entry;
    var union := 2 * h - 1 + 2 * j;
    r := SelectRow(j, union, value, PushFixed(h) + 2000 * union + 2800 * (2 * h + 1) + value, t[s].wit.0, t[s].wit.1);
    LargestIsSelected(t, s, r, h, j, c);
  }

  lemma LargestIsSelected(t: Table<State, Couple>, s: State, r: SelectRow, h: nat, j: nat, c: Coefficients)
    requires WExact(t, h, j, c) && s in t
    requires forall q :: q in t ==> t[q].value + SelectEnd(q.0, c) <= t[s].value + SelectEnd(s.0, c)
    requires r.x == t[s].wit.0 && r.y == t[s].wit.1
    requires r.total == PushFixed(h) + 2000 * (2 * h - 1 + 2 * j) + 2800 * (2 * h + 1)
                        + (t[s].value + SelectEnd(s.0, c) + c.entry)
    ensures SelectExact(r, h, j, c)
  {
    assert WAttained(t[s], s, h, j, c);
    SelectBodyChosen(r.x, r.y, j, c);
    forall x: Bits, y: Bits | |x| == h && Chosen(x, y, j) ensures |Active(x)| <= h && SelectBody(x, y, c) <= r.total {
      SelectBodyChosen(x, y, j, c);
      assert WAtMost(t, (x, y), c);
    }
  }

  lemma SomeState(t: Table<State, Couple>, h: nat, j: nat, c: Coefficients)
    requires WExact(t, h, j, c) && 1 <= j <= h
    ensures t.Keys != {}
  {
    var x := seq(h, i => false);
    var y := x[h - j := true];
    assert Diverges(x, y, j);
    ImprovedChosen(x, y, j);
    assert WAtMost(t, (Improved(x, j), y), c);
  }

  method SelectRows(h: nat, c: Coefficients) returns (rows: seq<SelectRow>)
    ensures |rows| == h && AllExact(rows, h, c)
  {
    var tb := EndpointTables(h, LazyPrices(c));
    rows := [];
    for j := 1 to h + 1
      invariant |rows| == j - 1 && AllExact(rows, h, c)
    {
      var r := SelectRowFor(h, j, c, tb[j - 1]);
      AllExactSnoc(rows, r, h, c);
      rows := rows + [r];
    }
  }

  lemma AllExactSnoc(rows: seq<SelectRow>, r: SelectRow, h: nat, c: Coefficients)
    requires AllExact(rows, h, c) && SelectExact(r, h, |rows| + 1, c)
    ensures AllExact(rows + [r], h, c)
  {
    forall i | 0 <= i < |rows + [r]| ensures SelectExact((rows + [r])[i], h, i + 1, c) {
      assert i < |rows| ==> (rows + [r])[i] == rows[i];
    }
  }

  /** What the coefficients must satisfy at height `h`: at 3 and above, -4000 <= left <= right. */
  predicate CutoffRule(h: nat, c: Coefficients) {
    (h >= 2 ==> -4000 <= c.left) && (h >= 3 ==> c.left <= c.right)
  }

  ghost predicate AllMaxima(rows: seq<SelectRow>, h: nat, c: Coefficients) {
    forall i :: 0 <= i < |rows| ==> RowIsMaximum(rows[i], h, i + 1, c)
  }

  /** Every width below `h` keeps the choice's rule exactly under the rule for the height. */
  lemma RulesAt(h: nat, c: Coefficients)
    ensures (forall i :: 0 <= i < h ==> LowRule(i, c)) <==> CutoffRule(h, c)
  {
    if CutoffRule(h, c) {
      forall i | 0 <= i < h ensures LowRule(i, c) {
        if i > 0 {
          RuleForAll(i, c.left + 4000, c.right + 4000);
        }
      }
    }
    if forall i :: 0 <= i < h ==> LowRule(i, c) {
      assert h >= 2 ==> LowRule(1, c);
      assert h >= 3 ==> LowRule(2, c);
    }
  }

  /** The fixed choice of the low bits is right in every row exactly under the rule. */
  lemma AllMaximaIff(rows: seq<SelectRow>, h: nat, c: Coefficients)
    requires |rows| == h && AllExact(rows, h, c)
    ensures AllMaxima(rows, h, c) <==> CutoffRule(h, c)
  {
    hide RowIsMaximum, LowRule, CutoffRule, SelectExact;
    forall i | 0 <= i < h ensures RowIsMaximum(rows[i], h, i + 1, c) <==> LowRule(i, c) {
      RowMaximumIff(rows[i], h, i + 1, c);
    }
    RulesAt(h, c);
  }

  /** No row, with the loss of its low bits added, exceeds `best`. */
  predicate NoLossAbove(rows: seq<SelectRow>, best: SelectRow, c: Coefficients) {
    forall i :: 0 <= i < |rows| ==> rows[i].total + LowLoss(i, c) <= best.total
  }

  /**
   * The best pair with the chosen cutoff, for every height. Every row is the maximum over all cutoffs that part at its
   * width if and only if the rule holds. The best row is the maximum over every cutoff x below the last y if and only if
   * no other row gains more from its low bits than it lies behind, as under the rule.
   */
  method PreselectLast(h: nat, c: Coefficients) returns (best: SelectRow, rows: seq<SelectRow>)
    requires h >= 1
    ensures |rows| == h && AllExact(rows, h, c)
    ensures best in rows && forall i :: 0 <= i < |rows| ==> rows[i].total <= best.total
    ensures AllMaxima(rows, h, c) <==> CutoffRule(h, c)
    ensures IsSelectMaximum(best, h, c) <==> NoLossAbove(rows, best, c)
    ensures CutoffRule(h, c) ==> IsSelectMaximum(best, h, c)
  {
    hide AllExact, AllMaxima, CutoffRule, IsSelectMaximum, NoLossAbove;
    rows := SelectRows(h, c);
    best := LargestSelect(rows);
    AllMaximaIff(rows, h, c);
    BestMaximumIff(rows, best, h, c);
    if CutoffRule(h, c) {
      NothingIsLost(rows, best, h, c);
    }
  }

  lemma NothingIsLost(rows: seq<SelectRow>, best: SelectRow, h: nat, c: Coefficients)
    requires |rows| == h && CutoffRule(h, c) && forall i :: 0 <= i < |rows| ==> rows[i].total <= best.total
    ensures NoLossAbove(rows, best, c)
  {
    hide LowLoss, LowRule, CutoffRule;
    RulesAt(h, c);
    forall i | 0 <= i < |rows| ensures rows[i].total + LowLoss(i, c) <= best.total {
      LowLossIff(i, c);
    }
  }

  method LargestSelect(rows: seq<SelectRow>) returns (best: SelectRow)
    requires rows != []
    ensures best in rows && forall i :: 0 <= i < |rows| ==> rows[i].total <= best.total
  {
    best := rows[0];
    for i := 1 to |rows|
      invariant best in rows && forall k :: 0 <= k < i ==> rows[k].total <= best.total
    {
      if rows[i].total > best.total {
        best := rows[i];
      }
    }
  }

  /** `best` is the maximum over every cutoff x below the last endpoint y, both of `h` bits. */
  ghost predicate IsSelectMaximum(best: SelectRow, h: nat, c: Coefficients) {
    && |best.x| == |best.y| == h && Val(best.x) < Val(best.y)
    && |Active(best.x)| <= h && best.total == SelectBody(best.x, best.y, c)
    && forall x: Bits, y: Bits :: |x| == |y| == h && Val(x) < Val(y) ==>
         |Active(x)| <= h && SelectBody(x, y, c) <= best.total
  }

  ghost predicate AllExact(rows: seq<SelectRow>, h: nat, c: Coefficients) {
    forall i :: 0 <= i < |rows| ==> SelectExact(rows[i], h, i + 1, c)
  }

  /** The best row is the maximum over every cutoff exactly when no row with its loss is above it. */
  lemma BestMaximumIff(rows: seq<SelectRow>, best: SelectRow, h: nat, c: Coefficients)
    requires |rows| == h && AllExact(rows, h, c) && best in rows
    ensures IsSelectMaximum(best, h, c) <==> NoLossAbove(rows, best, c)
  {
    hide SelectBody, Active, Diverges, LowLoss, SelectExact, Val;
    if IsSelectMaximum(best, h, c) {
      forall i | 0 <= i < |rows| ensures rows[i].total + LowLoss(i, c) <= best.total {
        RowBelow(rows[i], best, h, i + 1, c);
      }
    }
    if NoLossAbove(rows, best, c) {
      BestAtMost(rows, best, h, c);
    }
  }

  lemma RowBelow(r: SelectRow, best: SelectRow, h: nat, j: nat, c: Coefficients)
    requires SelectExact(r, h, j, c) && IsSelectMaximum(best, h, c)
    ensures 1 <= j && r.total + LowLoss(j - 1, c) <= best.total
  {
    hide SelectBody, Active, LowLoss, Val;
    var x := RowAttained(r, h, j, c);
    OrderIsDivergence(x, r.y);
  }

  lemma BestAtMost(rows: seq<SelectRow>, best: SelectRow, h: nat, c: Coefficients)
    requires |rows| == h && AllExact(rows, h, c) && best in rows && NoLossAbove(rows, best, c)
    ensures IsSelectMaximum(best, h, c)
  {
    hide SelectBody, Active, Diverges, LowLoss, SelectExact, Val;
    var i :| 0 <= i < |rows| && rows[i] == best;
    RowOrdered(best, h, i + 1, c);
    forall x: Bits, y: Bits | |x| == |y| == h && Val(x) < Val(y)
      ensures |Active(x)| <= h && SelectBody(x, y, c) <= best.total
    {
      OrderIsDivergence(x, y);
      var j: nat :| Diverges(x, y, j);
      Parts(x, y, j);
      assert SelectExact(rows[j - 1], h, j - 1 + 1, c);
      RowAtMost(rows[j - 1], h, j, c, x, y);
      assert rows[j - 1].total + LowLoss(j - 1, c) <= best.total;
    }
  }

  lemma Parts(x: Bits, y: Bits, j: nat)
    requires Diverges(x, y, j)
    ensures 1 <= j <= |x|
  {
  }

  /** A row's own pair is one of those the maximum is over. */
  lemma RowOrdered(r: SelectRow, h: nat, j: nat, c: Coefficients)
    requires SelectExact(r, h, j, c)
    ensures |r.x| == |r.y| == h && Val(r.x) < Val(r.y) && |Active(r.x)| <= h && r.total == SelectBody(r.x, r.y, c)
  {
    hide SelectBody, Active, Val;
    OrderIsDivergence(r.x, r.y);
  }
}
