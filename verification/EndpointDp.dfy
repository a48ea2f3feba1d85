/**
 * The one-endpoint dynamic program (`endpoint_tables` of query-cold-joint-dp.py): one best value per
 * (zeros, highest zero) state, width by width, for every height.
 */
module EndpointDp {
  import opened Binary
  import opened TreeBits
  import opened MaxTable

  /** Prices of an endpoint: per boundary level, per full child, and the weight of its queries. */
  datatype Prices = Prices(boundary: int, fullChild: int, queryWeight: int)

  type State = (nat, nat)

  function StateOf(bits: Bits): State { (Zeros(bits), HighZero(bits)) }

  /** The bits down to the last zero: the levels at which the walk has not yet met a full subtree. */
  function Active(bits: Bits): Bits {
    if bits == [] then [] else if bits[|bits| - 1] then Active(bits[..|bits| - 1]) else bits
  }

  /** What the tables maximise, stated directly on an endpoint. */
  function EndpointCost(bits: Bits, p: Prices): int {
    Priced(QueryCost(bits), |Active(bits)|, Zeros(bits), p)
  }

  /** The prices of a query of cost `q` and a walk of `d` levels, `z` of them at zeros. */
  function Priced(q: int, d: int, z: int, p: Prices): int {
    p.queryWeight * q + p.boundary * d + p.fullChild * (d - z)
  }

  /** Added cost of a bit above `rest`, from its state alone. */
  function Extra(s: State, bit: bool, p: Prices): int {
    if !bit then p.boundary
    else if s.0 > 0 then p.queryWeight * (65 + 379 * s.0 + 133 * s.1) + p.boundary + p.fullChild
    else 0
  }

  /** State after a bit is put above a string of `width - 1` bits. */
  function Above(s: State, bit: bool, width: nat): State {
    if bit then s else (s.0 + 1, width)
  }

  lemma {:induction false} ActiveCons(b: bool, rest: Bits)
    ensures Active([b] + rest) == if b && Zeros(rest) == 0 then [] else [b] + Active(rest)
    ensures Zeros(rest) == 0 ==> Active(rest) == []
  {
    if rest == [] {
      assert [b] + rest == [b];
      assert [b][..0] == [];
    } else {
      var front, last := rest[..|rest| - 1], rest[|rest| - 1];
      assert ([b] + rest)[..|rest|] == [b] + front;
      assert rest == front + [last];
      SnocCounts(front, last);
      ActiveCons(b, front);
    }
  }

  /** The walk meets no boundary exactly when every bit is one. */
  lemma {:induction false} ActiveEmpty(bits: Bits)
    ensures |Active(bits)| == 0 <==> Zeros(bits) == 0
  {
    if bits != [] {
      var front, last := bits[..|bits| - 1], bits[|bits| - 1];
      assert bits == front + [last];
      SnocCounts(front, last);
      ActiveEmpty(front);
    }
  }

  lemma StateCons(b: bool, rest: Bits)
    ensures StateOf([b] + rest) == Above(StateOf(rest), b, |rest| + 1)
  {
    assert ([b] + rest)[1..] == rest;
  }

  /** The recurrence the tables use is exact for every endpoint. */
  lemma CostCons(b: bool, rest: Bits, p: Prices)
    ensures StateOf([b] + rest) == Above(StateOf(rest), b, |rest| + 1)
    ensures EndpointCost([b] + rest, p) == EndpointCost(rest, p) + Extra(StateOf(rest), b, p)
  {
    var bits := [b] + rest;
    assert bits[1..] == rest;
    ActiveCons(b, rest);
    Linear(p.queryWeight, QueryCost(rest), QueryAt(rest));
    Linear(p.boundary, |Active(rest)|, 1);
    Linear(p.fullChild, |Active(rest)| - Zeros(rest), 1);
  }

  lemma Linear(k: int, x: int, y: int)
    ensures k * (x + y) == k * x + k * y
  {
  }

  // ---- Tables -------------------------------------------------------------------------------------------------------

  ghost predicate Attained(e: Entry<Bits>, s: State, width: nat, p: Prices) {
    |e.wit| == width && StateOf(e.wit) == s && EndpointCost(e.wit, p) == e.value
  }

  ghost predicate AtMost(t: Table<State, Bits>, b: Bits, p: Prices) {
    StateOf(b) in t && EndpointCost(b, p) <= t[StateOf(b)].value
  }

  /**
   * The table is exact for strings of `width` bits: its states are exactly theirs, each value is attained by its
   * own witness, and no string of that state costs more.
   */
  ghost predicate ExactFor(t: Table<State, Bits>, width: nat, p: Prices) {
    && (forall s :: s in t ==> Attained(t[s], s, width, p))
    && (forall b: Bits :: |b| == width ==> AtMost(t, b, p))
  }

  function Candidate(s: State, e: Entry<Bits>, bit: bool, width: nat, p: Prices): (State, Entry<Bits>) {
    (Above(s, bit, width), Entry(e.value + Extra(s, bit, p), [bit] + e.wit))
  }

  lemma CandidateAttained(s: State, e: Entry<Bits>, bit: bool, width: nat, p: Prices)
    requires Attained(e, s, width, p)
    ensures var c := Candidate(s, e, bit, width + 1, p); Attained(c.1, c.0, width + 1, p)
  {
    CostCons(bit, e.wit, p);
  }

  lemma CandidateDominates(t: Table<State, Bits>, next: Table<State, Bits>, b: bool, rest: Bits, p: Prices)
    requires AtMost(t, rest, p)
    requires Beaten(next, Candidate(StateOf(rest), t[StateOf(rest)], b, |rest| + 1, p))
    ensures AtMost(next, [b] + rest, p)
  {
    CostCons(b, rest, p);
  }

  /** Keeping one maximum per state loses no optimum, since the added cost depends on the state alone. */
  lemma NextExact(t: Table<State, Bits>, next: Table<State, Bits>, width: nat, p: Prices)
    requires ExactFor(t, width, p)
    requires Extends(t, t.Keys, (s, e, bit) => Candidate(s, e, bit, width + 1, p), next)
    ensures ExactFor(next, width + 1, p)
  {
    var f: Extension<State, Bits> := (s, e, bit) => Candidate(s, e, bit, width + 1, p);
    forall s2 | s2 in next ensures Attained(next[s2], s2, width + 1, p) {
      var s, bit :| s in t && s in t.Keys && (s2, next[s2]) == f(s, t[s], bit);
      CandidateAttained(s, t[s], bit, width, p);
    }
    forall b: Bits | |b| == width + 1 ensures AtMost(next, b, p) {
      assert b == [b[0]] + b[1..];
      var s := StateOf(b[1..]);
      assert AtMost(t, b[1..], p);
      assert Beaten(next, f(s, t[s], b[0]));
      CandidateDominates(t, next, b[0], b[1..], p);
    }
  }

  /** All tables up to height `h`, each exact. */
  method EndpointTables(h: nat, p: Prices) returns (tables: seq<Table<State, Bits>>)
    ensures |tables| == h + 1
    ensures forall w :: 0 <= w <= h ==> ExactFor(tables[w], w, p)
  {
    var empty: Bits := [];
    tables := [map[(0, 0) := Entry(0, empty)]];
    EmptyExact(p);
    for width := 0 to h
      invariant |tables| == width + 1
      invariant forall w :: 0 <= w <= width ==> ExactFor(tables[w], w, p)
    {
      var next := Extend(tables[width], (s, e, bit) => Candidate(s, e, bit, width + 1, p));
      NextExact(tables[width], next, width, p);
      tables := tables + [next];
    }
  }

  lemma EmptyExact(p: Prices)
    ensures ExactFor(map[(0, 0) := Entry(0, [])], 0, p)
  {
    var t: Table<State, Bits> := map[(0, 0) := Entry(0, [])];
    assert Attained(t[(0, 0)], (0, 0), 0, p);
    forall b: Bits | |b| == 0 ensures AtMost(t, b, p) {
      assert b == [];
    }
  }
}
