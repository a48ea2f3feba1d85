/**
 * Longest path to a terminal by iterative depth-first search with an explicit (node, child index) stack
 * (`longest` of frame_bound.py, and phase 2 of `run` in pure_module_bound.py).
 */
module LongestPath {
  /** An integer, or the minus infinity of a node no terminal can be reached from. */
  datatype Ext = NegInf | Fin(v: int)

  /** Weighted edges, and the value of ending at a terminal node. */
  datatype Graph<!K(==)> = Graph(edges: map<K, seq<(K, int)>>, term: map<K, int>)

  predicate NoMore(v: Ext, w: Ext) { v.NegInf? || (w.Fin? && v.v <= w.v) }

  datatype Result = Value(v: Ext) | Cycle

  function Succ<K>(g: Graph<K>, k: K): seq<(K, int)> {
    if k in g.edges then g.edges[k] else []
  }

  // ---- Walks ----------------------------------------------------------------------------------------------------

  /** `cs` lists which outgoing edge is taken at each node from `k` on. */
  ghost predicate Walk<K>(g: Graph<K>, k: K, cs: seq<nat>) {
    cs == [] || (cs[0] < |Succ(g, k)| && Walk(g, Succ(g, k)[cs[0]].0, cs[1..]))
  }

  ghost function End<K>(g: Graph<K>, k: K, cs: seq<nat>): K
    requires Walk(g, k, cs)
  {
    if cs == [] then k else End(g, Succ(g, k)[cs[0]].0, cs[1..])
  }

  ghost function Weight<K>(g: Graph<K>, k: K, cs: seq<nat>): int
    requires Walk(g, k, cs)
  {
    if cs == [] then 0 else Succ(g, k)[cs[0]].1 + Weight(g, Succ(g, k)[cs[0]].0, cs[1..])
  }

  /** The value of a walk that ends at a terminal. */
  ghost predicate Reaches<K>(g: Graph<K>, k: K, cs: seq<nat>, w: int) {
    Walk(g, k, cs) && End(g, k, cs) in g.term && w == Weight(g, k, cs) + g.term[End(g, k, cs)]
  }

  /** `v` is the largest value over all walks from `k` to a terminal, minus infinity when there is none. */
  ghost predicate IsLongest<K>(g: Graph<K>, k: K, v: Ext) {
    && (forall cs: seq<nat>, w :: Reaches(g, k, cs, w) ==> v.Fin? && w <= v.v)
    && (v.Fin? ==> exists cs: seq<nat> :: Reaches(g, k, cs, v.v))
  }

  /** A closed walk of at least one edge at the end of `cs`. */
  ghost predicate CycleAfter<K>(g: Graph<K>, k: K, cs: seq<nat>, loop: seq<nat>) {
    Walk(g, k, cs) && loop != [] && Walk(g, End(g, k, cs), loop) && End(g, End(g, k, cs), loop) == End(g, k, cs)
  }

  ghost predicate ReachesCycle<K>(g: Graph<K>, k: K) {
    exists cs: seq<nat>, loop: seq<nat> :: CycleAfter(g, k, cs, loop)
  }

  lemma {:induction false} WalkConcat<K>(g: Graph<K>, k: K, a: seq<nat>, b: seq<nat>)
    requires Walk(g, k, a) && Walk(g, End(g, k, a), b)
    ensures Walk(g, k, a + b) && End(g, k, a + b) == End(g, End(g, k, a), b)
  {
    if a == [] {
      assert a + b == b;
    } else {
      assert (a + b)[1..] == a[1..] + b;
      WalkConcat(g, Succ(g, k)[a[0]].0, a[1..], b);
    }
  }

  /** A node all of whose children reach no cycle reaches none: a cycle through it passes through a child. */
  lemma NoCycleFromChildren<K>(g: Graph<K>, k: K)
    requires forall i :: 0 <= i < |Succ(g, k)| ==> !ReachesCycle(g, Succ(g, k)[i].0)
    ensures !ReachesCycle(g, k)
  {
    forall cs: seq<nat>, loop: seq<nat> | CycleAfter(g, k, cs, loop) ensures false {
      if cs == [] {
        var c := Succ(g, k)[loop[0]].0;
        WalkConcat(g, c, loop[1..], [loop[0]]);
        assert CycleAfter(g, c, [], loop[1..] + [loop[0]]);
        assert ReachesCycle(g, Succ(g, k)[loop[0]].0);
      } else {
        assert CycleAfter(g, Succ(g, k)[cs[0]].0, cs[1..], loop);
        assert ReachesCycle(g, Succ(g, k)[cs[0]].0);
      }
    }
  }

  lemma SameLongest<K>(g: Graph<K>, k: K, v: Ext, w: Ext)
    requires IsLongest(g, k, v) && IsLongest(g, k, w)
    ensures v == w
  {
  }

  /** A node without edges is worth its own end, if it is one. */
  lemma LongestHere<K>(g: Graph<K>, k: K)
    requires Succ(g, k) == []
    ensures IsLongest(g, k, if k in g.term then Fin(g.term[k]) else NegInf) && !ReachesCycle(g, k)
  {
    assert Walk(g, k, []);
    if k in g.term {
      assert Reaches(g, k, [], g.term[k]);
    }
  }

  /** A node with one edge that is no end is worth the edge and what follows it. */
  lemma LongestThrough<K>(g: Graph<K>, k: K, n: K, d: int, v: Ext)
    requires Succ(g, k) == [(n, d)] && k !in g.term && IsLongest(g, n, v) && !ReachesCycle(g, n)
    ensures IsLongest(g, k, if v.Fin? then Fin(d + v.v) else NegInf) && !ReachesCycle(g, k)
  {
    NoCycleFromChildren(g, k);
    forall cs: seq<nat>, w | Reaches(g, k, cs, w) ensures v.Fin? && w <= d + v.v {
      assert Reaches(g, n, cs[1..], w - d);
    }
    if v.Fin? {
      var cs: seq<nat> :| Reaches(g, n, cs, v.v);
      assert ([0] + cs)[1..] == cs;
      assert Reaches(g, k, [0] + cs, d + v.v);
    }
  }

  // ---- A certificate for an upper bound ---------------------------------------------------------------------------

  /** `phi` falls by at least the weight of every edge, is at least every terminal, and `live` is closed under edges. */
  ghost predicate Potential<K>(g: Graph<K>, live: set<K>, phi: map<K, nat>) {
    forall k :: k in live ==>
      && k in phi && (k in g.term ==> g.term[k] <= phi[k])
      && forall i :: 0 <= i < |Succ(g, k)| ==>
           && Succ(g, k)[i].0 in live && Succ(g, k)[i].0 in phi
           && 0 < Succ(g, k)[i].1 && phi[Succ(g, k)[i].0] + Succ(g, k)[i].1 <= phi[k]
  }

  lemma {:induction false} WalkFalls<K>(g: Graph<K>, live: set<K>, phi: map<K, nat>, k: K, cs: seq<nat>)
    requires Potential(g, live, phi) && k in live && Walk(g, k, cs)
    ensures End(g, k, cs) in live && phi[End(g, k, cs)] + Weight(g, k, cs) <= phi[k] && |cs| <= Weight(g, k, cs)
  {
    if cs != [] {
      WalkFalls(g, live, phi, Succ(g, k)[cs[0]].0, cs[1..]);
    }
  }

  /** A potential rules out cycles and bounds the value of every walk. */
  lemma PotentialBounds<K>(g: Graph<K>, live: set<K>, phi: map<K, nat>, k: K)
    requires Potential(g, live, phi) && k in live
    ensures !ReachesCycle(g, k)
    ensures forall cs: seq<nat>, w :: Reaches(g, k, cs, w) ==> w <= phi[k]
  {
    forall cs: seq<nat>, loop: seq<nat> | CycleAfter(g, k, cs, loop) ensures false {
      WalkFalls(g, live, phi, k, cs);
      WalkFalls(g, live, phi, End(g, k, cs), loop);
    }
    forall cs: seq<nat>, w | Reaches(g, k, cs, w) ensures w <= phi[k] {
      WalkFalls(g, live, phi, k, cs);
    }
  }

  // ---- The value of one node from its children --------------------------------------------------------------------

  function Better(v: Ext, w: Ext, d: int): Ext {
    match w
    case NegInf => v
    case Fin(x) => if v.NegInf? || v.v < x + d then Fin(x + d) else v
  }

  /** The maximum over the first `n` children, starting from the node's own terminal value. */
  ghost function BestOf<K>(g: Graph<K>, k: K, memo: map<K, Ext>, n: nat): Ext
    requires n <= |Succ(g, k)|
    requires forall i :: 0 <= i < n ==> Succ(g, k)[i].0 in memo
  {
    if n == 0 then (if k in g.term then Fin(g.term[k]) else NegInf)
    else Better(BestOf(g, k, memo, n - 1), memo[Succ(g, k)[n - 1].0], Succ(g, k)[n - 1].1)
  }

  /** `BestOf` is the maximum over the walks that stop here or leave through one of the first `n` edges. */
  lemma {:induction false} BestOfIsMaximum<K>(g: Graph<K>, k: K, memo: map<K, Ext>, n: nat)
    requires n <= |Succ(g, k)|
    requires forall i :: 0 <= i < n ==> Succ(g, k)[i].0 in memo && IsLongest(g, Succ(g, k)[i].0, memo[Succ(g, k)[i].0])
    ensures var v := BestOf(g, k, memo, n);
      && (forall cs: seq<nat>, w :: Reaches(g, k, cs, w) && (cs == [] || cs[0] < n) ==> v.Fin? && w <= v.v)
      && (v.Fin? ==> exists cs: seq<nat> :: Reaches(g, k, cs, v.v))
  {
    var v := BestOf(g, k, memo, n);
    if n == 0 {
      if v.Fin? {
        assert Reaches(g, k, [], v.v);
      }
    } else {
      BestOfIsMaximum(g, k, memo, n - 1);
      var (c, d) := Succ(g, k)[n - 1];
      forall cs: seq<nat>, w | Reaches(g, k, cs, w) && (cs == [] || cs[0] < n) ensures v.Fin? && w <= v.v {
        if cs != [] && cs[0] == n - 1 {
          assert Reaches(g, c, cs[1..], w - d);
        }
      }
      if v.Fin? && v != BestOf(g, k, memo, n - 1) {
        var cs: seq<nat> :| Reaches(g, c, cs, v.v - d);
        assert ([n - 1] + cs)[1..] == cs;
        assert Reaches(g, k, [n - 1] + cs, v.v);
      }
    }
  }

  // ---- The search ---------------------------------------------------------------------------------------------------

  ghost function Nodes<K>(g: Graph<K>): set<K> {
    g.edges.Keys + set k, i | k in g.edges && 0 <= i < |g.edges[k]| :: g.edges[k][i].0
  }

  ghost function Keys<K>(stack: seq<(K, nat)>): set<K> {
    set i | 0 <= i < |stack| :: stack[i].0
  }

  ghost predicate MemoOk<K>(g: Graph<K>, memo: map<K, Ext>) {
    forall k :: k in memo ==> Done(g, k, memo[k])
  }

  ghost predicate Done<K>(g: Graph<K>, k: K, v: Ext) { IsLongest(g, k, v) && !ReachesCycle(g, k) }

  /** The first `n` children of `k` are done. */
  ghost predicate DoneBelow<K>(g: Graph<K>, k: K, memo: map<K, Ext>, n: nat) {
    n <= |Succ(g, k)| && forall c :: 0 <= c < n ==> Succ(g, k)[c].0 in memo
  }

  /** An entry with index i has its first i children done, the last of which may be the entry above it. */
  ghost predicate EntryOk<K>(g: Graph<K>, stack: seq<(K, nat)>, memo: map<K, Ext>, j: nat)
    requires j < |stack|
  {
    var (k, i) := stack[j];
    if j + 1 < |stack| then
      0 < i <= |Succ(g, k)| && Succ(g, k)[i - 1].0 == stack[j + 1].0 && DoneBelow(g, k, memo, i - 1)
    else DoneBelow(g, k, memo, i)
  }

  ghost predicate StackOk<K>(g: Graph<K>, stack: seq<(K, nat)>, memo: map<K, Ext>) {
    && (forall j :: 0 <= j < |stack| ==> EntryOk(g, stack, memo, j))
    && (forall i, j :: 0 <= i < j < |stack| ==> stack[i].0 != stack[j].0)
  }

  /** The nodes whose first child has been looked at: all on the stack, except possibly the top one. */
  ghost function Active<K>(stack: seq<(K, nat)>): set<K> {
    if stack == [] then {}
    else if stack[|stack| - 1].1 > 0 then Keys(stack)
    else Keys(stack) - {stack[|stack| - 1].0}
  }

  /** The stack is a walk: from the entry at `i` down to the entry at `j`. */
  lemma {:induction false} StackWalk<K>(g: Graph<K>, stack: seq<(K, nat)>, memo: map<K, Ext>, i: nat, j: nat)
    returns (cs: seq<nat>)
    requires StackOk(g, stack, memo) && i <= j < |stack|
    ensures |cs| == j - i && Walk(g, stack[i].0, cs) && End(g, stack[i].0, cs) == stack[j].0
    decreases j - i
  {
    if i == j {
      cs := [];
    } else {
      var rest := StackWalk(g, stack, memo, i + 1, j);
      assert EntryOk(g, stack, memo, i);
      cs := [stack[i].1 - 1] + rest;
      assert cs[1..] == rest;
    }
  }

  /** An edge from the top of the stack back to a node on it closes a cycle the bottom node reaches. */
  lemma BackEdge<K>(g: Graph<K>, stack: seq<(K, nat)>, memo: map<K, Ext>, c: nat)
    requires StackOk(g, stack, memo) && stack != []
    requires c < |Succ(g, stack[|stack| - 1].0)| && Succ(g, stack[|stack| - 1].0)[c].0 in Keys(stack)
    ensures ReachesCycle(g, stack[0].0)
  {
    var top := |stack| - 1;
    var j :| 0 <= j < |stack| && stack[j].0 == Succ(g, stack[top].0)[c].0;
    var down := StackWalk(g, stack, memo, 0, j);
    var round := StackWalk(g, stack, memo, j, top);
    WalkConcat(g, stack[j].0, round, [c]);
    assert CycleAfter(g, stack[0].0, down, round + [c]);
  }

  /** Passing a child that is already done. */
  lemma AdvanceOk<K>(g: Graph<K>, below: seq<(K, nat)>, k: K, i: nat, memo: map<K, Ext>)
    requires StackOk(g, below + [(k, i)], memo)
    requires i < |Succ(g, k)| && Succ(g, k)[i].0 in memo
    ensures StackOk(g, below + [(k, i + 1)], memo) && Keys(below + [(k, i + 1)]) == Keys(below) + {k}
  {
    var stack, after := below + [(k, i)], below + [(k, i + 1)];
    KeysOfPush(below, (k, i + 1));
    assert EntryOk(g, stack, memo, |below|);
    forall j | 0 <= j < |after| ensures EntryOk(g, after, memo, j) {
      assert EntryOk(g, stack, memo, j);
    }
    forall a, b | 0 <= a < b < |after| ensures after[a].0 != after[b].0 {
      assert stack[a].0 != stack[b].0;
    }
  }

  lemma KeysOfPush<K>(stack: seq<(K, nat)>, e: (K, nat))
    ensures Keys(stack + [e]) == Keys(stack) + {e.0}
  {
    assert (stack + [e])[|stack|] == e;
    assert forall i :: 0 <= i < |stack| ==> (stack + [e])[i] == stack[i];
  }

  /** Going down to a new child. */
  lemma PushOk<K>(g: Graph<K>, below: seq<(K, nat)>, k: K, i: nat, memo: map<K, Ext>)
    requires StackOk(g, below + [(k, i)], memo)
    requires i < |Succ(g, k)| && Succ(g, k)[i].0 !in Keys(below) + {k}
    ensures StackOk(g, below + [(k, i + 1), (Succ(g, k)[i].0, 0)], memo)
    ensures Keys(below + [(k, i + 1), (Succ(g, k)[i].0, 0)]) == Keys(below) + {k, Succ(g, k)[i].0}
  {
    var nk := Succ(g, k)[i].0;
    var stack, after := below + [(k, i)], below + [(k, i + 1), (nk, 0)];
    KeysOfPush(below, (k, i + 1));
    KeysOfPush(below + [(k, i + 1)], (nk, 0));
    assert after == below + [(k, i + 1)] + [(nk, 0)];
    assert EntryOk(g, stack, memo, |below|);
    forall j | 0 <= j < |after| ensures EntryOk(g, after, memo, j) {
      if j < |below| {
        assert EntryOk(g, stack, memo, j);
      }
    }
    forall a, b | 0 <= a < b < |after| ensures after[a].0 != after[b].0 {
      if b <= |below| {
        assert stack[a].0 != stack[b].0;
      } else {
        assert after[a].0 in Keys(below + [(k, i + 1)]);
      }
    }
  }

  /** Leaving a node whose children are all done. */
  lemma FinishOk<K>(g: Graph<K>, below: seq<(K, nat)>, k: K, i: nat, memo: map<K, Ext>, v: Ext)
    requires StackOk(g, below + [(k, i)], memo) && i == |Succ(g, k)|
    ensures StackOk(g, below, memo[k := v])
    ensures below != [] ==> below[|below| - 1].1 > 0
    ensures k !in Keys(below) && DoneBelow(g, k, memo, |Succ(g, k)|)
  {
    var stack, memo' := below + [(k, i)], memo[k := v];
    assert EntryOk(g, stack, memo, |below|);
    forall j | 0 <= j < |below| ensures EntryOk(g, below, memo', j) && below[j].0 != k && below[j].1 > 0 {
      assert EntryOk(g, stack, memo, j) && stack[j] == below[j] && stack[|below|] == (k, i);
      assert stack[j].0 != stack[|below|].0;
      FinishEntry(g, below, k, i, memo, v, j);
    }
    forall a, b | 0 <= a < b < |below| ensures below[a].0 != below[b].0 {
      assert stack[a].0 != stack[b].0;
    }
  }

  lemma FinishEntry<K>(g: Graph<K>, below: seq<(K, nat)>, k: K, i: nat, memo: map<K, Ext>, v: Ext, j: nat)
    requires j < |below| && EntryOk(g, below + [(k, i)], memo, j)
    ensures EntryOk(g, below, memo[k := v], j)
  {
    var stack := below + [(k, i)];
    var n := stack[j].1;
    assert stack[j] == below[j] && stack[j + 1] == if j + 1 < |below| then below[j + 1] else (k, i);
    forall c | 0 <= c < (if j + 1 < |below| then n - 1 else n) ensures Succ(g, below[j].0)[c].0 in memo[k := v] {
      if c < n - 1 {
        assert Succ(g, stack[j].0)[c].0 in memo;
      }
    }
  }

  /** The invariant of the search from `start` over the nodes `all`. */
  ghost predicate SearchInv<K>(g: Graph<K>, all: set<K>, start: K, stack: seq<(K, nat)>, memo: map<K, Ext>, onstack: set<K>) {
    && MemoOk(g, memo) && StackOk(g, stack, memo) && onstack == Active(stack)
    && Keys(stack) !! memo.Keys && Keys(stack) <= all && Nodes(g) <= all
    && (if |stack| == 0 then start in memo else stack[0].0 == start)
  }

  ghost function Remaining<K>(g: Graph<K>, stack: seq<(K, nat)>): int {
    if |stack| == 0 then 0 else 1 + |Succ(g, stack[|stack| - 1].0)| - stack[|stack| - 1].1
  }

  lemma TopActive<K>(g: Graph<K>, below: seq<(K, nat)>, k: K, i: nat, memo: map<K, Ext>)
    requires StackOk(g, below + [(k, i)], memo)
    ensures DoneBelow(g, k, memo, i)
    ensures Keys(below + [(k, i)]) == Keys(below) + {k} && k in Keys(below + [(k, i)])
    ensures Active(below + [(k, i)]) + {k} == Keys(below + [(k, i)])
    ensures i > 0 ==> Active(below + [(k, i)]) == Keys(below + [(k, i)])
  {
    KeysOfPush(below, (k, i));
    assert EntryOk(g, below + [(k, i)], memo, |below|);
  }

  lemma AdvanceInv<K>(g: Graph<K>, all: set<K>, start: K, below: seq<(K, nat)>, k: K, i: nat, memo: map<K, Ext>)
    requires SearchInv(g, all, start, below + [(k, i)], memo, Active(below + [(k, i)]))
    requires i < |Succ(g, k)| && Succ(g, k)[i].0 in memo
    ensures SearchInv(g, all, start, below + [(k, i + 1)], memo, Keys(below + [(k, i)]))
    ensures Keys(below + [(k, i + 1)]) == Keys(below + [(k, i)])
    ensures Remaining(g, below + [(k, i + 1)]) < Remaining(g, below + [(k, i)])
  {
    KeysOfPush(below, (k, i));
    AdvanceOk(g, below, k, i, memo);
    assert (below + [(k, i)])[0].0 == (below + [(k, i + 1)])[0].0;
  }

  lemma PushInv<K>(g: Graph<K>, all: set<K>, start: K, below: seq<(K, nat)>, k: K, i: nat, memo: map<K, Ext>)
    requires SearchInv(g, all, start, below + [(k, i)], memo, Active(below + [(k, i)]))
    requires i < |Succ(g, k)| && Succ(g, k)[i].0 !in memo && Succ(g, k)[i].0 !in Keys(below + [(k, i)])
    ensures SearchInv(g, all, start, below + [(k, i + 1), (Succ(g, k)[i].0, 0)], memo, Keys(below + [(k, i)]))
    ensures all - Keys(below + [(k, i + 1), (Succ(g, k)[i].0, 0)]) < all - Keys(below + [(k, i)])
  {
    var nk := Succ(g, k)[i].0;
    KeysOfPush(below, (k, i));
    PushOk(g, below, k, i, memo);
    assert g.edges[k][i].0 in Nodes(g);
    assert nk in all - Keys(below + [(k, i)]);
    assert (below + [(k, i)])[0].0 == (below + [(k, i + 1), (nk, 0)])[0].0;
  }

  lemma FinishInv<K>(g: Graph<K>, all: set<K>, start: K, below: seq<(K, nat)>, k: K, i: nat, memo: map<K, Ext>, v: Ext)
    requires SearchInv(g, all, start, below + [(k, i)], memo, Active(below + [(k, i)]))
    requires i >= |Succ(g, k)| && Done(g, k, v)
    ensures SearchInv(g, all, start, below, memo[k := v], Keys(below + [(k, i)]) - {k})
    ensures all - memo[k := v].Keys < all - memo.Keys
  {
    KeysOfPush(below, (k, i));
    assert EntryOk(g, below + [(k, i)], memo, |below|);
    FinishOk(g, below, k, i, memo, v);
    assert k in all - memo.Keys;
    assert below != [] ==> (below + [(k, i)])[0].0 == below[0].0;
  }

  /** Effective terminals: with `toHead` only the stop marker ends a path, otherwise only real terminals do. */
  function Effective<K(==)>(g: Graph<K>, head: K, toHead: bool): Graph<K> {
    Graph(g.edges, if toHead then map[head := 0] else g.term - {head})
  }

  /** One pass of the search finishes a node, goes down to a child, or moves on to the next child. */
  ghost predicate Progress<K>(g: Graph<K>, all: set<K>, m0: map<K, Ext>, s0: seq<(K, nat)>, m1: map<K, Ext>, s1: seq<(K, nat)>) {
    || all - m1.Keys < all - m0.Keys
    || (m1 == m0 && all - Keys(s1) < all - Keys(s0))
    || (m1 == m0 && Keys(s1) == Keys(s0) && Remaining(g, s1) < Remaining(g, s0))
  }

  /** One pass over the top of the stack: back at a node on it, a cycle is found. */
  method Visit<K(==)>(g: Graph<K>, ghost all: set<K>, ghost start: K, s0: seq<(K, nat)>, m0: map<K, Ext>, o0: set<K>)
    returns (cycle: bool, stack: seq<(K, nat)>, memo: map<K, Ext>, onstack: set<K>)
    requires |s0| > 0 && SearchInv(g, all, start, s0, m0, o0)
    ensures cycle ==> ReachesCycle(g, start)
    ensures !cycle ==> SearchInv(g, all, start, stack, memo, onstack) && Progress(g, all, m0, s0, memo, stack)
    ensures m0.Keys <= memo.Keys && 0 <= Remaining(g, s0)
  {
    cycle, stack, memo, onstack := false, s0, m0, o0;
    var (k, i) := stack[|stack| - 1];
    var below := stack[..|stack| - 1];
    assert stack == below + [(k, i)];
    TopActive(g, below, k, i, memo);
    if i == 0 {
      onstack := onstack + {k};
    }
    var succ := Succ(g, k);
    if i < |succ| {
      var nk := succ[i].0;
      var next: (K, nat), child: (K, nat) := (k, i + 1), (nk, 0);
      if nk in memo {
        AdvanceInv(g, all, start, below, k, i, memo);
        stack := below + [next];
      } else if nk in onstack {
        BackEdge(g, stack, memo, i);
        cycle := true;
      } else {
        PushInv(g, all, start, below, k, i, memo);
        stack := below + [next, child];
      }
    } else {
      var v := Value(g, k, memo);
      FinishInv(g, all, start, below, k, i, memo, v);
      memo := memo[k := v];
      onstack := onstack - {k};
      stack := below;
    }
  }

  /**
   * The longest value from `start`; raises exactly when a cycle can be reached from it.
   * `head` is the stop marker, which has no edges.
   */
  method Longest<K(==)>(g0: Graph<K>, start: K, head: K, toHead: bool) returns (r: Result)
    requires head !in g0.edges
    ensures r.Value? ==> IsLongest(Effective(g0, head, toHead), start, r.v)
    ensures r.Cycle? <==> ReachesCycle(g0, start)
  {
    var g := Effective(g0, head, toHead);
    ghost var all := Nodes(g) + {start};
    var memo: map<K, Ext> := map[head := if toHead then Fin(0) else NegInf];
    HeadDone(g, head, memo[head]);
    if start in memo {  // the loop's first pass would drop it
      SameCycles(g0, g, start);
      return Result.Value(memo[start]);
    }
    var onstack: set<K> := {};
    var stack: seq<(K, nat)> := [(start, 0)];
    while |stack| > 0
      invariant head in memo && SearchInv(g, all, start, stack, memo, onstack)
      decreases all - memo.Keys, all - Keys(stack), Remaining(g, stack)
    {
      var cycle;
      cycle, stack, memo, onstack := Visit(g, all, start, stack, memo, onstack);
      if cycle {
        SameCycles(g0, g, start);
        return Cycle;
      }
    }
    SameCycles(g0, g, start);
    r := Result.Value(memo[start]);
  }

  /** The children's maximum, as the source's inner loop computes it. */
  method Value<K(==)>(g: Graph<K>, k: K, memo: map<K, Ext>) returns (v: Ext)
    requires MemoOk(g, memo) && DoneBelow(g, k, memo, |Succ(g, k)|)
    ensures Done(g, k, v)
  {
    NoCycleFromChildren(g, k);
    v := if k in g.term then Fin(g.term[k]) else NegInf;
    for n := 0 to |Succ(g, k)|
      invariant v == BestOf(g, k, memo, n)
    {
      v := Better(v, memo[Succ(g, k)[n].0], Succ(g, k)[n].1);
    }
    BestOfIsMaximum(g, k, memo, |Succ(g, k)|);
  }

  lemma HeadDone<K>(g: Graph<K>, head: K, v: Ext)
    requires head !in g.edges
    requires v == if head in g.term then Fin(g.term[head]) else NegInf
    ensures Done(g, head, v)
  {
    BestOfIsMaximum(g, head, map[], 0);
    NoCycleFromChildren(g, head);
  }

  /** Cycles do not depend on which nodes are terminal. */
  lemma SameCycles<K>(g: Graph<K>, h: Graph<K>, k: K)
    requires g.edges == h.edges
    ensures ReachesCycle(g, k) <==> ReachesCycle(h, k)
  {
    forall cs: seq<nat>, loop: seq<nat> ensures CycleAfter(g, k, cs, loop) <==> CycleAfter(h, k, cs, loop) {
      SameWalks(g, h, k, cs);
      if Walk(g, k, cs) {
        SameWalks(g, h, End(g, k, cs), loop);
      }
    }
  }

  lemma {:induction false} SameWalks<K>(g: Graph<K>, h: Graph<K>, k: K, cs: seq<nat>)
    requires g.edges == h.edges
    ensures Walk(g, k, cs) <==> Walk(h, k, cs)
    ensures Walk(g, k, cs) ==> End(g, k, cs) == End(h, k, cs) && Weight(g, k, cs) == Weight(h, k, cs)
  {
    if cs != [] && cs[0] < |Succ(g, k)| {
      SameWalks(g, h, Succ(g, k)[cs[0]].0, cs[1..]);
    }
  }
}
