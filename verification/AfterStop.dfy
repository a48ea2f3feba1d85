/**
 * The gas of a frame after its stop point (`afterStop` of frame_bound.py): the longest successful path from any state
 * at that program counter, over the graph that does not stop there.
 */
module AfterStop {
  import opened Binary
  import opened Bytes
  import opened Evm
  import opened ConcreteOracle
  import opened ModuleBound
  import opened Simulation
  import opened GasBound
  import LP = LongestPath

  /** `Never`: no state has that program counter. `Raises`: the search met a cycle. */
  datatype Tail = Never | Longest(v: LP.Ext) | Raises

  function KeysAt(best: Best, pc: nat): set<Key> {
    set k | k in best && k.pc == pc
  }

  /** `v` is the longest value from one of the keys, and no key has a longer one or reaches a cycle. */
  ghost predicate IsMaximum(g: LP.Graph<Node>, keys: set<Key>, v: LP.Ext) {
    && (exists k :: k in keys && LP.IsLongest(g, At(k), v))
    && (forall k :: k in keys ==> !LP.ReachesCycle(g, At(k)) && exists u :: LP.IsLongest(g, At(k), u) && LP.NoMore(u, v))
  }

  ghost predicate IsTail(best: Best, pc: nat, g: LP.Graph<Node>, t: Tail) {
    match t
    case Never => KeysAt(best, pc) == {}
    case Raises => exists k :: k in KeysAt(best, pc) && LP.ReachesCycle(g, At(k))
    case Longest(v) => IsMaximum(g, KeysAt(best, pc), v)
  }

  lemma MaximumOfOne(g: LP.Graph<Node>, k: Key, v: LP.Ext)
    requires LP.IsLongest(g, At(k), v) && !LP.ReachesCycle(g, At(k))
    ensures IsMaximum(g, {k}, v)
  {
    assert LP.NoMore(v, v);
  }

  lemma MaximumAdds(g: LP.Graph<Node>, keys: set<Key>, v: LP.Ext, k: Key, u: LP.Ext)
    requires IsMaximum(g, keys, v) && LP.IsLongest(g, At(k), u) && !LP.ReachesCycle(g, At(k))
    ensures IsMaximum(g, keys + {k}, if LP.NoMore(u, v) then v else u)
  {
    var m := if LP.NoMore(u, v) then v else u;
    hide LP.IsLongest, LP.ReachesCycle;
    forall x | x in keys + {k} ensures exists y :: LP.IsLongest(g, At(x), y) && LP.NoMore(y, m) {
      if x in keys {
        var y :| LP.IsLongest(g, At(x), y) && LP.NoMore(y, v);
        assert LP.NoMore(y, m);
      } else {
        assert LP.NoMore(u, m);
      }
    }
  }

  lemma HeadIsPlain(c: Context, best: Best, g: LP.Graph<Node>)
    requires IsGraph(c, best, None, g)
    ensures Head !in g.edges && LP.Effective(g, Head, false) == g
  {
    NoTerminalHead(c, best, g);
  }

  /** The maximum of the longest values from the states at `pc`. */
  method TailFrom(c: Context, best: Best, pc: nat, g: LP.Graph<Node>) returns (t: Tail)
    requires IsGraph(c, best, None, g)
    ensures IsTail(best, pc, g, t)
  {
    hide LP.IsLongest, LP.ReachesCycle, LP.Effective, IsMaximum, IsGraph;
    HeadIsPlain(c, best, g);
    t := Never;
    ghost var done: set<Key> := {};
    var todo := KeysAt(best, pc);
    while todo != {}
      invariant todo + done == KeysAt(best, pc)
      invariant !t.Raises? && (t.Never? ==> done == {})
      invariant t.Longest? ==> IsMaximum(g, done, t.v)
      decreases todo
    {
      var k :| k in todo;
      var r := LP.Longest(g, At(k), Head, false);
      if r.Cycle? {
        return Raises;
      }
      if t.Never? {
        MaximumOfOne(g, k, r.v);
        assert done + {k} == {k};
      } else {
        MaximumAdds(g, done, t.v, k, r.v);
      }
      if t.Never? || !LP.NoMore(r.v, t.v) {
        t := Longest(r.v);
      }
      done := done + {k};
      todo := todo - {k};
    }
  }

  /** A run that passes `pc` is in a final state with that program counter there, and a walk from it pays for the rest. */
  lemma {:induction false} TailFollows(c: Context, cd: seq<byte>, hash: Hash, best: Best, pc: nat, sites: set<nat>,
                                       exact: bool, g: LP.Graph<Node>, k: Key, s: State, n: nat)
    returns (at: Key, cs: seq<nat>, w: int)
    requires Setting(c, cd, best, None, sites, exact, g)
    requires k in best && Gamma(best[k], s, exact) && RunAdmissible(c, cd, hash, sites, exact, s, n)
    requires Run(c.prog, cd, hash, s, n).Done? && Arrival(c.prog, cd, hash, s, n, pc).Some?
    ensures var s2 := Arrival(c.prog, cd, hash, s, n, pc).value;
      && at in best && at.pc == pc && Gamma(best[at], s2, exact) && LP.Reaches(g, At(at), cs, w)
      && Run(c.prog, cd, hash, s, n).gas - Potential(s2) <= w + MemCost(best[at].msz)
    decreases n
  {
    hide Step, StepAdmissible, Run, Arrival, RunAdmissible, Setting, Gamma, Potential, MemCost, Arrives, LP.Succ, LP.Reaches;
    RunUnfolds(c, cd, hash, sites, exact, s, n);
    ArrivalUnfolds(c, cd, hash, sites, exact, s, n, pc);
    var s2 := Step(c.prog, cd, hash, s).s;
    var e, next := EdgeFollows(c, cd, hash, best, None, sites, exact, g, k, s);
    var to := LP.Succ(g, At(k))[e].0.k;
    if s2.pc == pc {
      StatePc(c, cd, best, sites, exact, g, to, s2);
      at := to;
      cs, w := RunFollows(c, cd, hash, best, sites, exact, g, to, s2, n - 1);
    } else {
      at, cs, w := TailFollows(c, cd, hash, best, pc, sites, exact, g, to, s2, n - 1);
    }
  }

  lemma StatePc(c: Context, cd: seq<byte>, best: Best, sites: set<nat>, exact: bool, g: LP.Graph<Node>, k: Key, s: State)
    requires Setting(c, cd, best, None, sites, exact, g) && k in best && Gamma(best[k], s, exact)
    ensures k.pc == s.pc
  {
    hide IsGraph, JoinsAgree, Instantiates, Recorded;
  }

  /** A walk from a state at `pc` is worth no more than the maximum over them. */
  lemma TailCovers(best: Best, pc: nat, g: LP.Graph<Node>, t: Tail, at: Key, cs: seq<nat>, w: int)
    requires IsTail(best, pc, g, t) && !t.Raises? && at in best && at.pc == pc && LP.Reaches(g, At(at), cs, w)
    ensures t.Longest? && t.v.Fin? && w <= t.v.v
  {
    assert at in KeysAt(best, pc);
    if t.Longest? {
      var u :| LP.IsLongest(g, At(at), u) && LP.NoMore(u, t.v);
      AtMostLongest(g, At(at), u, cs, w);
    }
  }

  /** What a run spends after `s2`, with `s2` in the state of `at`; the figure alone bounds it when no memory was joined in. */
  ghost predicate Spends(t: Tail, best: Best, at: Key, s2: State, gas: nat) {
    && at in best && t.Longest? && t.v.Fin? && Words(s2.mem) <= best[at].msz
    && gas - s2.gas <= t.v.v + MemCost(best[at].msz) - MemCost(Words(s2.mem))
    && (best[at].msz == Words(s2.mem) ==> gas - s2.gas <= t.v.v)
  }

  lemma TailSpends(t: Tail, best: Best, at: Key, s2: State, gas: nat, exact: bool, w: int)
    requires at in best && Gamma(best[at], s2, exact) && t.Longest? && t.v.Fin? && w <= t.v.v
    requires gas - Potential(s2) <= w + MemCost(best[at].msz)
    ensures Spends(t, best, at, s2, gas) && (exact ==> best[at].msz == Words(s2.mem))
  {
  }

  /**
   * From its first arrival at the stop point a successful run spends at most `afterStop`, plus the price of growing
   * memory from its size there to the size its state was joined to, which is nothing when the two are equal.
   */
  lemma TailBoundHolds(c: Context, cd: seq<byte>, hash: Hash, pc: nat, r: Result, g: LP.Graph<Node>, t: Tail, exact: bool,
                       n: nat)
    returns (at: Key)
    requires Certified(c, None, r) && JoinsAgree(c, r.best, None, exact) && Instantiates(c.cd, cd)
    requires IsGraph(c, r.best, None, g) && IsTail(r.best, pc, g, t) && !t.Raises?
    requires RunAdmissible(c, cd, hash, r.sites, exact, Initial, n)
    requires Run(c.prog, cd, hash, Initial, n).Done? && Arrival(c.prog, cd, hash, Initial, n, pc).Some?
    ensures var s2 := Arrival(c.prog, cd, hash, Initial, n, pc).value;
      && at.pc == pc && Spends(t, r.best, at, s2, Run(c.prog, cd, hash, Initial, n).gas)
      && (exact ==> r.best[at].msz == Words(s2.mem))
  {
    hide Run, Arrival, RunAdmissible, Spends, IsTail;
    StartCovered(c, cd, None, r, exact);
    var cs, w;
    at, cs, w := TailFollows(c, cd, hash, r.best, pc, r.sites, exact, g, KeyOf(Start), Initial, n);
    TailCovers(r.best, pc, g, t, at, cs, w);
    TailSpends(t, r.best, at, Arrival(c.prog, cd, hash, Initial, n, pc).value, Run(c.prog, cd, hash, Initial, n).gas, exact, w);
  }

  // ---- The two figures together -----------------------------------------------------------------------------------

  /**
   * Readable off the two analyses: no state at the stop point was joined to more memory than any successor has that the
   * stopped analysis counts as an arrival. Growth between the two is in neither figure.
   */
  ghost predicate SizesMeet(c: Context, whole: Best, stopped: Best, pc: nat) {
    forall at, head :: at in KeysAt(whole, pc) && Arrives(c, stopped, pc, head) ==> whole[at].msz <= head.msz
  }

  /** With both gas figures apart from memory, only the difference of the two sizes is left over. */
  lemma FiguresAdd(t: Tail, whole: Best, at: Key, s2: State, gas: nat, stop: int, head: nat)
    requires Spends(t, whole, at, s2, gas) && Potential(s2) <= stop - MemCost(head)
    ensures gas <= stop + t.v.v + MemCost(whole[at].msz) - MemCost(head)
  {
  }

  /**
   * With no memory joined into the entry, a run that passes the stop point spends at most `toStop`, `afterStop` and the
   * growth from the size of its arrival to the size its state there was joined to; the two figures alone when sizes meet.
   */
  lemma StopSumHolds(c: Context, cd: seq<byte>, hash: Hash, pc: nat, stopped: Result, whole: Result, g: LP.Graph<Node>,
                     t: Tail, exact: bool, n: nat) returns (at: Key, head: AState)
    requires Certified(c, Some(pc), stopped) && JoinsAgree(c, stopped.best, Some(pc), exact) && EntrySizeKept(stopped)
    requires Certified(c, None, whole) && JoinsAgree(c, whole.best, None, exact) && Instantiates(c.cd, cd)
    requires IsGraph(c, whole.best, None, g) && IsTail(whole.best, pc, g, t) && !t.Raises?
    requires RunAdmissible(c, cd, hash, stopped.sites, exact, Initial, n)
    requires RunAdmissible(c, cd, hash, whole.sites, exact, Initial, n)
    requires Run(c.prog, cd, hash, Initial, n).Done? && Arrival(c.prog, cd, hash, Initial, n, pc).Some?
    ensures stopped.value.Fin? && t.Longest? && t.v.Fin?
    ensures at in KeysAt(whole.best, pc) && Arrives(c, stopped.best, pc, head)
    ensures var sum := stopped.value.v + t.v.v;
      && Run(c.prog, cd, hash, Initial, n).gas <= sum + MemCost(whole.best[at].msz) - MemCost(head.msz)
      && (SizesMeet(c, whole.best, stopped.best, pc) ==> Run(c.prog, cd, hash, Initial, n).gas <= sum)
  {
    hide Run, Arrival, RunAdmissible, IsTail, JoinsAgree, Instantiates, IsGraph, Arrives, Gamma, Potential, MemCost;
    NoPrice();
    var s2 := Arrival(c.prog, cd, hash, Initial, n, pc).value;
    head := ArrivalBound(c, cd, hash, pc, stopped, exact, n);
    at := TailBoundHolds(c, cd, hash, pc, whole, g, t, exact, n);
    assert at in KeysAt(whole.best, pc);
    FiguresAdd(t, whole.best, at, s2, Run(c.prog, cd, hash, Initial, n).gas, stopped.value.v, head.msz);
    if SizesMeet(c, whole.best, stopped.best, pc) {
      MemCostMonotone(whole.best[at].msz, head.msz);
    }
  }
}
