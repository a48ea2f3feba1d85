/**
 * The same program measured to and from its second instruction: the memory the first visit grows after it lies in neither
 * figure, and the run spends more than their sum.
 */
module RejoinedStop {
  import opened Binary
  import opened Bytes
  import opened Evm
  import opened ConcreteOracle
  import opened ModuleBound
  import opened Simulation
  import opened GasBound
  import opened AfterStop
  import opened RejoinedProgram
  import opened RejoinedEntry
  import LP = LongestPath

  // ---- To the stop point --------------------------------------------------------------------------------------------

  const ENTRY: Key := KeyOf(Start)
  const ALONE: Best := map[ENTRY := Start]

  lemma EntrySteps()
    ensures AStep(C, Start) == Succs([To(Stage(FIRST, 1), 1)]) && Stage(FIRST, 1).pc == 1
  {
    hide AStep, Coherent;
    PassesCoherent();
    SharedKeys(0);
    StageSteps(FIRST, 0);
  }

  /** The worklist keeps the entry alone. */
  lemma StoppedFixed(limit: nat, fuel: nat)
    requires fuel > 0
    ensures Fixed(C, Start, Some(1), limit, fuel) == Some(ALONE)
  {
    hide AStep, Stage;
    EntrySteps();
    var list := [To(Stage(FIRST, 1), 1)];
    assert list[1..] == [] && [ENTRY][..0] == [];
    assert MergedOne(ALONE, [], list[0], Some(1), limit) == Went(ALONE, []);
    assert MergedAll(ALONE, [], list[1..], Some(1), limit) == Went(ALONE, []);
    assert Pass(C, ALONE, [ENTRY], Some(1), limit) == Went(ALONE, []);
    WorklistSteps(C, ALONE, [ENTRY], Some(1), limit, fuel);
    WorklistSteps(C, ALONE, [], Some(1), limit, fuel - 1);
  }

  lemma StoppedSuccs()
    ensures SuccsOf(C, ALONE, ENTRY) == [To(Stage(FIRST, 1), 1)]
    ensures Edges(ALONE, Some(1), SuccsOf(C, ALONE, ENTRY)) == [(Head, 1)] && TermOf(SuccsOf(C, ALONE, ENTRY)).None?
  {
    hide AStep, Stage;
    EntrySteps();
    assert [To(Stage(FIRST, 1), 1)][..0] == [];
  }

  /** One edge, to the marker. */
  lemma StoppedGraph(g: LP.Graph<Node>)
    requires IsGraph(C, ALONE, Some(1), g)
    ensures LP.Succ(g, At(ENTRY)) == [(Head, 1)] && LP.Succ(g, Head) == []
  {
    hide SuccsOf, Edges, TermOf;
    StoppedSuccs();
    assert ENTRY in ALONE;
  }

  lemma OneEdge(g: LP.Graph<Node>)
    requires LP.Succ(g, At(ENTRY)) == [(Head, 1)] && LP.Succ(g, Head) == [] && g.term == map[Head := 0]
    ensures !LP.ReachesCycle(g, At(ENTRY)) && LP.IsLongest(g, At(ENTRY), LP.Fin(1))
  {
    hide ENTRY;
    var live: set<Node> := {At(ENTRY), Head};
    var phi: map<Node, nat> := map[At(ENTRY) := 1, Head := 0];
    LP.PotentialBounds(g, live, phi, At(ENTRY));
    assert LP.Reaches(g, Head, [], 0);
    ExtendWalk(g, At(ENTRY), 0, [], 0);
    assert [0] + [] == [0];
  }

  lemma StoppedAnswer(g: LP.Graph<Node>, r: Result)
    requires IsGraph(C, ALONE, Some(1), g) && Answered(C, ALONE, Some(1), g, r)
    ensures r.Bound? && r.value == LP.Fin(1) && r.best == ALONE
  {
    hide IsGraph, SuccsOf, SitesBut, LP.IsLongest, LP.ReachesCycle, ALONE;
    StoppedGraph(g);
    var h := LP.Effective(g, Head, true);
    assert LP.Succ(h, At(ENTRY)) == LP.Succ(g, At(ENTRY)) && LP.Succ(h, Head) == LP.Succ(g, Head);
    OneEdge(h);
    LP.SameCycles(g, h, At(ENTRY));
    if r.Bound? {
      LP.SameLongest(h, At(ENTRY), r.value, LP.Fin(1));
    }
  }

  lemma StoppedIs(limit: nat, fuel: nat, r: Result)
    requires fuel > 0 && Returned(C, Some(1), limit, fuel, r)
    ensures r.Bound? && Certified(C, Some(1), r) && r.value == LP.Fin(1) && r.best == ALONE && r.sites == SitesBut(C, ALONE, {})
  {
    hide IsGraph, Answered, Fixed, Certified, ALONE, SitesBut;
    StoppedFixed(limit, fuel);
    var g :| IsGraph(C, ALONE, Some(1), g) && Answered(C, ALONE, Some(1), g, r);
    StoppedAnswer(g, r);
    StoppedSites(g, r);
    ReturnedCertifies(C, Some(1), limit, fuel, r);
  }

  lemma StoppedSites(g: LP.Graph<Node>, r: Result)
    requires Answered(C, ALONE, Some(1), g, r) && r.Bound?
    ensures r.sites == SitesBut(C, ALONE, {})
  {
    hide SitesBut, LP.IsLongest, LP.ReachesCycle, ALONE;
  }

  // ---- From the stop point ------------------------------------------------------------------------------------------

  /** The two states at the second instruction: of the joined visit, and of the third. */
  lemma KeysAtOne(k: Key)
    requires k in KeysAt(FINAL, 1)
    ensures k == PushedKey(15) || k == PushedKey(29)
  {
    hide PushedKey, Kept, EXIT;
    SameEnds();
    ExitKey();
    var n := FinalOnly(k);
    VisitOfPushed(n);
    IndexOfPc(n % 14, 1);
  }

  lemma JoinedAtOne()
    ensures PushedKey(15) in KeysAt(FINAL, 1) && FINAL[PushedKey(15)].msz == 6
  {
    hide Kept, KeyAt;
    FinalAt(15);
    KeyPc(SECOND, 1);
    JoinedSize();
  }

  lemma JoinedSize()
    ensures Pushed(15).msz == 6
  {
  }

  lemma LeftAtOne()
    ensures Left(15) == 91 && Left(29) == 45
  {
  }

  /** Every figure the search may return is at most 91, and it returns one. */
  lemma TailAtMost91(g: LP.Graph<Node>, t: Tail)
    requires IsGraph(C, FINAL, None, g) && IsTail(FINAL, 1, g, t)
    ensures t.Longest? && (t.v.Fin? ==> t.v.v <= 91)
  {
    hide IsGraph, FINAL, Kept, PushedKey, KeysAt, LP.ReachesCycle, LP.Reaches, Left;
    JoinedAtOne();
    LeftAtOne();
    AtMostWorth(g, 15);
    AtMostWorth(g, 29);
    if t.Raises? {
      var k :| k in KeysAt(FINAL, 1) && LP.ReachesCycle(g, At(k));
      KeysAtOne(k);
    }
    if t.Longest? {
      var k :| k in KeysAt(FINAL, 1) && LP.IsLongest(g, At(k), t.v);
      KeysAtOne(k);
    }
  }

  /** The run first arrives after its first instruction, with one gas spent and no memory. */
  lemma ArrivesAtOnce(hash: Hash, n: nat)
    requires n > 0
    ensures Arrival(C.prog, [], hash, Initial, n, 1) == Some(State(1, [], [], 1))
  {
    hide Step;
    FirstStep(hash);
  }

  lemma FirstStep(hash: Hash)
    ensures Step(C.prog, [], hash, Initial) == Next(State(1, [], [], 1))
  {
    EmptyLoadsZero();
    JumpDestGoes(hash, Initial, 1);
  }

  lemma {:induction false} FewerSites(hash: Hash, sites: set<nat>, s: State, n: nat)
    requires RunAdmissible(C, [], hash, {9}, false, s, n) && sites <= {9}
    ensures RunAdmissible(C, [], hash, sites, false, s, n)
    decreases n
  {
    hide Step;
    if n > 0 && Step(C.prog, [], hash, s).Next? {
      FewerSites(hash, sites, Step(C.prog, [], hash, s).s, n - 1);
    }
  }

  lemma NoSites()
    ensures SitesBut(C, ALONE, {}) == {}
  {
  }

  /** The one join of the stopped analysis is the entry with itself. */
  lemma StoppedJoins()
    ensures JoinsAgree(C, ALONE, Some(1), false) && ALONE[ENTRY].msz == 0
  {
    hide AStep, Stage;
    StoppedSuccs();
    EntrySteps();
    forall k | k in ALONE ensures k == ENTRY {
    }
  }

  /** What the sum of the two figures is claimed for, apart from the sizes. */
  ghost predicate Measured(hash: Hash, stopped: Result, whole: Result, n: nat) {
    && Certified(C, Some(1), stopped) && JoinsAgree(C, stopped.best, Some(1), false) && EntrySizeKept(stopped)
    && RunAdmissible(C, [], hash, stopped.sites, false, Initial, n) && Meets(hash, whole, n)
  }

  lemma StoppedMeets(hash: Hash, stopped: Result, whole: Result, n: nat)
    requires Certified(C, Some(1), stopped) && stopped.Bound? && stopped.best == ALONE && stopped.sites == SitesBut(C, ALONE, {})
    requires Meets(hash, whole, n) && whole.sites == {9}
    ensures Measured(hash, stopped, whole, n)
  {
    hide Certified, JoinsAgree, RunAdmissible, Instantiates, SitesBut, ALONE;
    NoSites();
    StoppedJoins();
    FewerSites(hash, {}, Initial, n);
    EntryAtOnce();
  }

  lemma EntryAtOnce()
    ensures ENTRY in ALONE && ALONE[ENTRY].msz == 0
  {
  }

  /** What the run spends after its arrival gives the figure its lower bound. */
  lemma TailAtLeast91(hash: Hash, r: Result, g: LP.Graph<Node>, t: Tail, n: nat)
    requires n >= 29 && Meets(hash, r, n) && r.best == FINAL && IsGraph(C, FINAL, None, g) && IsTail(FINAL, 1, g, t) && !t.Raises?
    requires Run(C.prog, [], hash, Initial, n) == Done(110, [])
    ensures t.Longest? && t.v.Fin? && t.v.v >= 91
  {
    hide C, FINAL, Kept, PushedKey, Certified, JoinsAgree, Instantiates, RunAdmissible, Run, Arrival, IsGraph, IsTail, KeysAt,
         MemCost;
    ArrivesAtOnce(hash, n);
    SixWords();
    NoPrice();
    var at := TailBoundHolds(C, [], hash, 1, r, g, t, false, n);
    AllSmall(at);
  }

  /** No final state was joined to more than six words. */
  lemma AllSmall(k: Key)
    requires k in FINAL
    ensures MemCost(FINAL[k].msz) <= MemCost(6)
  {
    hide Kept, PushedKey, EXIT;
    if k == EXIT {
      SuccsOfExit();
    } else {
      var n := FinalOnly(k);
      StageSize(VisitNo(n / 14), n % 14);
    }
    MemCostMonotone(FINAL[k].msz, 6);
  }

  lemma StageSize(p: Visit, i: nat)
    requires p in {FIRST, SECOND, THIRD} && i < 14
    ensures Stage(p, i).msz <= 6
  {
  }

  /** The joined visit has six words where the edge into the stop point has none. */
  lemma SizesDoNotMeet()
    ensures !SizesMeet(C, FINAL, ALONE, 1)
  {
    hide FINAL, KeysAt, PushedKey, AStep, Stage;
    JoinedAtOne();
    EntrySteps();
    var head := To(Stage(FIRST, 1), 1);
    FirstSize();
    assert ENTRY in ALONE && SuccsOf(C, ALONE, ENTRY)[0] == head;
    assert Arrives(C, ALONE, 1, head.s);
  }

  lemma FirstSize()
    ensures Stage(FIRST, 1).msz == 0
  {
  }

  /**
   * Measured at its second instruction the program has 1 to the stop point and 91 from it. Every hypothesis of the claim
   * about their sum holds but that on the sizes, and the run spends 110, 109 of them after its arrival: neither the figure
   * after the stop point nor the sum is a bound, and the growth to the joined six words is needed in full.
   */
  lemma StopSumIsShort(hash: Hash, limit: nat, fuel: nat, stopped: Result, whole: Result, g: LP.Graph<Node>, t: Tail, n: nat)
    requires limit >= 64 && fuel >= 64 && n >= 29
    requires Returned(C, Some(1), limit, fuel, stopped) && Returned(C, None, limit, fuel, whole) && whole.Bound?
    requires IsGraph(C, whole.best, None, g) && IsTail(whole.best, 1, g, t)
    ensures Measured(hash, stopped, whole, n) && !SizesMeet(C, whole.best, stopped.best, 1)
    ensures stopped.value == LP.Fin(1) && t == Longest(LP.Fin(91)) && 110 == 1 + 91 + MemCost(6)
    ensures PushedKey(15) in KeysAt(whole.best, 1) && whole.best[PushedKey(15)].msz == 6
    ensures Arrival(C.prog, [], hash, Initial, n, 1) == Some(State(1, [], [], 1))
    ensures Run(C.prog, [], hash, Initial, n) == Done(110, [])
  {
    hide C, FINAL, ALONE, Kept, PushedKey, KeysAt, IsGraph, IsTail, Meets, Run, Arrival, Certified, Answered, Returned, Measured, SizesMeet;
    var g' := ReturnedGraph(limit, fuel, whole);
    AnswerIs92(hash, g', whole);
    MeetsAll(hash, whole, n);
    StoppedIs(limit, fuel, stopped);
    StoppedMeets(hash, stopped, whole, n);
    SizesDoNotMeet();
    JoinedAtOne();
    SixWords();
    TailAtMost91(g, t);
    TailAtLeast91(hash, whole, g, t, n);
    ArrivesAtOnce(hash, n);
  }
}
