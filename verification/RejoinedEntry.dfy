/**
 * A program on which the memory size the entry state was joined to is spent on top of the bound. Its JUMPDEST at 0 is
 * jumped to with more memory than execution began with; the second visit stores at an unknown address, so the third
 * has other keys and the search finds no cycle.
 */
module RejoinedEntry {
  import opened Binary
  import opened Bytes
  import opened Evm
  import opened ConcreteOracle
  import opened ModuleBound
  import opened Simulation
  import opened GasBound
  import opened RejoinedProgram
  import LP = LongestPath

  // ---- What the worklist pushes -------------------------------------------------------------------------------------------

  function KeyAt(p: Visit, i: nat): Key
    requires i < 14
  {
    KeyOf(Stage(p, i))
  }

  const EXIT: Key := KeyOf(Out(SECOND))

  function VisitNo(v: nat): Visit { if v == 0 then FIRST else if v == 1 then SECOND else THIRD }

  /** The states in the order they are pushed, the exit apart; the fifteenth to seventeenth replace the first three. */
  function Pushed(n: nat): AState
    requires n < 42
  {
    Stage(VisitNo(n / 14), n % 14)
  }

  function PushedKey(n: nat): Key
    requires n < 42
  {
    KeyAt(VisitNo(n / 14), n % 14)
  }

  /** What is kept after `n` pushes; the exit comes with the first state of the third visit. */
  function Kept(n: nat): Best
    requires 1 <= n <= 42
  {
    if n == 1 then map[PushedKey(0) := Pushed(0)]
    else if n == 29 then Kept(28)[PushedKey(28) := Pushed(28)][EXIT := Out(SECOND)]
    else Kept(n - 1)[PushedKey(n - 1) := Pushed(n - 1)]
  }

  const FINAL: Best := Kept(42)

  /** Which visit a key belongs to; the first and the second share the keys before the load. */
  function VisitOf(k: Key): nat {
    if k.sig != [] && k.sig[0].None? then 2 else if k.hv then 3 else 1
  }

  lemma VisitOfKey(i: nat)
    requires i < 14
    ensures VisitOf(KeyAt(FIRST, i)) == 1 && VisitOf(KeyAt(THIRD, i)) == 3
    ensures VisitOf(KeyAt(SECOND, i)) == if i <= 2 then 1 else 2
  {
    assert FIRST.v == K(0) && FIRST.zero == K(1) && SECOND.v == U && SECOND.zero == U && THIRD.v == K(0x20) && THIRD.zero == K(0);
  }

  lemma KeyPc(p: Visit, i: nat)
    requires i < 14
    ensures KeyAt(p, i).pc == PCS[i] < 18
  {
  }

  lemma SharedKeys(i: nat)
    requires i <= 2
    ensures KeyAt(FIRST, i) == KeyAt(SECOND, i) && Stage(FIRST, 0) == Start
  {
  }

  lemma SameEnds()
    ensures Again(SECOND) == Stage(THIRD, 0) && Out(SECOND) == Out(THIRD)
    ensures KeyOf(Again(FIRST)) == KeyOf(Start) == KeyAt(FIRST, 0)
    ensures VisitOf(KeyOf(Out(SECOND))) == 3 && KeyOf(Out(SECOND)).pc == 18
  {
  }

  lemma IndexOfPc(i: nat, j: nat)
    requires i < 14 && j < 14 && PCS[i] == PCS[j]
    ensures i == j
  {
    assert forall k :: 0 <= k < 13 ==> PCS[k] < PCS[k + 1];
  }

  lemma VisitOfPushed(n: nat)
    requires n < 42
    ensures PushedKey(n).pc == PCS[n % 14] < 18
    ensures VisitOf(PushedKey(n)) == if n <= 16 then 1 else if n < 28 then 2 else 3
  {
    hide KeyAt, VisitOf, FIRST, SECOND, THIRD;
    KeyPc(VisitNo(n / 14), n % 14);
    VisitOfKey(n % 14);
  }

  /** No two pushed states share a key, but for those three. */
  lemma SameKey(m: nat, n: nat)
    requires m < n < 42 && PushedKey(m) == PushedKey(n)
    ensures m <= 2 && n == m + 14
  {
    hide PushedKey, VisitOf;
    VisitOfPushed(m);
    VisitOfPushed(n);
    IndexOfPc(m % 14, n % 14);
  }

  lemma PushedNotExit(n: nat)
    requires n < 42
    ensures PushedKey(n) != EXIT
  {
    hide PushedKey, VisitOf;
    VisitOfPushed(n);
    SameEnds();
  }

  lemma {:induction false} KeptOnly(n: nat, k: Key)
    requires 1 <= n <= 42 && k in Kept(n)
    ensures (n >= 29 && k == EXIT) || exists m :: 0 <= m < n && k == PushedKey(m)
  {
    if n > 1 && k != PushedKey(n - 1) && !(n == 29 && k == EXIT) {
      hide PushedKey, Pushed, EXIT;
      KeptOnly(n - 1, k);
    } else if k == PushedKey(n - 1) {
      assert 0 <= n - 1 < n;
    }
  }

  /** A pushed state is kept unless one of the three replaced it. */
  lemma {:induction false} KeptAt(n: nat, m: nat)
    requires m < n <= 42 && (m <= 2 ==> n <= m + 14)
    ensures PushedKey(m) in Kept(n) && Kept(n)[PushedKey(m)] == Pushed(m)
    decreases n
  {
    hide PushedKey, Pushed, EXIT;
    PushedNotExit(m);
    if m < n - 1 {
      KeptAt(n - 1, m);
      if PushedKey(m) == PushedKey(n - 1) {
        SameKey(m, n - 1);
      }
    }
  }

  lemma {:induction false} KeptExit(n: nat)
    requires 29 <= n <= 42
    ensures EXIT in Kept(n) && Kept(n)[EXIT] == Out(SECOND)
  {
    hide PushedKey, Pushed, EXIT;
    if n > 29 {
      PushedNotExit(n - 1);
      KeptExit(n - 1);
    }
  }

  lemma AddedSize(best: Best, k: Key, s: AState)
    ensures |best[k := s]| <= |best| + 1
  {
    assert best[k := s].Keys == best.Keys + {k};
  }

  lemma {:induction false} KeptSize(n: nat)
    requires 1 <= n <= 42
    ensures |Kept(n)| <= if n < 29 then n else n + 1
  {
    hide PushedKey, Pushed, EXIT;
    if n == 1 {
      assert Kept(1).Keys == {PushedKey(0)};
    } else {
      KeptSize(n - 1);
      AddedSize(Kept(n - 1), PushedKey(n - 1), Pushed(n - 1));
      if n == 29 {
        AddedSize(Kept(28)[PushedKey(28) := Pushed(28)], EXIT, Out(SECOND));
      }
    }
  }

  // ---- The worklist, push by push -----------------------------------------------------------------------------------------

  lemma JoinsUp()
    ensures Join(Start, Again(FIRST)) == Stage(SECOND, 0)
    ensures Join(Stage(FIRST, 1), Stage(SECOND, 1)) == Stage(SECOND, 1)
    ensures Join(Stage(FIRST, 2), Stage(SECOND, 2)) == Stage(SECOND, 2)
  {
    assert JoinMem(FIRST.m0, FIRST.m2) == SECOND.m0;
    assert JoinMem(FIRST.m0, SECOND.m0) == SECOND.m0;
    assert Join(Start, Again(FIRST)).stack == [];
    assert Join(Stage(FIRST, 1), Stage(SECOND, 1)).stack == [];
    assert Join(Stage(FIRST, 2), Stage(SECOND, 2)).stack == [K(0xa0)];
  }

  lemma RejoinedDiffers(i: nat)
    requires i <= 2
    ensures Stage(SECOND, i) != Stage(FIRST, i)
  {
    assert Stage(SECOND, i).msz == 6 && Stage(FIRST, i).msz == 0;
  }

  /** What a state steps to: the next one pushed, or at the first visit's end the entry with more memory. */
  function Stepped(n: nat): (AState, nat)
    requires 1 <= n < 42 && n != 28
  {
    if n == 14 then (Again(FIRST), 10) else (Pushed(n), Price(VisitNo(n / 14), n % 14 - 1))
  }

  lemma StepsTo(n: nat)
    requires 1 <= n < 42 && n != 28
    ensures var (s, g) := Stepped(n); AStep(C, Pushed(n - 1)) == Succs([To(s, g)]) && KeyOf(s) == PushedKey(n)
  {
    hide AStep, Stage, FIRST, SECOND, THIRD, Price, Coherent;
    PassesCoherent();
    if n == 14 {
      ZeroTests();
      JumpStage(FIRST);
      SameEnds();
      SharedKeys(0);
    } else {
      StageSteps(VisitNo(n / 14), n % 14 - 1);
    }
  }

  /** A push adds a new state, or joins one of the first three up to what replaces it. */
  lemma PushesNew(n: nat)
    requires 1 <= n < 42 && n != 28 && !(14 <= n <= 16)
    ensures PushedKey(n) !in Kept(n) && Stepped(n).0 == Pushed(n)
  {
    hide Kept, Pushed, PushedKey, EXIT;
    if PushedKey(n) in Kept(n) {
      PushedNotExit(n);
      KeptOnly(n, PushedKey(n));
      var m :| 0 <= m < n && PushedKey(n) == PushedKey(m);
      SameKey(m, n);
    }
  }

  lemma PushesAgain(n: nat)
    requires 14 <= n <= 16
    ensures PushedKey(n) in Kept(n) && Kept(n)[PushedKey(n)] == Stage(FIRST, n - 14) && Pushed(n) == Stage(SECOND, n - 14)
    ensures Join(Stage(FIRST, n - 14), Stepped(n).0) == Pushed(n) != Stage(FIRST, n - 14)
  {
    hide Join, Kept, Stage, KeyAt, FIRST, SECOND, THIRD, Price;
    JoinsUp();
    SharedKeys(n - 14);
    RejoinedDiffers(n - 14);
    KeptAt(n, n - 14);
  }

  lemma PushesNext(n: nat)
    requires 1 <= n < 42 && n != 28
    ensures var s := Stepped(n).0;
      Merged(Kept(n), s) == Pushed(n) && !(PushedKey(n) in Kept(n) && Join(Kept(n)[PushedKey(n)], s) == Kept(n)[PushedKey(n)])
  {
    hide Join, Kept, Pushed, PushedKey, Stepped;
    StepsTo(n);
    if 14 <= n <= 16 {
      PushesAgain(n);
    } else {
      PushesNew(n);
    }
  }

  lemma PopOne(best: Best, k: Key, s: AState, g: nat, limit: nat, fuel: nat)
    requires Listed(best, [k]) && AStep(C, best[k]) == Succs([To(s, g)])
    requires fuel > 0 && !Unchanged(best, To(s, g), None) && |best| < limit
    ensures Worklist(C, best, [k], None, limit, fuel)
         == Worklist(C, best[KeyOf(s) := Merged(best, s)], [KeyOf(s)], None, limit, fuel - 1)
  {
    hide AStep, Merged, Unchanged;
    var list, after := [To(s, g)], best[KeyOf(s) := Merged(best, s)];
    assert [k][..0] == [] && list[1..] == [] && [] + [KeyOf(s)] == [KeyOf(s)];
    assert MergedOne(best, [], list[0], None, limit) == Went(after, [KeyOf(s)]);
    assert MergedAll(after, [KeyOf(s)], list[1..], None, limit) == Went(after, [KeyOf(s)]);
  }

  lemma PopNext(n: nat, limit: nat, fuel: nat)
    requires 1 <= n < 42 && n != 28 && limit >= 64 && fuel > 0
    ensures Listed(Kept(n), [PushedKey(n - 1)]) && Listed(Kept(n + 1), [PushedKey(n)])
    ensures Worklist(C, Kept(n), [PushedKey(n - 1)], None, limit, fuel)
         == Worklist(C, Kept(n + 1), [PushedKey(n)], None, limit, fuel - 1)
  {
    hide Worklist, AStep, Merged, Join, PushedKey, Pushed, Stepped, EXIT;
    KeptAt(n, n - 1);
    KeptSize(n);
    StepsTo(n);
    PushesNext(n);
    var (s, g) := Stepped(n);
    PopOne(Kept(n), PushedKey(n - 1), s, g, limit, fuel);
  }

  /** Two new successors of one state. */
  lemma PopTwo(best: Best, k: Key, s: AState, t: AState, g: nat, limit: nat, fuel: nat)
    requires Listed(best, [k]) && AStep(C, best[k]) == Succs([To(s, g), To(t, g)]) && fuel > 0 && |best| + 2 <= limit
    requires KeyOf(s) !in best && KeyOf(t) !in best && KeyOf(s) != KeyOf(t)
    ensures Worklist(C, best, [k], None, limit, fuel)
         == Worklist(C, best[KeyOf(s) := s][KeyOf(t) := t], [KeyOf(s), KeyOf(t)], None, limit, fuel - 1)
  {
    hide AStep;
    var list := [To(s, g), To(t, g)];
    var one := best[KeyOf(s) := s];
    AddedSize(best, KeyOf(s), s);
    assert [k][..0] == [];
    assert [] + [KeyOf(s)] == [KeyOf(s)] && [KeyOf(s)] + [KeyOf(t)] == [KeyOf(s), KeyOf(t)];
    assert list[1..] == [To(t, g)] && list[1..][1..] == [];
    assert MergedOne(best, [], list[0], None, limit) == Went(one, [KeyOf(s)]);
    assert MergedOne(one, [KeyOf(s)], list[1], None, limit) == Went(one[KeyOf(t) := t], [KeyOf(s), KeyOf(t)]);
    assert MergedAll(one[KeyOf(t) := t], [KeyOf(s), KeyOf(t)], [], None, limit)
        == Went(one[KeyOf(t) := t], [KeyOf(s), KeyOf(t)]);
    assert MergedAll(one, [KeyOf(s)], list[1..], None, limit) == Went(one[KeyOf(t) := t], [KeyOf(s), KeyOf(t)]);
  }

  /** A state whose successors add nothing leaves the worklist. */
  lemma PopNothing(best: Best, work: seq<Key>, k: Key, succ: Succ, limit: nat, fuel: nat)
    requires Listed(best, work + [k]) && AStep(C, best[k]) == Succs([succ]) && fuel > 0 && Unchanged(best, succ, None)
    ensures Listed(best, work)
    ensures Worklist(C, best, work + [k], None, limit, fuel) == Worklist(C, best, work, None, limit, fuel - 1)
  {
    hide AStep, Unchanged;
    assert (work + [k])[..|work|] == work;
    assert [succ][1..] == [];
    assert MergedOne(best, work, [succ][0], None, limit) == Went(best, work);
    assert MergedAll(best, work, [succ][1..], None, limit) == Went(best, work);
  }

  lemma NewAtFork()
    ensures PushedKey(28) !in Kept(28) && EXIT !in Kept(28) && EXIT != PushedKey(28)
  {
    hide Kept, PushedKey, EXIT;
    PushedNotExit(28);
    if PushedKey(28) in Kept(28) {
      KeptOnly(28, PushedKey(28));
      var m :| 0 <= m < 28 && PushedKey(28) == PushedKey(m);
      SameKey(m, 28);
    }
    if EXIT in Kept(28) {
      KeptOnly(28, EXIT);
      var m :| 0 <= m < 28 && EXIT == PushedKey(m);
      PushedNotExit(m);
    }
  }

  lemma ForkSteps()
    ensures AStep(C, Pushed(27)) == Succs([To(Pushed(28), 10), To(Out(SECOND), 10)])
  {
    hide AStep, Stage;
    JumpStage(SECOND);
    SameEnds();
    ZeroTests();
  }

  /** The second visit's end goes both ways; the exit is popped first and adds nothing. */
  lemma PopFork(limit: nat, fuel: nat)
    requires limit >= 64 && fuel >= 2
    ensures Listed(Kept(28), [PushedKey(27)]) && Listed(Kept(29), [PushedKey(28)])
    ensures Worklist(C, Kept(28), [PushedKey(27)], None, limit, fuel) == Worklist(C, Kept(29), [PushedKey(28)], None, limit, fuel - 2)
  {
    hide Worklist, Listed, Kept, PushedKey, EXIT;
    ForkBoth(limit, fuel);
    PopExit(limit, fuel - 1);
  }

  lemma ForkBoth(limit: nat, fuel: nat)
    requires limit >= 64 && fuel > 0
    ensures Listed(Kept(28), [PushedKey(27)]) && Listed(Kept(29), [PushedKey(28), EXIT])
    ensures Worklist(C, Kept(28), [PushedKey(27)], None, limit, fuel)
         == Worklist(C, Kept(29), [PushedKey(28), EXIT], None, limit, fuel - 1)
  {
    hide Worklist, AStep, Pushed, PushedKey, EXIT, Out;
    KeptAt(28, 27);
    KeptSize(28);
    KeptAt(29, 28);
    KeptExit(29);
    NewAtFork();
    ForkSteps();
    ExitKey();
    PopTwo(Kept(28), PushedKey(27), Pushed(28), Out(SECOND), 10, limit, fuel);
  }

  lemma PopExit(limit: nat, fuel: nat)
    requires limit >= 64 && fuel > 0
    ensures Listed(Kept(29), [PushedKey(28), EXIT]) && Listed(Kept(29), [PushedKey(28)])
    ensures Worklist(C, Kept(29), [PushedKey(28), EXIT], None, limit, fuel) == Worklist(C, Kept(29), [PushedKey(28)], None, limit, fuel - 1)
  {
    hide Worklist, AStep, Kept, PushedKey, EXIT, Out;
    KeptAt(29, 28);
    KeptExit(29);
    OutStops(SECOND);
    assert [PushedKey(28)] + [EXIT] == [PushedKey(28), EXIT];
    PopNothing(Kept(29), [PushedKey(28)], EXIT, Ok(6, 0), limit, fuel);
  }

  lemma ExitKey()
    ensures KeyOf(Out(SECOND)) == EXIT && KeyOf(Pushed(28)) == PushedKey(28)
  {
  }

  lemma PopLast(limit: nat, fuel: nat)
    requires fuel > 0
    ensures Listed(FINAL, [PushedKey(41)])
    ensures Worklist(C, FINAL, [PushedKey(41)], None, limit, fuel) == Some(FINAL)
  {
    hide AStep, Kept, Pushed, PushedKey, Unchanged;
    KeptAt(42, 41);
    LastSteps();
    assert [] + [PushedKey(41)] == [PushedKey(41)];
    PopNothing(FINAL, [], PushedKey(41), To(Out(SECOND), 10), limit, fuel);
  }

  lemma LastSteps()
    ensures AStep(C, Pushed(41)) == Succs([To(Out(SECOND), 10)]) && Unchanged(FINAL, To(Out(SECOND), 10), None)
  {
    hide AStep, Kept, Stage;
    JumpStage(THIRD);
    SameEnds();
    ZeroTests();
    KeptExit(42);
    JoinSelf(Out(SECOND));
  }

  lemma {:induction false} PopsOut(n: nat, limit: nat, fuel: nat)
    requires 1 <= n <= 42 && limit >= 64 && fuel >= 46 - n + if n <= 28 then 1 else 0
    ensures Listed(Kept(n), [PushedKey(n - 1)])
    ensures Worklist(C, Kept(n), [PushedKey(n - 1)], None, limit, fuel) == Some(FINAL)
    decreases 42 - n
  {
    hide Worklist, Kept, PushedKey, Listed;
    if n == 42 {
      PopLast(limit, fuel);
    } else if n == 28 {
      PopFork(limit, fuel);
      PopsOut(29, limit, fuel - 2);
    } else {
      PopNext(n, limit, fuel);
      PopsOut(n + 1, limit, fuel - 1);
    }
  }

  /** The fixpoint of the program: its entry state was joined to six words of memory. */
  lemma FixedIs(limit: nat, fuel: nat)
    requires limit >= 64 && fuel >= 64
    ensures Fixed(C, Start, None, limit, fuel) == Some(FINAL)
  {
    hide Worklist, Kept;
    KeptStarts();
    PopsOut(1, limit, fuel);
  }

  lemma KeptStarts()
    ensures Kept(1) == map[KeyOf(Start) := Start] && PushedKey(0) == KeyOf(Start)
  {
    SharedKeys(0);
  }

  lemma ZeroTests()
    ensures FIRST.zero == K(1) && SECOND.zero == U && THIRD.zero == K(0)
    ensures FIRST.size == 0 && SECOND.size == 6 && THIRD.size == 6
    ensures FIRST != SECOND && FIRST != THIRD && SECOND != THIRD
  {
  }

  // ---- What the analysis makes of it ------------------------------------------------------------------------------

  lemma FinalAt(n: nat)
    requires 3 <= n < 42
    ensures PushedKey(n) in FINAL && FINAL[PushedKey(n)] == Pushed(n) && KeyOf(Pushed(n)) == PushedKey(n)
  {
    hide Kept;
    KeptAt(42, n);
  }

  /** Every final state is the exit or a pushed state that nothing replaced. */
  lemma FinalOnly(k: Key) returns (n: nat)
    requires k in FINAL && k != EXIT
    ensures 3 <= n < 42 && k == PushedKey(n) && FINAL[k] == Pushed(n)
  {
    hide Kept, KeyAt, Pushed, EXIT;
    KeptOnly(42, k);
    var m :| 0 <= m < 42 && k == PushedKey(m);
    n := m;
    if m <= 2 {
      SharedKeys(m);
      n := m + 14;
    }
    FinalAt(n);
  }

  lemma EntryIsPushed()
    ensures PushedKey(14) == KeyOf(Start)
  {
    SharedKeys(0);
  }

  /** The successors of a final state. */
  function Successors(n: nat): seq<Succ>
    requires 3 <= n < 42
  {
    if n == 27 then [To(Pushed(28), 10), To(Out(SECOND), 10)]
    else if n == 41 then [To(Out(SECOND), 10)]
    else [To(Stepped(n + 1).0, Stepped(n + 1).1)]
  }

  lemma SuccsAt(n: nat)
    requires 3 <= n < 42
    ensures PushedKey(n) in FINAL && SuccsOf(C, FINAL, PushedKey(n)) == Successors(n)
  {
    hide AStep, Kept, Pushed, PushedKey, Stepped, Out;
    FinalAt(n);
    if n == 27 {
      ForkSteps();
    } else if n == 41 {
      LastSteps();
    } else {
      StepsTo(n + 1);
    }
  }

  lemma SuccsOfExit()
    ensures EXIT in FINAL && FINAL[EXIT] == Out(SECOND) && SuccsOf(C, FINAL, EXIT) == [Ok(6, 0)]
  {
    hide AStep, Kept, Out, EXIT;
    KeptExit(42);
    OutStops(SECOND);
  }

  predicate ZeroPointer(s: AState) { Lookup(s.mem, s.hv, FMP) == K(0) }

  /** No state of the run has a free-memory pointer other than zero. */
  lemma VisitPointer(p: Visit, i: nat)
    requires p in {FIRST, SECOND, THIRD} && i < 14
    ensures ZeroPointer(Stage(p, i)) && ZeroPointer(Again(p)) && ZeroPointer(Out(p))
  {
  }

  lemma FinalPointer(k: Key)
    requires k in FINAL
    ensures ZeroPointer(FINAL[k])
    ensures forall j :: 0 <= j < |SuccsOf(C, FINAL, k)| && SuccsOf(C, FINAL, k)[j].To? ==> ZeroPointer(SuccsOf(C, FINAL, k)[j].s)
  {
    hide Kept, Stage, PushedKey, SuccsOf, EXIT, FIRST, SECOND, THIRD, ZeroPointer, Out, Again;
    VisitPointer(FIRST, 0);
    VisitPointer(SECOND, 0);
    VisitPointer(THIRD, 0);
    if k == EXIT {
      SuccsOfExit();
    } else {
      var n := FinalOnly(k);
      SuccsAt(n);
      VisitPointer(VisitNo(n / 14), n % 14);
      if n < 41 {
        VisitPointer(VisitNo((n + 1) / 14), (n + 1) % 14);
      }
    }
  }

  lemma PointersAgree()
    ensures JoinsAgree(C, FINAL, None, false)
  {
    hide Kept, SuccsOf, Pushed, PushedKey;
    EntryIsPushed();
    FinalAt(14);
    FinalPointer(KeyOf(Start));
    forall k, j | k in FINAL && 0 <= j < |SuccsOf(C, FINAL, k)| && Inner(None, SuccsOf(C, FINAL, k)[j]) &&
                  KeyOf(SuccsOf(C, FINAL, k)[j].s) in FINAL
      ensures JoinAgrees(FINAL[KeyOf(SuccsOf(C, FINAL, k)[j].s)], SuccsOf(C, FINAL, k)[j].s, false)
    {
      FinalPointer(KeyOf(SuccsOf(C, FINAL, k)[j].s));
      FinalPointer(k);
    }
  }

  lemma StageSite(p: Visit, i: nat)
    requires i < 14 && p in {FIRST, SECOND, THIRD}
    ensures UnknownAddress(C, Stage(p, i)) <==> p == SECOND && i == 7
    ensures !UnknownAddress(C, Out(SECOND))
  {
    assert FIRST.addr.K? && SECOND.addr.U? && THIRD.addr.K?;
  }

  lemma Sites()
    ensures SitesBut(C, FINAL, {}) == {9}
  {
    hide Kept, PushedKey, UnknownAddress, Stage, EXIT, FIRST, SECOND, THIRD;
    SuccsOfExit();
    FinalAt(21);
    StageSite(SECOND, 7);
    SiteStage();
    forall k | k in FINAL && UnknownAddress(C, FINAL[k]) ensures FINAL[k].pc == 9 {
      var n := FinalOnly(k);
      StageSite(VisitNo(n / 14), n % 14);
    }
    assert PushedKey(21) in FINAL && UnknownAddress(C, FINAL[PushedKey(21)]);
  }

  lemma SiteStage()
    ensures Stage(SECOND, 7).pc == 9
  {
  }

  // ---- A potential on the state graph -------------------------------------------------------------------------------------

  /** Gas from a state to the end of the second visit and on through the third. */
  function Worth(k: Key): nat {
    RestOf(k.pc) + if VisitOf(k) == 3 then 0 else 46
  }

  /** What can still be reached from the joined entry: not the first visit past its load. */
  predicate Lives(k: Key) { VisitOf(k) == 1 ==> k.pc <= 3 }

  const LIVE: set<Node> := set k | k in FINAL && Lives(k) :: At(k)
  const PHI: map<Node, nat> := map n | n in LIVE :: if n.At? then Worth(n.k) else 0

  function Left(n: nat): nat
    requires 14 <= n < 42
  {
    RestOf(PCS[n % 14]) + if n < 28 then 46 else 0
  }

  lemma LivesFrom(n: nat)
    requires 3 <= n < 42
    ensures Lives(PushedKey(n)) <==> n >= 14
    ensures n >= 14 ==> Worth(PushedKey(n)) == Left(n)
  {
    hide PushedKey, VisitOf;
    VisitOfPushed(n);
    assert n % 14 > 2 ==> PCS[n % 14] > 3;
    assert n % 14 <= 2 ==> PCS[n % 14] <= 3;
  }

  lemma ExitLives()
    ensures Lives(EXIT) && Worth(EXIT) == 0
  {
    SameEnds();
  }

  lemma PricePaid(n: nat)
    requires 14 < n < 42 && n != 28
    ensures var (s, g) := Stepped(n);
      s == Pushed(n) && g > 0 && Left(n) + g == Left(n - 1)
  {
    hide Pushed, FIRST, SECOND, THIRD;
    ZeroTests();
    assert n % 14 == 3 ==> Price(VisitNo(n / 14), 2) == 3;
  }

  lemma EdgesSnoc(best: Best, list: seq<Succ>, s: AState, g: nat)
    requires Present(best, None, list) && KeyOf(s) in best && best[KeyOf(s)] == s
    ensures Present(best, None, list + [To(s, g)])
    ensures Edges(best, None, list + [To(s, g)]) == Edges(best, None, list) + [(At(KeyOf(s)), g)]
    ensures TermOf(list + [To(s, g)]) == TermOf(list)
  {
    assert (list + [To(s, g)])[..|list|] == list;
    assert EdgeOf(best, None, To(s, g)) == (At(KeyOf(s)), g);
  }

  /** An edge to a state that is its key's final state costs what the step costs. */
  lemma EdgesOne(s: AState, g: nat)
    requires KeyOf(s) in FINAL && FINAL[KeyOf(s)] == s
    ensures Present(FINAL, None, [To(s, g)]) && Edges(FINAL, None, [To(s, g)]) == [(At(KeyOf(s)), g)]
    ensures TermOf([To(s, g)]).None?
  {
    hide Kept, KeyOf, EdgeOf;
    assert [] + [To(s, g)] == [To(s, g)];
    EdgesSnoc(FINAL, [], s, g);
  }

  lemma EdgesTwo(s: AState, t: AState, g: nat)
    requires KeyOf(s) in FINAL && FINAL[KeyOf(s)] == s && KeyOf(t) in FINAL && FINAL[KeyOf(t)] == t
    ensures Present(FINAL, None, [To(s, g), To(t, g)])
    ensures Edges(FINAL, None, [To(s, g), To(t, g)]) == [(At(KeyOf(s)), g), (At(KeyOf(t)), g)]
    ensures TermOf([To(s, g), To(t, g)]).None?
  {
    hide Kept, KeyOf, EdgeOf, Edges, TermOf;
    EdgesOne(s, g);
    assert [To(s, g)] + [To(t, g)] == [To(s, g), To(t, g)];
    EdgesSnoc(FINAL, [To(s, g)], t, g);
  }

  ghost predicate Falls(g: LP.Graph<Node>, n: Node) {
    && n in LIVE && n in PHI && (n in g.term ==> g.term[n] <= PHI[n])
    && forall i :: 0 <= i < |LP.Succ(g, n)| ==>
         && LP.Succ(g, n)[i].0 in LIVE && LP.Succ(g, n)[i].0 in PHI
         && 0 < LP.Succ(g, n)[i].1 && PHI[LP.Succ(g, n)[i].0] + LP.Succ(g, n)[i].1 <= PHI[n]
  }

  lemma InLive(k: Key)
    requires k in FINAL && Lives(k)
    ensures At(k) in LIVE && At(k) in PHI && PHI[At(k)] == Worth(k)
  {
    hide Kept;
  }

  lemma GraphAt(g: LP.Graph<Node>, k: Key)
    requires IsGraph(C, FINAL, None, g) && k in FINAL
    ensures Present(FINAL, None, SuccsOf(C, FINAL, k))
    ensures LP.Succ(g, At(k)) == Edges(FINAL, None, SuccsOf(C, FINAL, k))
    ensures At(k) in g.term <==> TermOf(SuccsOf(C, FINAL, k)).Some?
    ensures At(k) in g.term ==> g.term[At(k)] == TermOf(SuccsOf(C, FINAL, k)).value
  {
    hide Kept, SuccsOf;
  }

  lemma PushedLives(n: nat)
    requires 14 <= n < 42
    ensures At(PushedKey(n)) in LIVE && At(PushedKey(n)) in PHI
    ensures PHI[At(PushedKey(n))] == Left(n)
  {
    hide Kept, PushedKey, Lives, Worth, Left;
    FinalAt(n);
    LivesFrom(n);
    InLive(PushedKey(n));
  }

  lemma ExitInLive()
    ensures EXIT in FINAL && FINAL[EXIT] == Out(SECOND) && KeyOf(Out(SECOND)) == EXIT
    ensures At(EXIT) in LIVE && At(EXIT) in PHI && PHI[At(EXIT)] == 0
  {
    hide Kept, Lives, Worth;
    SuccsOfExit();
    ExitLives();
    InLive(EXIT);
  }

  lemma FallsInside(g: LP.Graph<Node>, n: nat)
    requires IsGraph(C, FINAL, None, g) && 14 <= n < 41 && n != 27
    ensures Falls(g, At(PushedKey(n)))
  {
    hide Kept, PushedKey, Pushed, LIVE, PHI, SuccsOf, Stepped, Left, Edges, TermOf, IsGraph;
    SuccsAt(n);
    FinalAt(n + 1);
    GraphAt(g, PushedKey(n));
    PushedLives(n);
    PushedLives(n + 1);
    PricePaid(n + 1);
    EdgesOne(Pushed(n + 1), Stepped(n + 1).1);
  }

  lemma FallsAtJumps(g: LP.Graph<Node>, n: nat)
    requires IsGraph(C, FINAL, None, g) && n in {27, 41}
    ensures Falls(g, At(PushedKey(n)))
  {
    hide Kept, PushedKey, Pushed, LIVE, PHI, SuccsOf, Edges, TermOf, IsGraph, Out, EXIT;
    SuccsAt(n);
    GraphAt(g, PushedKey(n));
    PushedLives(n);
    ExitInLive();
    if n == 27 {
      FinalAt(28);
      PushedLives(28);
      EdgesTwo(Pushed(28), Out(SECOND), 10);
    } else {
      EdgesOne(Out(SECOND), 10);
    }
  }

  lemma FallsAtExit(g: LP.Graph<Node>)
    requires IsGraph(C, FINAL, None, g)
    ensures Falls(g, At(EXIT))
  {
    hide Kept, LIVE, PHI, SuccsOf, IsGraph, EXIT;
    SuccsOfExit();
    ExitInLive();
    GraphAt(g, EXIT);
    assert [Ok(6, 0)][..0] == [];
    assert Edges(FINAL, None, [Ok(6, 0)]) == [] && TermOf([Ok(6, 0)]) == Some(0);
  }

  lemma FallsAtKey(g: LP.Graph<Node>, k: Key)
    requires IsGraph(C, FINAL, None, g) && k in FINAL && Lives(k)
    ensures Falls(g, At(k))
  {
    hide Kept, Lives, Falls, PushedKey, IsGraph, EXIT;
    if k == EXIT {
      FallsAtExit(g);
    } else {
      var n := FinalOnly(k);
      LivesFrom(n);
      if n == 27 || n == 41 {
        FallsAtJumps(g, n);
      } else {
        FallsInside(g, n);
      }
    }
  }

  lemma FallsEverywhere(g: LP.Graph<Node>)
    requires IsGraph(C, FINAL, None, g)
    ensures forall n :: n in LIVE ==> Falls(g, n)
  {
    hide IsGraph, Kept, Lives, Falls;
    forall n | n in LIVE ensures Falls(g, n) {
      FallsAtKey(g, n.k);
    }
  }

  lemma GasFalls(g: LP.Graph<Node>)
    requires IsGraph(C, FINAL, None, g)
    ensures LP.Potential(g, LIVE, PHI)
  {
    hide IsGraph, LIVE, PHI;
    FallsEverywhere(g);
  }

  /** No cycle is reachable from a live state, and no path from it is worth more than its potential. */
  lemma AtMostWorth(g: LP.Graph<Node>, n: nat)
    requires IsGraph(C, FINAL, None, g) && 14 <= n < 42
    ensures !LP.ReachesCycle(g, At(PushedKey(n)))
    ensures forall cs: seq<nat>, w :: LP.Reaches(g, At(PushedKey(n)), cs, w) ==> w <= Left(n)
  {
    hide IsGraph, LIVE, PHI, PushedKey, LP.Potential, LP.ReachesCycle, LP.Reaches, Left;
    GasFalls(g);
    PushedLives(n);
    LP.PotentialBounds(g, LIVE, PHI, At(PushedKey(n)));
  }

  // ---- Bound and run together -------------------------------------------------------------------------------------

  lemma EntrySize()
    ensures KeyOf(Start) in FINAL && FINAL[KeyOf(Start)].msz == 6
  {
    hide Kept, PushedKey;
    EntryIsPushed();
    FinalAt(14);
  }

  /** What the soundness theorem asks for, apart from the condition of its corollary. */
  ghost predicate Meets(hash: Hash, r: Result, n: nat) {
    && Certified(C, None, r) && JoinsAgree(C, r.best, None, false) && Instantiates(C.cd, [])
    && RunAdmissible(C, [], hash, r.sites, false, Initial, n)
  }

  lemma MeetsAll(hash: Hash, r: Result, n: nat)
    requires n >= 29 && Certified(C, None, r) && r.best == FINAL && r.sites == {9}
    ensures Meets(hash, r, n) && Run(C.prog, [], hash, Initial, n) == Done(110, [])
  {
    hide Kept, JoinsAgree, Instantiates, RunAdmissible, Run, Certified;
    PointersAgree();
    NoCalldataInstantiates();
    RunEnds(hash, n);
  }

  lemma SixWords()
    ensures MemCost(6) == 18
  {
  }

  lemma AtLeast92(hash: Hash, r: Result, n: nat)
    requires n >= 29 && Certified(C, None, r) && r.best == FINAL && r.sites == {9}
    ensures r.value.Fin? && r.value.v >= 92
  {
    hide C, Kept, JoinsAgree, Instantiates, RunAdmissible, Run, Certified, MemCost, KeyOf;
    MeetsAll(hash, r, n);
    EntrySize();
    SixWords();
    GasSoundness(C, [], hash, r, false, n);
  }

  lemma AnswerIs92(hash: Hash, g: LP.Graph<Node>, r: Result)
    requires IsGraph(C, FINAL, None, g) && Answered(C, FINAL, None, g, r) && (r.Bound? ==> Certified(C, None, r))
    ensures r == Bound(LP.Fin(92), FINAL, {9})
  {
    hide C, Kept, IsGraph, Certified, LP.ReachesCycle, LP.Reaches, SitesBut, LP.Effective, PushedKey;
    AtMostWorth(g, 14);
    EntryIsPushed();
    Sites();
    NoTerminalHead(C, FINAL, g);
    AtLeast92(hash, r, 29);
  }

  /**
   * The analysis of this program returns the bound 92 and records site 9, every hypothesis of the soundness theorem
   * holds of it and of a run without calldata, and that run spends 110: the bound plus the price of the six words the
   * entry state was joined to. So the price in the theorem is needed, and is met exactly.
   */
  lemma EntrySizeIsSpent(hash: Hash, limit: nat, fuel: nat, r: Result, n: nat)
    requires limit >= 64 && fuel >= 64 && n >= 29 && Returned(C, None, limit, fuel, r)
    ensures C == Context(Program(CODE, DecodeFrom(CODE, 0, map[])), NoCalldata)
    ensures Meets(hash, r, n) && Run(C.prog, [], hash, Initial, n) == Done(110, [])
    ensures r.value == LP.Fin(92) && r.sites == {9} && r.best[KeyOf(Start)].msz == 6 && 110 == 92 + MemCost(6)
  {
    hide Kept, C, P, IsGraph, Meets, Run, Certified, Answered, MemCost, KeyOf, Returned;
    Decodes();
    EntrySize();
    SixWords();
    var g := ReturnedGraph(limit, fuel, r);
    AnswerIs92(hash, g, r);
    MeetsAll(hash, r, n);
  }

  lemma ReturnedGraph(limit: nat, fuel: nat, r: Result) returns (g: LP.Graph<Node>)
    requires limit >= 64 && fuel >= 64 && Returned(C, None, limit, fuel, r)
    ensures IsGraph(C, FINAL, None, g) && Answered(C, FINAL, None, g, r) && (r.Bound? ==> Certified(C, None, r))
  {
    hide Kept, C, IsGraph, Answered, Fixed, Certified;
    FixedIs(limit, fuel);
    g :| IsGraph(C, FINAL, None, g) && Answered(C, FINAL, None, g, r);
    if r.Bound? {
      ReturnedCertifies(C, None, limit, fuel, r);
    }
  }
}
