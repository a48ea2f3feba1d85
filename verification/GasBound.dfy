/**
 * The analysis as a whole: worklist fixpoint, state graph with prepaid memory, longest path, and its theorem:
 * no admissible concrete run spends more gas than the bound (`run` of pure_module_bound.py; `graph` and
 * `bound` of frame_bound.py for the variant that stops at a program counter).
 */
module GasBound {
  import opened Binary
  import opened Bytes
  import opened Evm
  import opened ConcreteOracle
  import opened ModuleBound
  import opened Simulation
  import LP = LongestPath

  /** A node of the state graph: a key, or the stop marker. */
  datatype Node = Head | At(k: Key)

  type Best = map<Key, AState>

  // ---- Phase 1: the fixpoint --------------------------------------------------------------------------------------

  predicate Stops(stop: Option<nat>, s: AState) {
    stop.Some? && s.pc == stop.value
  }

  /** A successor the graph must represent by the state of its key. */
  predicate Inner(stop: Option<nat>, succ: Succ) {
    succ.To? && !Stops(stop, succ.s)
  }

  /** The successor's key is present, and joining the successor into its state changes nothing but an untracked 0x40. */
  predicate Subsumed(best: Best, stop: Option<nat>, succ: Succ) {
    Inner(stop, succ) ==> KeyOf(succ.s) in best && Absorbs(best[KeyOf(succ.s)], succ.s)
  }

  ghost predicate FirstSubsumed(best: Best, stop: Option<nat>, list: seq<Succ>, n: nat)
    requires n <= |list|
  {
    forall j :: 0 <= j < n ==> Subsumed(best, stop, list[j])
  }

  ghost predicate ClosedAt(c: Context, best: Best, stop: Option<nat>, s: AState) {
    AStep(c, s).Succs? && FirstSubsumed(best, stop, AStep(c, s).list, |AStep(c, s).list|)
  }

  ghost predicate Keyed(best: Best) {
    forall k :: k in best ==> KeyOf(best[k]) == k
  }

  /** Every successor of every state is absorbed by the state of its own key. */
  ghost predicate Closed(c: Context, best: Best, stop: Option<nat>) {
    Keyed(best) && forall k :: k in best ==> ClosedAt(c, best, stop, best[k])
  }

  /** The state kept for `s` once `s` has been merged in. */
  function Merged(best: Best, s: AState): AState {
    if KeyOf(s) in best then Join(best[KeyOf(s)], s) else s
  }

  lemma MergedAbsorbs(best: Best, s: AState)
    requires Keyed(best)
    ensures KeyOf(Merged(best, s)) == KeyOf(s) && Absorbs(Merged(best, s), s)
    ensures Keyed(best[KeyOf(s) := Merged(best, s)])
  {
    if KeyOf(s) in best {
      JoinUpperBound(best[KeyOf(s)], s);
      JoinTwice(best[KeyOf(s)], s);
    } else {
      JoinSelf(s);
    }
  }

  /** States only move up, so what was absorbed stays absorbed. */
  lemma SubsumedStays(best: Best, s: AState, stop: Option<nat>, succ: Succ)
    requires Keyed(best) && Subsumed(best, stop, succ)
    ensures Subsumed(best[KeyOf(s) := Merged(best, s)], stop, succ)
  {
    if Inner(stop, succ) && KeyOf(succ.s) == KeyOf(s) {
      AbsorbsStays(best[KeyOf(s)], s, succ.s);
    }
  }

  lemma FirstSubsumedStays(best: Best, s: AState, stop: Option<nat>, list: seq<Succ>, n: nat)
    requires n <= |list| && Keyed(best) && FirstSubsumed(best, stop, list, n)
    ensures FirstSubsumed(best[KeyOf(s) := Merged(best, s)], stop, list, n)
  {
    forall j | 0 <= j < n ensures Subsumed(best[KeyOf(s) := Merged(best, s)], stop, list[j]) {
      SubsumedStays(best, s, stop, list[j]);
    }
  }

  /** Only keys on the worklist may have successors that are not yet absorbed. */
  ghost predicate Pending(c: Context, best: Best, stop: Option<nat>, work: seq<Key>) {
    forall k :: k in best ==> k in work || ClosedAt(c, best, stop, best[k])
  }

  /** Execution continues at the next instruction or at a JUMPDEST. */
  lemma SuccessorPc(c: Context, s: AState, j: nat)
    requires AStep(c, s).Succs? && j < |AStep(c, s).list| && AStep(c, s).list[j].To?
    ensures var pc := AStep(c, s).list[j].s.pc; pc in JumpDests(c.prog) || pc == c.prog.ops[s.pc].next
  {
  }

  /** The entry state can be entered again only when a JUMPDEST sits at its program counter. */
  ghost predicate EntryAlone(c: Context, start: AState) {
    start.pc == 0 && 0 !in JumpDests(c.prog) && ValidProgram(c.prog)
  }

  lemma EntryNotEntered(c: Context, start: AState, s: AState, j: nat)
    requires EntryAlone(c, start)
    requires AStep(c, s).Succs? && j < |AStep(c, s).list| && AStep(c, s).list[j].To?
    ensures KeyOf(AStep(c, s).list[j].s) != KeyOf(start)
  {
    SuccessorPc(c, s, j);
  }

  /** Merging one successor keeps the worklist invariant once its key is pushed. */
  lemma MergePending(c: Context, best: Best, stop: Option<nat>, work: seq<Key>, s: AState)
    requires Keyed(best) && Pending(c, best, stop, work)
    ensures Pending(c, best[KeyOf(s) := Merged(best, s)], stop, work + [KeyOf(s)])
  {
    var after := best[KeyOf(s) := Merged(best, s)];
    forall k | k in after && k !in work + [KeyOf(s)] ensures ClosedAt(c, after, stop, after[k]) {
      assert k in best && after[k] == best[k];
      FirstSubsumedStays(best, s, stop, AStep(c, best[k]).list, |AStep(c, best[k]).list|);
    }
  }

  /** The worklist names states that exist. */
  predicate Listed(best: Best, work: seq<Key>) {
    forall k :: k in work ==> k in best
  }

  /** The entry is present, absorbs `start`, and is `start` itself when nothing leads back to it. */
  ghost predicate EntryKept(c: Context, start: AState, best: Best) {
    && KeyOf(start) in best && Absorbs(best[KeyOf(start)], start)
    && (EntryAlone(c, start) ==> best[KeyOf(start)] == start)
  }

  /** What every pass of the worklist keeps. */
  ghost predicate WorkOk(c: Context, start: AState, stop: Option<nat>, best: Best, work: seq<Key>) {
    Keyed(best) && Pending(c, best, stop, work) && Listed(best, work) && EntryKept(c, start, best)
  }

  /** Half-way through the successors of `k`, which counts as on the worklist meanwhile. */
  ghost predicate Merging(c: Context, start: AState, stop: Option<nat>, k: Key, s: AState, best: Best, work: seq<Key>, j: nat) {
    && AStep(c, s).Succs? && j <= |AStep(c, s).list|
    && Keyed(best) && Pending(c, best, stop, work + [k]) && Listed(best, work) && EntryKept(c, start, best)
    && k in best && (best[k] == s || k in work)
    && FirstSubsumed(best, stop, AStep(c, s).list, j)
  }

  /** A successor that needs no state of its own, or whose join changes nothing, is already absorbed. */
  lemma MergingSkips(c: Context, start: AState, stop: Option<nat>, k: Key, s: AState, best: Best, work: seq<Key>, j: nat)
    requires Merging(c, start, stop, k, s, best, work, j) && j < |AStep(c, s).list|
    requires Unchanged(best, AStep(c, s).list[j], stop)
    ensures Merging(c, start, stop, k, s, best, work, j + 1)
  {
    assert Subsumed(best, stop, AStep(c, s).list[j]);
  }

  /** Pushing a key keeps the popped one counted as on the worklist. */
  lemma PendingReorders(c: Context, best: Best, stop: Option<nat>, work: seq<Key>, k: Key, pushed: Key)
    requires Pending(c, best, stop, work + [k] + [pushed])
    ensures Pending(c, best, stop, work + [pushed] + [k])
  {
    assert forall x :: x in work + [k] + [pushed] ==> x in work + [pushed] + [k];
  }

  lemma EntryStays(c: Context, start: AState, best: Best, s: AState, j: nat)
    requires Keyed(best) && EntryKept(c, start, best) && AStep(c, s).Succs? && j < |AStep(c, s).list| && AStep(c, s).list[j].To?
    ensures var n := AStep(c, s).list[j].s; EntryKept(c, start, best[KeyOf(n) := Merged(best, n)])
  {
    var n := AStep(c, s).list[j].s;
    if KeyOf(n) == KeyOf(start) {
      AbsorbsStays(best[KeyOf(n)], n, start);
    }
    if EntryAlone(c, start) {
      EntryNotEntered(c, start, s, j);
    }
  }

  lemma SubsumesNext(best: Best, s: AState, stop: Option<nat>, list: seq<Succ>, j: nat)
    requires j < |list| && Keyed(best) && FirstSubsumed(best, stop, list, j) && Inner(stop, list[j]) && list[j].s == s
    ensures FirstSubsumed(best[KeyOf(s) := Merged(best, s)], stop, list, j + 1)
  {
    FirstSubsumedStays(best, s, stop, list, j);
    MergedAbsorbs(best, s);
  }

  lemma MergingAdds(c: Context, start: AState, stop: Option<nat>, k: Key, s: AState, best: Best, work: seq<Key>, j: nat)
    requires Merging(c, start, stop, k, s, best, work, j) && j < |AStep(c, s).list|
    requires Inner(stop, AStep(c, s).list[j])
    ensures var n := AStep(c, s).list[j].s;
      Merging(c, start, stop, k, s, best[KeyOf(n) := Merged(best, n)], work + [KeyOf(n)], j + 1)
  {
    var n := AStep(c, s).list[j].s;
    MergedAbsorbs(best, n);
    MergePending(c, best, stop, work + [k], n);
    PendingReorders(c, best[KeyOf(n) := Merged(best, n)], stop, work, k, KeyOf(n));
    SubsumesNext(best, n, stop, AStep(c, s).list, j);
    EntryStays(c, start, best, s, j);
  }

  /** With all successors merged, `k` itself is closed or back on the worklist. */
  lemma MergingEnds(c: Context, start: AState, stop: Option<nat>, k: Key, s: AState, best: Best, work: seq<Key>)
    requires AStep(c, s).Succs? && Merging(c, start, stop, k, s, best, work, |AStep(c, s).list|)
    ensures WorkOk(c, start, stop, best, work)
  {
    forall x | x in best && x !in work ensures ClosedAt(c, best, stop, best[x]) {
      assert x != k ==> x !in work + [k];
    }
  }

  /** States and worklist so far; `Stuck` is an exception: an instruction cannot be followed, or a limit is hit. */
  datatype Progress = Stuck | Went(best: Best, work: seq<Key>)

  predicate Unchanged(best: Best, succ: Succ, stop: Option<nat>) {
    Inner(stop, succ) ==> KeyOf(succ.s) in best && Join(best[KeyOf(succ.s)], succ.s) == best[KeyOf(succ.s)]
  }

  /** One successor: merged in unless the join changes nothing; a changed key goes back on the worklist. */
  function MergedOne(best: Best, work: seq<Key>, succ: Succ, stop: Option<nat>, limit: nat): Progress {
    if Unchanged(best, succ, stop) then Went(best, work)
    else if KeyOf(succ.s) !in best && |best| >= limit then Stuck
    else Went(best[KeyOf(succ.s) := Merged(best, succ.s)], work + [KeyOf(succ.s)])
  }

  function MergedAll(best: Best, work: seq<Key>, list: seq<Succ>, stop: Option<nat>, limit: nat): (r: Progress)
    ensures r.Went? && Listed(best, work) ==> Listed(r.best, r.work)
    decreases |list|
  {
    if list == [] then Went(best, work)
    else match MergedOne(best, work, list[0], stop, limit)
         case Stuck => Stuck
         case Went(b, w) => MergedAll(b, w, list[1..], stop, limit)
  }

  lemma MergedAllSteps(best: Best, work: seq<Key>, list: seq<Succ>, j: nat, stop: Option<nat>, limit: nat)
    requires j < |list|
    ensures var one := MergedOne(best, work, list[j], stop, limit);
      MergedAll(best, work, list[j..], stop, limit)
      == if one.Stuck? then Stuck else MergedAll(one.best, one.work, list[j + 1..], stop, limit)
  {
    assert list[j..][1..] == list[j + 1..];
  }

  lemma MergingNext(c: Context, start: AState, stop: Option<nat>, k: Key, s: AState, best: Best, work: seq<Key>, j: nat,
                    limit: nat)
    requires Merging(c, start, stop, k, s, best, work, j) && j < |AStep(c, s).list|
    ensures var one := MergedOne(best, work, AStep(c, s).list[j], stop, limit);
      one.Went? ==> Merging(c, start, stop, k, s, one.best, one.work, j + 1)
  {
    if Unchanged(best, AStep(c, s).list[j], stop) {
      MergingSkips(c, start, stop, k, s, best, work, j);
    } else {
      MergingAdds(c, start, stop, k, s, best, work, j);
    }
  }

  lemma {:induction false} MergedAllKeeps(c: Context, start: AState, stop: Option<nat>, k: Key, s: AState, best: Best,
                                          work: seq<Key>, list: seq<Succ>, j: nat, limit: nat)
    requires AStep(c, s) == Succs(list) && j <= |list| && Merging(c, start, stop, k, s, best, work, j)
    ensures var r := MergedAll(best, work, list[j..], stop, limit);
      r.Went? ==> WorkOk(c, start, stop, r.best, r.work)
    decreases |list| - j
  {
    if j == |list| {
      MergingEnds(c, start, stop, k, s, best, work);
    } else {
      hide AStep, WorkOk, Merging, MergedOne;
      MergedAllSteps(best, work, list, j, stop, limit);
      MergingNext(c, start, stop, k, s, best, work, j, limit);
      var one := MergedOne(best, work, list[j], stop, limit);
      if one.Went? {
        MergedAllKeeps(c, start, stop, k, s, one.best, one.work, list, j + 1, limit);
      }
    }
  }

  /** Pops a state and merges its successors. */
  function Pass(c: Context, best: Best, work: seq<Key>, stop: Option<nat>, limit: nat): (r: Progress)
    requires Listed(best, work) && work != []
    ensures r.Went? ==> Listed(r.best, r.work)
  {
    match AStep(c, best[work[|work| - 1]])
    case Fails => Stuck
    case Succs(list) => MergedAll(best, work[..|work| - 1], list, stop, limit)
  }

  /** Processing one popped state keeps the worklist invariant. */
  lemma PassKeeps(c: Context, start: AState, stop: Option<nat>, best: Best, work: seq<Key>, limit: nat)
    requires WorkOk(c, start, stop, best, work) && work != []
    ensures var r := Pass(c, best, work, stop, limit);
      r.Went? ==> WorkOk(c, start, stop, r.best, r.work)
  {
    var k := work[|work| - 1];
    var rest := work[..|work| - 1];
    assert work == rest + [k];
    if AStep(c, best[k]).Succs? {
      assert Merging(c, start, stop, k, best[k], best, rest, 0);
      var list := AStep(c, best[k]).list;
      assert list[0..] == list;
      MergedAllKeeps(c, start, stop, k, best[k], best, rest, list, 0, limit);
    }
  }

  /** Popping states until the worklist is empty; `fuel` bounds the states popped. */
  function Worklist(c: Context, best: Best, work: seq<Key>, stop: Option<nat>, limit: nat, fuel: nat): Option<Best>
    requires Listed(best, work)
    decreases fuel
  {
    if work == [] then Some(best)
    else if fuel == 0 then None
    else match Pass(c, best, work, stop, limit)
         case Stuck => None
         case Went(b, w) => Worklist(c, b, w, stop, limit, fuel - 1)
  }

  lemma EmptyCloses(c: Context, start: AState, stop: Option<nat>, best: Best)
    requires WorkOk(c, start, stop, best, [])
    ensures Closed(c, best, stop) && EntryKept(c, start, best)
  {
  }

  lemma ListedOf(c: Context, start: AState, stop: Option<nat>, best: Best, work: seq<Key>)
    requires WorkOk(c, start, stop, best, work)
    ensures Listed(best, work)
  {
  }

  lemma WorklistSteps(c: Context, best: Best, work: seq<Key>, stop: Option<nat>, limit: nat, fuel: nat)
    requires Listed(best, work)
    ensures work == [] ==> Worklist(c, best, work, stop, limit, fuel) == Some(best)
    ensures work != [] && fuel == 0 ==> Worklist(c, best, work, stop, limit, fuel).None?
    ensures work != [] && fuel > 0 ==>
              var p := Pass(c, best, work, stop, limit);
              Worklist(c, best, work, stop, limit, fuel)
              == if p.Stuck? then None else Worklist(c, p.best, p.work, stop, limit, fuel - 1)
  {
    hide Pass;
  }

  /** An empty worklist leaves the states closed. */
  lemma {:induction false} WorklistCloses(c: Context, start: AState, stop: Option<nat>, best: Best, work: seq<Key>,
                                          limit: nat, fuel: nat)
    requires WorkOk(c, start, stop, best, work)
    ensures var r := Worklist(c, best, work, stop, limit, fuel);
      r.Some? ==> Closed(c, r.value, stop) && EntryKept(c, start, r.value)
    decreases fuel
  {
    hide Pass, WorkOk, Closed, EntryKept, Worklist, Listed;
    ListedOf(c, start, stop, best, work);
    WorklistSteps(c, best, work, stop, limit, fuel);
    if work == [] {
      EmptyCloses(c, start, stop, best);
    } else if fuel > 0 {
      PassKeeps(c, start, stop, best, work, limit);
      var p := Pass(c, best, work, stop, limit);
      if p.Went? {
        WorklistCloses(c, start, stop, p.best, p.work, limit, fuel - 1);
      }
    }
  }

  /** Phase 1 from the entry state on. */
  function Fixed(c: Context, start: AState, stop: Option<nat>, limit: nat, fuel: nat): Option<Best> {
    Worklist(c, map[KeyOf(start) := start], [KeyOf(start)], stop, limit, fuel)
  }

  lemma EntryWork(c: Context, start: AState, stop: Option<nat>)
    ensures WorkOk(c, start, stop, map[KeyOf(start) := start], [KeyOf(start)])
  {
    JoinSelf(start);
  }

  lemma FixedCloses(c: Context, start: AState, stop: Option<nat>, limit: nat, fuel: nat)
    ensures var r := Fixed(c, start, stop, limit, fuel);
      r.Some? ==> Closed(c, r.value, stop) && EntryKept(c, start, r.value)
  {
    EntryWork(c, start, stop);
    WorklistCloses(c, start, stop, map[KeyOf(start) := start], [KeyOf(start)], limit, fuel);
  }

  /** Processes the successors of one popped state. */
  method MergeAll(c: Context, best0: Best, work0: seq<Key>, k: Key, stop: Option<nat>, limit: nat)
    returns (ok: bool, best: Best, work: seq<Key>)
    requires Listed(best0, work0 + [k]) && k in best0
    ensures (if ok then Went(best, work) else Stuck) == Pass(c, best0, work0 + [k], stop, limit)
  {
    assert (work0 + [k])[..|work0|] == work0;
    best, work := best0, work0;
    var succs := AStep(c, best0[k]);
    if succs.Fails? {
      ok := false;
      return;
    }
    var list := succs.list;
    assert list[0..] == list;
    for j := 0 to |list|
      invariant Pass(c, best0, work0 + [k], stop, limit) == MergedAll(best, work, list[j..], stop, limit)
    {
      MergedAllSteps(best, work, list, j, stop, limit);
      if !Inner(stop, list[j]) {
        continue;
      }
      var nk := KeyOf(list[j].s);
      if nk in best {
        if Join(best[nk], list[j].s) == best[nk] {
          continue;
        }
        best := best[nk := Join(best[nk], list[j].s)];
      } else {
        if |best| >= limit {
          ok := false;
          return;
        }
        best := best[nk := list[j].s];
      }
      work := work + [nk];
    }
    ok := true;
  }

  /** The worklist loop. Running out of `fuel`, like any exception, claims nothing. */
  method Fixpoint(c: Context, start: AState, stop: Option<nat>, limit: nat, fuel: nat) returns (r: Option<Best>)
    ensures r == Fixed(c, start, stop, limit, fuel)
    ensures r.Some? ==> Closed(c, r.value, stop)
    ensures r.Some? ==> EntryKept(c, start, r.value)
  {
    hide Pass, Closed, EntryKept;
    var best: Best := map[KeyOf(start) := start];
    var work := [KeyOf(start)];
    var left := fuel;
    while |work| > 0
      invariant Listed(best, work)
      invariant Fixed(c, start, stop, limit, fuel) == Worklist(c, best, work, stop, limit, left)
      decreases left
    {
      if left == 0 {
        return None;
      }
      left := left - 1;
      var k := work[|work| - 1];
      assert work == work[..|work| - 1] + [k] && k in work;
      var ok;
      ok, best, work := MergeAll(c, best, work[..|work| - 1], k, stop, limit);
      if !ok {
        return None;
      }
    }
    r := Some(best);
    FixedCloses(c, start, stop, limit, fuel);
  }

  // ---- Phase 2: the state graph --------------------------------------------------------------------------------------

  /** An edge: step gas, and growth up to the memory size its target state was joined to, paid in advance. */
  function EdgeOf(best: Best, stop: Option<nat>, succ: Succ): (Node, int)
    requires succ.To? && (Inner(stop, succ) ==> KeyOf(succ.s) in best)
  {
    if Stops(stop, succ.s) then (Head, succ.g)
    else (At(KeyOf(succ.s)), succ.g + Max(0, MemCost(best[KeyOf(succ.s)].msz) - MemCost(succ.s.msz)))
  }

  ghost predicate Present(best: Best, stop: Option<nat>, list: seq<Succ>) {
    forall j :: 0 <= j < |list| && Inner(stop, list[j]) ==> KeyOf(list[j].s) in best
  }

  /** The edges of a successor list, in order; only ordinary successors have one. */
  function Edges(best: Best, stop: Option<nat>, list: seq<Succ>): seq<(Node, int)>
    requires Present(best, stop, list)
  {
    if list == [] then []
    else
      var rest := Edges(best, stop, list[..|list| - 1]);
      if list[|list| - 1].To? then rest + [EdgeOf(best, stop, list[|list| - 1])] else rest
  }

  /** The gas of ending here: the largest of the list's successful ends. */
  function TermOf(list: seq<Succ>): Option<int> {
    if list == [] then None
    else
      var rest := TermOf(list[..|list| - 1]);
      if list[|list| - 1].Ok? then Some(Max(if rest.Some? then rest.value else -1, list[|list| - 1].g)) else rest
  }

  function SuccsOf(c: Context, best: Best, k: Key): seq<Succ>
    requires k in best
  {
    var r := AStep(c, best[k]);
    if r.Succs? then r.list else []
  }

  ghost predicate IsGraph(c: Context, best: Best, stop: Option<nat>, g: LP.Graph<Node>) {
    && (forall n :: n in g.edges <==> n.At? && n.k in best)
    && (forall k :: k in best ==> Present(best, stop, SuccsOf(c, best, k)) &&
                                  g.edges[At(k)] == Edges(best, stop, SuccsOf(c, best, k)))
    && (forall n :: n in g.term <==> n.At? && n.k in best && TermOf(SuccsOf(c, best, n.k)).Some?)
    && (forall k :: k in best && TermOf(SuccsOf(c, best, k)).Some? ==>
          g.term[At(k)] == TermOf(SuccsOf(c, best, k)).value)
  }

  /** The program counters of states that use memory through an unknown address, as the analysis records them. */
  ghost predicate Recorded(c: Context, best: Best, sites: set<nat>) {
    forall k :: k in best && UnknownAddress(c, best[k]) ==> best[k].pc in sites
  }

  /** The sites of all states but those of the keys still to do. */
  ghost function SitesBut(c: Context, best: Best, todo: set<Key>): set<nat> {
    set k | k in best && k !in todo && UnknownAddress(c, best[k]) :: best[k].pc
  }

  ghost predicate GraphSoFar(c: Context, best: Best, stop: Option<nat>, todo: set<Key>, g: LP.Graph<Node>) {
    && (forall n :: n in g.edges <==> n.At? && n.k in best && n.k !in todo)
    && (forall k :: k in best && k !in todo ==> Present(best, stop, SuccsOf(c, best, k)) &&
                                                g.edges[At(k)] == Edges(best, stop, SuccsOf(c, best, k)))
    && (forall n :: n in g.term <==> n.At? && n.k in best && n.k !in todo && TermOf(SuccsOf(c, best, n.k)).Some?)
    && (forall k :: k in best && k !in todo && TermOf(SuccsOf(c, best, k)).Some? ==>
          g.term[At(k)] == TermOf(SuccsOf(c, best, k)).value)
  }

  lemma SitesGrow(c: Context, best: Best, todo: set<Key>, k: Key)
    requires k in todo && k in best
    ensures SitesBut(c, best, todo - {k})
         == if UnknownAddress(c, best[k]) then SitesBut(c, best, todo) + {best[k].pc} else SitesBut(c, best, todo)
  {
  }

  lemma SitesRecorded(c: Context, best: Best)
    ensures Recorded(c, best, SitesBut(c, best, {}))
    ensures SitesBut(c, best, best.Keys) == {}
  {
  }

  lemma ClosedPresent(c: Context, best: Best, stop: Option<nat>, k: Key)
    requires Closed(c, best, stop) && k in best
    ensures Present(best, stop, SuccsOf(c, best, k)) && AStep(c, best[k]) == Succs(SuccsOf(c, best, k))
  {
    assert ClosedAt(c, best, stop, best[k]);
    forall j | 0 <= j < |SuccsOf(c, best, k)| && Inner(stop, SuccsOf(c, best, k)[j])
      ensures KeyOf(SuccsOf(c, best, k)[j].s) in best
    {
      assert Subsumed(best, stop, SuccsOf(c, best, k)[j]);
    }
  }

  method BuildGraph(c: Context, best: Best, stop: Option<nat>) returns (g: LP.Graph<Node>, sites: set<nat>)
    requires Closed(c, best, stop)
    ensures IsGraph(c, best, stop, g) && Recorded(c, best, sites) && sites == SitesBut(c, best, {})
  {
    SitesRecorded(c, best);
    g, sites := LP.Graph(map[], map[]), {};
    var todo := best.Keys;
    while todo != {}
      invariant todo <= best.Keys && GraphSoFar(c, best, stop, todo, g)
      invariant sites == SitesBut(c, best, todo)
      decreases todo
    {
      var k :| k in todo;
      ClosedPresent(c, best, stop, k);
      var list := SuccsOf(c, best, k);
      var term := TermOf(list);
      GraphGrows(c, best, stop, todo, g, k);
      SitesGrow(c, best, todo, k);
      g := LP.Graph(g.edges[At(k) := Edges(best, stop, list)],
                    if term.Some? then g.term[At(k) := term.value] else g.term);
      if UnknownAddress(c, best[k]) {
        sites := sites + {best[k].pc};
      }
      todo := todo - {k};
    }
  }

  lemma GraphGrows(c: Context, best: Best, stop: Option<nat>, todo: set<Key>, g: LP.Graph<Node>, k: Key)
    requires GraphSoFar(c, best, stop, todo, g) && k in todo && todo <= best.Keys
    requires Present(best, stop, SuccsOf(c, best, k))
    ensures var list := SuccsOf(c, best, k);
      var g' := LP.Graph(g.edges[At(k) := Edges(best, stop, list)],
                         if TermOf(list).Some? then g.term[At(k) := TermOf(list).value] else g.term);
      GraphSoFar(c, best, stop, todo - {k}, g')
  {
  }

  lemma {:induction false} EdgeFound(best: Best, stop: Option<nat>, list: seq<Succ>, j: nat) returns (e: nat)
    requires Present(best, stop, list) && j < |list| && list[j].To?
    ensures e < |Edges(best, stop, list)| && Edges(best, stop, list)[e] == EdgeOf(best, stop, list[j])
  {
    var front := list[..|list| - 1];
    if j == |list| - 1 {
      e := |Edges(best, stop, front)|;
    } else {
      assert front[j] == list[j];
      e := EdgeFound(best, stop, front, j);
    }
  }

  lemma {:induction false} TermFound(list: seq<Succ>, j: nat)
    requires j < |list| && list[j].Ok?
    ensures TermOf(list).Some? && TermOf(list).value >= list[j].g
  {
    var front := list[..|list| - 1];
    if j < |list| - 1 {
      assert front[j] == list[j];
      TermFound(front, j);
    }
  }

  // ---- The analysis -----------------------------------------------------------------------------------------------------

  datatype Result =
    | Bound(value: LP.Ext, best: Best, sites: set<nat>)
    | NoClaim

  /** What the analysis established when it returned a value. */
  ghost predicate Certified(c: Context, stop: Option<nat>, r: Result) {
    && r.Bound? && Closed(c, r.best, stop) && Recorded(c, r.best, r.sites)
    && EntryKept(c, Start, r.best)
    && exists g :: IsGraph(c, r.best, stop, g) && LP.IsLongest(LP.Effective(g, Head, stop.Some?), At(KeyOf(Start)), r.value)
  }

  /** What the analysis returns: nothing without a fixpoint or with a reachable cycle, else the longest value. */
  ghost predicate Returned(c: Context, stop: Option<nat>, limit: nat, fuel: nat, r: Result) {
    match Fixed(c, Start, stop, limit, fuel)
    case None => r.NoClaim?
    case Some(best) => exists g :: IsGraph(c, best, stop, g) && Answered(c, best, stop, g, r)
  }

  ghost predicate Answered(c: Context, best: Best, stop: Option<nat>, g: LP.Graph<Node>, r: Result) {
    && (r.NoClaim? <==> LP.ReachesCycle(g, At(KeyOf(Start))))
    && (r.Bound? ==> r.best == best && r.sites == SitesBut(c, best, {})
                     && LP.IsLongest(LP.Effective(g, Head, stop.Some?), At(KeyOf(Start)), r.value))
  }

  lemma ReturnedCertifies(c: Context, stop: Option<nat>, limit: nat, fuel: nat, r: Result)
    requires Returned(c, stop, limit, fuel, r) && r.Bound?
    ensures Certified(c, stop, r)
  {
    FixedCloses(c, Start, stop, limit, fuel);
  }

  /**
   * The longest successful path, or with `stop` the longest path to the first arrival there. Raises when an
   * instruction cannot be followed, a limit is hit, or the state graph has a cycle.
   */
  method Analyse(c: Context, stop: Option<nat>, limit: nat, fuel: nat) returns (r: Result)
    ensures Returned(c, stop, limit, fuel, r)
    ensures r.Bound? ==> Certified(c, stop, r)
  {
    var fix := Fixpoint(c, Start, stop, limit, fuel);
    if fix.None? {
      return NoClaim;
    }
    var g, sites := BuildGraph(c, fix.value, stop);
    var longest := LP.Longest(g, At(KeyOf(Start)), Head, stop.Some?);
    r := if longest.Cycle? then NoClaim else Bound(longest.v, fix.value, sites);
    assert Answered(c, fix.value, stop, g, r);
    if r.Bound? {
      ReturnedCertifies(c, stop, limit, fuel, r);
    }
  }

  // ---- Soundness ----------------------------------------------------------------------------------------------------------

  /** M2, as a property of the final states: a known free-memory pointer was never joined with another one. */
  ghost predicate FmpAgrees(b: AState, a: AState) {
    Lookup(b.mem, b.hv, FMP).U? || Lookup(b.mem, b.hv, FMP) == Lookup(a.mem, a.hv, FMP)
  }

  ghost predicate JoinAgrees(b: AState, a: AState, exact: bool) {
    FmpAgrees(b, a) && (exact ==> b.msz == a.msz)
  }

  /** Every join kept the free-memory pointer, and with `exact` the memory size too. */
  ghost predicate JoinsAgree(c: Context, best: Best, stop: Option<nat>, exact: bool) {
    && KeyOf(Start) in best && JoinAgrees(best[KeyOf(Start)], Start, exact)
    && forall k :: k in best ==>
         forall j :: 0 <= j < |SuccsOf(c, best, k)| && Inner(stop, SuccsOf(c, best, k)[j]) &&
                     KeyOf(SuccsOf(c, best, k)[j].s) in best ==>
           JoinAgrees(best[KeyOf(SuccsOf(c, best, k)[j].s)], SuccsOf(c, best, k)[j].s, exact)
  }

  /** A state stands for at least what the states it covers stand for. */
  lemma CoversGamma(b: AState, a: AState, s: State, exact: bool)
    requires Covers(b, a) && JoinAgrees(b, a, exact) && Gamma(a, s, exact)
    ensures Gamma(b, s, exact)
  {
    forall x: nat | x % 32 == 0 ensures Matches(Lookup(b.mem, b.hv, x), WordAt(s.mem, x)) {
      assert ValCovers(x, Lookup(b.mem, b.hv, x), Lookup(a.mem, a.hv, x));
      assert Matches(Lookup(a.mem, a.hv, x), WordAt(s.mem, x));
    }
  }

  /** Every executed instruction meets the assumptions, for up to `n` instructions. */
  ghost predicate RunAdmissible(c: Context, cd: seq<byte>, hash: Hash, sites: set<nat>, exact: bool, s: State, n: nat)
    decreases n
  {
    n > 0 ==>
      StepAdmissible(c, cd, sites, exact, s) &&
      (Step(c.prog, cd, hash, s).Next? ==> RunAdmissible(c, cd, hash, sites, exact, Step(c.prog, cd, hash, s).s, n - 1))
  }

  /** The state reached when execution first arrives at `pc` within `n` instructions. */
  function Arrival(p: Program, cd: seq<byte>, hash: Hash, s: State, n: nat, pc: nat): Option<State>
    decreases n
  {
    if n == 0 then None
    else match Step(p, cd, hash, s)
         case Next(s') => if s'.pc == pc then Some(s') else Arrival(p, cd, hash, s', n - 1, pc)
         case _ => None
  }

  /** The analysis facts a run is measured against. */
  ghost predicate Setting(c: Context, cd: seq<byte>, best: Best, stop: Option<nat>, sites: set<nat>, exact: bool,
                          g: LP.Graph<Node>) {
    && Closed(c, best, stop) && Recorded(c, best, sites) && IsGraph(c, best, stop, g)
    && JoinsAgree(c, best, stop, exact) && Instantiates(c.cd, cd)
  }

  /** `head` is a successor at the stop point, as it was stepped to: no state was kept or joined for it. */
  ghost predicate Arrives(c: Context, best: Best, pc: nat, head: AState) {
    exists k, j :: k in best && 0 <= j < |SuccsOf(c, best, k)| && SuccsOf(c, best, k)[j].To?
      && SuccsOf(c, best, k)[j].s == head && head.pc == pc
  }

  /** An edge to the marker pays for the step alone; a prepaid edge to a joined state also for memory up to the joined size. */
  ghost predicate Pays(a: AState, s: State, s2: State, exact: bool, best: Best, stop: Option<nat>, to: AState, n: Node, w: int) {
    if Stops(stop, to) then
      n == Head && Gamma(to, s2, exact) && Potential(s2) - Potential(s) <= w - (MemCost(to.msz) - MemCost(a.msz))
    else
      && n.At? && n.k in best && Gamma(best[n.k], s2, exact)
      && Potential(s2) - Potential(s) <= w - (MemCost(best[n.k].msz) - MemCost(a.msz))
  }

  lemma EdgePays(a: AState, s: State, s2: State, exact: bool, best: Best, stop: Option<nat>, succ: Succ)
    requires succ.To? && StepCovers(a, succ.s, succ.g, s, s2, exact) && Subsumed(best, stop, succ) && Keyed(best)
    requires Inner(stop, succ) ==> JoinAgrees(best[KeyOf(succ.s)], succ.s, exact)
    ensures var (n, w) := EdgeOf(best, stop, succ); Pays(a, s, s2, exact, best, stop, succ.s, n, w)
  {
    if !Stops(stop, succ.s) {
      AbsorbsCovers(best[KeyOf(succ.s)], succ.s);
      CoversGamma(best[KeyOf(succ.s)], succ.s, s2, exact);
    }
  }

  /** An edge of the graph follows each concrete instruction, and pays for it and for memory up to its target. */
  lemma EdgeFollows(c: Context, cd: seq<byte>, hash: Hash, best: Best, stop: Option<nat>, sites: set<nat>, exact: bool,
                    g: LP.Graph<Node>, k: Key, s: State) returns (e: nat, to: AState)
    requires Setting(c, cd, best, stop, sites, exact, g)
    requires k in best && Gamma(best[k], s, exact) && StepAdmissible(c, cd, sites, exact, s)
    requires Step(c.prog, cd, hash, s).Next?
    ensures e < |LP.Succ(g, At(k))| && to.pc == Step(c.prog, cd, hash, s).s.pc && Arrives(c, best, to.pc, to)
    ensures var s2, (n, w) := Step(c.prog, cd, hash, s).s, LP.Succ(g, At(k))[e];
      Pays(best[k], s, s2, exact, best, stop, to, n, w)
  {
    ClosedPresent(c, best, stop, k);
    var list := SuccsOf(c, best, k);
    var s2 := Step(c.prog, cd, hash, s).s;
    var j := CoveringSuccessor(c, cd, hash, sites, best[k], s, exact, list, s2);
    assert Subsumed(best, stop, list[j]) by {
      assert ClosedAt(c, best, stop, best[k]);
    }
    EdgePays(best[k], s, s2, exact, best, stop, list[j]);
    e := EdgeFound(best, stop, list, j);
    to := list[j].s;
    assert LP.Succ(g, At(k)) == Edges(best, stop, list);
    assert SuccsOf(c, best, k)[j].s == to;
  }

  lemma CoveringSuccessor(c: Context, cd: seq<byte>, hash: Hash, sites: set<nat>, a: AState, s: State, exact: bool,
                          list: seq<Succ>, s2: State) returns (j: nat)
    requires Gamma(a, s, exact) && Instantiates(c.cd, cd) && StepAdmissible(c, cd, sites, exact, s)
    requires UnknownAddress(c, a) ==> a.pc in sites
    requires AStep(c, a) == Succs(list) && Step(c.prog, cd, hash, s) == Next(s2)
    ensures j < |list| && list[j].To? && StepCovers(a, list[j].s, list[j].g, s, s2, exact)
  {
    StepSimulated(c, cd, hash, sites, a, s, exact);
    j :| j < |list| && list[j].To? && StepCovers(a, list[j].s, list[j].g, s, s2, exact);
  }

  lemma ExtendWalk(g: LP.Graph<Node>, k: Node, e: nat, rest: seq<nat>, w: int)
    requires e < |LP.Succ(g, k)| && LP.Reaches(g, LP.Succ(g, k)[e].0, rest, w)
    ensures LP.Reaches(g, k, [e] + rest, w + LP.Succ(g, k)[e].1)
  {
    assert ([e] + rest)[1..] == rest;
  }

  /** A run that ends here is paid by the terminal of its state. */
  lemma DoneFollows(c: Context, cd: seq<byte>, hash: Hash, best: Best, sites: set<nat>, exact: bool, g: LP.Graph<Node>, k: Key,
                    s: State)
    requires Setting(c, cd, best, None, sites, exact, g) && k in best && Gamma(best[k], s, exact)
    requires StepAdmissible(c, cd, sites, exact, s) && Step(c.prog, cd, hash, s).Done?
    ensures At(k) in g.term && Step(c.prog, cd, hash, s).gas - Potential(s) <= g.term[At(k)] + MemCost(best[k].msz)
  {
    StepSimulated(c, cd, hash, sites, best[k], s, exact);
    ClosedPresent(c, best, None, k);
    var list := SuccsOf(c, best, k);
    var j: nat :| j < |list| && list[j].Ok?
      && Step(c.prog, cd, hash, s).gas - Potential(s) <= list[j].g + MemCost(best[k].msz);
    TermFound(list, j);
  }

  /** The first instruction of an admissible run that ends, and what it leaves. */
  lemma RunUnfolds(c: Context, cd: seq<byte>, hash: Hash, sites: set<nat>, exact: bool, s: State, n: nat)
    requires RunAdmissible(c, cd, hash, sites, exact, s, n) && Run(c.prog, cd, hash, s, n).Done?
    ensures n > 0 && StepAdmissible(c, cd, sites, exact, s)
    ensures var r := Step(c.prog, cd, hash, s);
      if r.Next? then RunAdmissible(c, cd, hash, sites, exact, r.s, n - 1)
                      && Run(c.prog, cd, hash, s, n) == Run(c.prog, cd, hash, r.s, n - 1)
      else r.Done? && Run(c.prog, cd, hash, s, n) == r
  {
    hide Step, StepAdmissible;
  }

  /** From any covered state, some walk to a terminal is worth at least the gas the run still spends. */
  lemma {:induction false} RunFollows(c: Context, cd: seq<byte>, hash: Hash, best: Best, sites: set<nat>, exact: bool,
                                      g: LP.Graph<Node>, k: Key, s: State, n: nat) returns (cs: seq<nat>, w: int)
    requires Setting(c, cd, best, None, sites, exact, g)
    requires k in best && Gamma(best[k], s, exact) && RunAdmissible(c, cd, hash, sites, exact, s, n)
    requires Run(c.prog, cd, hash, s, n).Done?
    ensures LP.Reaches(g, At(k), cs, w)
    ensures Run(c.prog, cd, hash, s, n).gas - Potential(s) <= w + MemCost(best[k].msz)
    decreases n
  {
    hide Step, StepAdmissible, Run, RunAdmissible, Setting, Gamma, Potential, MemCost, LP.Succ;
    RunUnfolds(c, cd, hash, sites, exact, s, n);
    var r := Step(c.prog, cd, hash, s);
    if r.Done? {
      DoneFollows(c, cd, hash, best, sites, exact, g, k, s);
      cs, w := StopWalk(g, At(k));
    } else {
      var e, next := EdgeFollows(c, cd, hash, best, None, sites, exact, g, k, s);
      var (to, d) := LP.Succ(g, At(k))[e];
      var rest, v := RunFollows(c, cd, hash, best, sites, exact, g, to.k, r.s, n - 1);
      ExtendWalk(g, At(k), e, rest, v);
      cs, w := [e] + rest, v + d;
    }
  }

  lemma StopWalk(g: LP.Graph<Node>, n: Node) returns (cs: seq<nat>, w: int)
    requires n in g.term
    ensures LP.Reaches(g, n, cs, w) && w == g.term[n]
  {
    cs, w := [], g.term[n];
  }

  /** The first instruction on the way to the stop point. */
  lemma ArrivalUnfolds(c: Context, cd: seq<byte>, hash: Hash, sites: set<nat>, exact: bool, s: State, n: nat, pc: nat)
    requires RunAdmissible(c, cd, hash, sites, exact, s, n) && Arrival(c.prog, cd, hash, s, n, pc).Some?
    ensures n > 0 && StepAdmissible(c, cd, sites, exact, s) && Step(c.prog, cd, hash, s).Next?
    ensures var s2 := Step(c.prog, cd, hash, s).s;
      && RunAdmissible(c, cd, hash, sites, exact, s2, n - 1)
      && Arrival(c.prog, cd, hash, s, n, pc) == if s2.pc == pc then Some(s2) else Arrival(c.prog, cd, hash, s2, n - 1, pc)
  {
    hide Step, StepAdmissible;
  }

  /**
   * From any covered state, some walk to the stop marker pays for what the run spends until it first arrives there, and for
   * memory up to the size of the state it arrives in.
   */
  lemma {:induction false} ArrivalFollows(c: Context, cd: seq<byte>, hash: Hash, best: Best, pc: nat, sites: set<nat>,
                                          exact: bool, g: LP.Graph<Node>, k: Key, s: State, n: nat)
    returns (cs: seq<nat>, w: int, head: AState)
    requires Setting(c, cd, best, Some(pc), sites, exact, g)
    requires k in best && Gamma(best[k], s, exact) && RunAdmissible(c, cd, hash, sites, exact, s, n)
    requires Arrival(c.prog, cd, hash, s, n, pc).Some?
    ensures LP.Reaches(LP.Effective(g, Head, true), At(k), cs, w) && Arrives(c, best, pc, head)
    ensures var s2 := Arrival(c.prog, cd, hash, s, n, pc).value;
      Gamma(head, s2, exact) && Potential(s2) - Potential(s) <= w - (MemCost(head.msz) - MemCost(best[k].msz))
    decreases n
  {
    hide Step, StepAdmissible, Arrival, RunAdmissible, Setting, Gamma, Potential, MemCost, Arrives;
    ArrivalUnfolds(c, cd, hash, sites, exact, s, n, pc);
    var eff := LP.Effective(g, Head, true);
    var s2 := Step(c.prog, cd, hash, s).s;
    var e, next := EdgeFollows(c, cd, hash, best, Some(pc), sites, exact, g, k, s);
    var (to, d) := LP.Succ(g, At(k))[e];
    assert LP.Succ(eff, At(k)) == LP.Succ(g, At(k));
    var rest, v := [], 0;
    if s2.pc == pc {
      head := next;
      rest, v := StopWalk(eff, Head);
    } else {
      rest, v, head := ArrivalFollows(c, cd, hash, best, pc, sites, exact, g, to.k, s2, n - 1);
    }
    ExtendWalk(eff, At(k), e, rest, v);
    cs, w := [e] + rest, v + d;
  }

  lemma StartCovered(c: Context, cd: seq<byte>, stop: Option<nat>, r: Result, exact: bool)
    requires Certified(c, stop, r) && JoinsAgree(c, r.best, stop, exact)
    ensures Gamma(r.best[KeyOf(Start)], Initial, exact)
  {
    assert Gamma(Start, Initial, exact);
    AbsorbsCovers(r.best[KeyOf(Start)], Start);
    CoversGamma(r.best[KeyOf(Start)], Start, Initial, exact);
  }

  /**
   * Main theorem. A successful admissible run spends at most the bound plus the price of the memory size the
   * entry state was joined to; the code prepays every joined size except that one.
   */
  lemma GasSoundness(c: Context, cd: seq<byte>, hash: Hash, r: Result, exact: bool, n: nat)
    requires Certified(c, None, r) && JoinsAgree(c, r.best, None, exact) && Instantiates(c.cd, cd)
    requires RunAdmissible(c, cd, hash, r.sites, exact, Initial, n)
    requires Run(c.prog, cd, hash, Initial, n).Done?
    ensures r.value.Fin?
    ensures Run(c.prog, cd, hash, Initial, n).gas <= r.value.v + MemCost(r.best[KeyOf(Start)].msz)
  {
    var g :| IsGraph(c, r.best, None, g) && LP.IsLongest(LP.Effective(g, Head, false), At(KeyOf(Start)), r.value);
    StartCovered(c, cd, None, r, exact);
    var cs, w := RunFollows(c, cd, hash, r.best, r.sites, exact, g, KeyOf(Start), Initial, n);
    NoTerminalHead(c, r.best, g);
    AtMostLongest(g, At(KeyOf(Start)), r.value, cs, w);
  }

  lemma NoTerminalHead(c: Context, best: Best, g: LP.Graph<Node>)
    requires IsGraph(c, best, None, g)
    ensures LP.Effective(g, Head, false) == g
  {
    assert g.term - {Head} == g.term;
  }

  lemma AtMostLongest(g: LP.Graph<Node>, n: Node, v: LP.Ext, cs: seq<nat>, w: int)
    requires LP.IsLongest(g, n, v) && LP.Reaches(g, n, cs, w)
    ensures v.Fin? && w <= v.v
  {
  }

  /** The condition of the bounds below, read off the final states: no memory was joined into the entry. */
  ghost predicate EntrySizeKept(r: Result) {
    r.Bound? && KeyOf(Start) in r.best && r.best[KeyOf(Start)].msz == 0
  }

  /** It holds of all code that starts with anything but a JUMPDEST, as compiled Solidity does. */
  lemma EntrySizeZero(c: Context, stop: Option<nat>, r: Result)
    requires Certified(c, stop, r) && EntryAlone(c, Start)
    ensures EntrySizeKept(r)
  {
    assert r.best[KeyOf(Start)] == Start;
  }

  lemma NoPrice()
    ensures MemCost(0) == 0
  {
  }

  /** With no memory joined into the entry, gas never exceeds the bound. */
  lemma GasBoundHolds(c: Context, cd: seq<byte>, hash: Hash, r: Result, exact: bool, n: nat)
    requires Certified(c, None, r) && JoinsAgree(c, r.best, None, exact) && Instantiates(c.cd, cd)
    requires EntrySizeKept(r)
    requires RunAdmissible(c, cd, hash, r.sites, exact, Initial, n)
    requires Run(c.prog, cd, hash, Initial, n).Done?
    ensures r.value.Fin? && Run(c.prog, cd, hash, Initial, n).gas <= r.value.v
  {
    NoPrice();
    GasSoundness(c, cd, hash, r, exact, n);
  }

  /** Gas at the stop point, apart from memory, is at most the bound less the price of the size the run arrives with. */
  lemma ArrivalBound(c: Context, cd: seq<byte>, hash: Hash, pc: nat, r: Result, exact: bool, n: nat) returns (head: AState)
    requires Certified(c, Some(pc), r) && JoinsAgree(c, r.best, Some(pc), exact) && Instantiates(c.cd, cd)
    requires RunAdmissible(c, cd, hash, r.sites, exact, Initial, n)
    requires Arrival(c.prog, cd, hash, Initial, n, pc).Some?
    ensures r.value.Fin? && Arrives(c, r.best, pc, head)
    ensures var s2 := Arrival(c.prog, cd, hash, Initial, n, pc).value;
      Gamma(head, s2, exact) && Potential(s2) <= r.value.v + MemCost(r.best[KeyOf(Start)].msz) - MemCost(head.msz)
  {
    hide Arrival, RunAdmissible, Arrives;
    var g :| IsGraph(c, r.best, Some(pc), g) && LP.IsLongest(LP.Effective(g, Head, true), At(KeyOf(Start)), r.value);
    StartCovered(c, cd, Some(pc), r, exact);
    var cs, w;
    cs, w, head := ArrivalFollows(c, cd, hash, r.best, pc, r.sites, exact, g, KeyOf(Start), Initial, n);
    AtMostLongest(LP.Effective(g, Head, true), At(KeyOf(Start)), r.value, cs, w);
    NoPrice();
  }

  /** The same for the gas spent when a run first arrives at the stop point. */
  lemma StopBoundHolds(c: Context, cd: seq<byte>, hash: Hash, pc: nat, r: Result, exact: bool, n: nat)
    requires Certified(c, Some(pc), r) && JoinsAgree(c, r.best, Some(pc), exact) && Instantiates(c.cd, cd)
    requires EntrySizeKept(r)
    requires RunAdmissible(c, cd, hash, r.sites, exact, Initial, n)
    requires Arrival(c.prog, cd, hash, Initial, n, pc).Some?
    ensures r.value.Fin? && Arrival(c.prog, cd, hash, Initial, n, pc).value.gas <= r.value.v
  {
    hide Arrival, RunAdmissible, Certified, JoinsAgree, Instantiates, Arrives;
    NoPrice();
    var head := ArrivalBound(c, cd, hash, pc, r, exact, n);
    MemCostMonotone(ConcreteOracle.Words(Arrival(c.prog, cd, hash, Initial, n, pc).value.mem), head.msz);
  }

  // ---- The hypotheses can be met -----------------------------------------------------------------------------------------------

  /** Without edges the only walk stays put. */
  lemma NoEdgesLongest(g: LP.Graph<Node>, n: Node)
    requires n in g.edges && g.edges[n] == [] && n in g.term
    ensures LP.IsLongest(g, n, LP.Fin(g.term[n]))
  {
    assert LP.Reaches(g, n, [], g.term[n]);
  }

  ghost predicate StopsAtOnce(c: Context) {
    ValidProgram(c.prog) && 0 in c.prog.ops && c.prog.ops[0].op.Stop?
  }

  const AtStart: Key := KeyOf(Start)
  const OnlyStart: Best := map[AtStart := Start]

  lemma StopSuccessors(c: Context)
    requires StopsAtOnce(c)
    ensures AStep(c, Start) == Succs([Ok(0, 0)]) && SuccsOf(c, OnlyStart, AtStart) == [Ok(0, 0)]
    ensures Edges(OnlyStart, None, [Ok(0, 0)]) == [] && TermOf([Ok(0, 0)]) == Some(0)
  {
    assert [Ok(0, 0)][..0] == [];
  }

  lemma StopGraph(c: Context) returns (g: LP.Graph<Node>)
    requires StopsAtOnce(c)
    ensures IsGraph(c, OnlyStart, None, g) && LP.IsLongest(LP.Effective(g, Head, false), At(AtStart), LP.Fin(0))
  {
    StopSuccessors(c);
    g := LP.Graph(map[At(AtStart) := []], map[At(AtStart) := 0]);
    NoEdgesLongest(LP.Effective(g, Head, false), At(AtStart));
  }

  lemma StopClosed(c: Context)
    requires StopsAtOnce(c)
    ensures Closed(c, OnlyStart, None) && Recorded(c, OnlyStart, {}) && JoinsAgree(c, OnlyStart, None, true)
  {
    StopSuccessors(c);
    assert ClosedAt(c, OnlyStart, None, Start);
  }

  lemma StopRuns(c: Context, cd: seq<byte>, hash: Hash)
    requires StopsAtOnce(c)
    ensures RunAdmissible(c, cd, hash, {}, true, Initial, 1) && Run(c.prog, cd, hash, Initial, 1) == Done(0, [])
  {
  }

  /** No calldata at all. */
  const NoCalldata: Calldata := Calldata(0, map[], 0)

  lemma NoCalldataInstantiates()
    ensures Instantiates(NoCalldata, [])
  {
    forall off: Word ensures LoadWord([], off) == 0 { FromZeros(Rd([], off, 32)); }
  }

  /** Code that stops at once, called without calldata, is analysed to a bound of zero and meets every hypothesis above. */
  lemma StopAtEntry(p: Program, hash: Hash)
    requires StopsAtOnce(Context(p, NoCalldata))
    ensures var c, r := Context(p, NoCalldata), Bound(LP.Fin(0), OnlyStart, {});
      && Certified(c, None, r) && JoinsAgree(c, r.best, None, true) && EntrySizeKept(r) && Instantiates(c.cd, [])
      && RunAdmissible(c, [], hash, r.sites, true, Initial, 1) && Run(p, [], hash, Initial, 1) == Done(0, [])
  {
    var c := Context(p, NoCalldata);
    NoCalldataInstantiates();
    StopClosed(c);
    StopRuns(c, [], hash);
    JoinSelf(Start);
    var g := StopGraph(c);
  }
}
