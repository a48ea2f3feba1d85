/**
 * When a bet may be voided, and which settlements the monitor reports (config-drift-monitor.py): the closed form against
 * the contract's rule, and one pass over a scan against one log at a time.
 */
module VoidEligibility {
  import opened Binary
  import opened VoidOrder

  const VOID_DELAY: nat := 86_400
  const PUBLIC_VOID_DELAY: nat := 604_800
  const DELAYS: Parameters := Parameters(VOID_DELAY, PUBLIC_VOID_DELAY)

  datatype Position = Position(block: int, logIndex: int)

  predicate Before(a: Position, b: Position) {
    a.block < b.block || (a.block == b.block && a.logIndex < b.logIndex)
  }

  /** Places in the chain are totally ordered, by block and then by log. */
  lemma PositionsOrdered(a: Position, b: Position, c: Position)
    ensures Before(a, b) || a == b || Before(b, a)
    ensures Before(a, b) ==> a != b && !Before(b, a)
    ensures Before(a, b) && Before(b, c) ==> Before(a, c)
    ensures a.block < b.block ==> Before(a, b)
    ensures a.block == b.block ==> (Before(a, b) <==> a.logIndex < b.logIndex)
  {
  }

  /** A void window: its cohort end is its opening time. None is a window read from the state at arming. */
  datatype Window = Window(cohortEnd: nat, at: Option<Position>)

  datatype Path = PublicPath | WindowPath(cohortEnd: nat)
  datatype Verdict = Verdict(path: Path, since: nat)

  /** Opened before the given place in the chain. */
  predicate OpenedBefore(w: Window, before: Option<Position>) {
    before.None? || w.at.None? || Before(w.at.value, before.value)
  }

  /** The window's cohort holds the request. */
  predicate Holds(w: Window, requested: nat, before: Option<Position>) {
    w.cohortEnd >= requested && OpenedBefore(w, before)
  }

  /** The end of the first window whose cohort holds the request. */
  function FirstHolding(windows: seq<Window>, requested: nat, before: Option<Position>): (r: Option<nat>)
    ensures r.None? <==> forall i :: 0 <= i < |windows| ==> !Holds(windows[i], requested, before)
    ensures r.Some? ==> exists i :: 0 <= i < |windows| && Holds(windows[i], requested, before) && windows[i].cohortEnd == r.value
    ensures r.Some? ==> forall i :: 0 <= i < |windows| && Holds(windows[i], requested, before) ==> r.value <= windows[i].cohortEnd
  {
    if windows == [] then None
    else
      var rest, w := FirstHolding(windows[..|windows| - 1], requested, before), windows[|windows| - 1];
      if Holds(w, requested, before) && (rest.None? || w.cohortEnd < rest.value) then Some(w.cohortEnd) else rest
  }

  function VerdictOf(requested: nat, received: nat, first: Option<nat>): Verdict {
    var public := requested + PUBLIC_VOID_DELAY;
    if first.Some? && Max(requested + VOID_DELAY, first.value) <= public
    then Verdict(WindowPath(first.value), Max(Max(requested + VOID_DELAY, first.value), received))
    else Verdict(PublicPath, Max(public, received))
  }

  function Judge(requested: nat, received: nat, windows: seq<Window>, before: Option<Position>): Verdict {
    VerdictOf(requested, received, FirstHolding(windows, requested, before))
  }

  // ---- The loop over sorted windows -------------------------------------------------------------------------------------

  ghost predicate ByEnd(windows: seq<Window>) {
    forall i, j :: 0 <= i < j < |windows| ==> windows[i].cohortEnd <= windows[j].cohortEnd
  }

  /** Inserts after every window that ends no later, as a stable sort does. */
  method InsertByEnd(s: seq<Window>, w: Window) returns (r: seq<Window>)
    requires ByEnd(s)
    ensures ByEnd(r) && multiset(r) == multiset(s) + multiset{w}
  {
    var i := |s|;
    while i > 0 && s[i - 1].cohortEnd > w.cohortEnd
      invariant 0 <= i <= |s| && forall j :: i <= j < |s| ==> w.cohortEnd < s[j].cohortEnd
    {
      i := i - 1;
    }
    assert s == s[..i] + s[i..];
    InsertedByEnd(s, w, i);
    r := s[..i] + [w] + s[i..];
  }

  lemma InsertedByEnd(s: seq<Window>, w: Window, i: nat)
    requires ByEnd(s) && i <= |s| && (i > 0 ==> s[i - 1].cohortEnd <= w.cohortEnd)
    requires forall j :: i <= j < |s| ==> w.cohortEnd < s[j].cohortEnd
    ensures ByEnd(s[..i] + [w] + s[i..])
  {
    var head, tail := s[..i], s[i..];
    assert ByEnd(head + [w]);
    assert ByEnd(tail);
    forall a, b | a in head + [w] && b in tail ensures a.cohortEnd <= b.cohortEnd {
    }
    JoinedByEnd(head + [w], tail);
  }

  lemma JoinedByEnd(a: seq<Window>, b: seq<Window>)
    requires ByEnd(a) && ByEnd(b) && forall x, y :: x in a && y in b ==> x.cohortEnd <= y.cohortEnd
    ensures ByEnd(a + b)
  {
  }

  method SortByEnd(windows: seq<Window>) returns (r: seq<Window>)
    ensures ByEnd(r) && multiset(r) == multiset(windows)
  {
    r := [];
    for n := 0 to |windows|
      invariant ByEnd(r) && multiset(r) == multiset(windows[..n])
    {
      r := InsertByEnd(r, windows[n]);
      assert windows[..n + 1] == windows[..n] + [windows[n]];
    }
    assert windows[..|windows|] == windows;
  }

  lemma MoreWindowsNoLater(a: seq<Window>, b: seq<Window>, requested: nat, before: Option<Position>)
    requires forall w :: w in a ==> w in b
    ensures var fa, fb := FirstHolding(a, requested, before), FirstHolding(b, requested, before);
      fa.Some? ==> fb.Some? && fb.value <= fa.value
  {
    var fa := FirstHolding(a, requested, before);
    if fa.Some? {
      var i :| 0 <= i < |a| && Holds(a[i], requested, before) && a[i].cohortEnd == fa.value;
      assert a[i] in b;
    }
  }

  lemma SameFirst(a: seq<Window>, b: seq<Window>, requested: nat, before: Option<Position>)
    requires multiset(a) == multiset(b)
    ensures FirstHolding(a, requested, before) == FirstHolding(b, requested, before)
  {
    forall w ensures w in a <==> w in b {
      assert w in multiset(a) <==> w in multiset(b);
    }
    MoreWindowsNoLater(a, b, requested, before);
    MoreWindowsNoLater(b, a, requested, before);
  }

  /** In cohort order the first window found to hold the request is the one that ends first. */
  lemma FoundIsFirst(sorted: seq<Window>, requested: nat, before: Option<Position>, i: nat)
    requires ByEnd(sorted) && i <= |sorted| && forall j :: 0 <= j < i ==> !Holds(sorted[j], requested, before)
    requires i < |sorted| ==> Holds(sorted[i], requested, before)
    ensures FirstHolding(sorted, requested, before) == if i < |sorted| then Some(sorted[i].cohortEnd) else None
  {
  }

  /** The first window in cohort order that holds the request decides; a later one is never looked at. */
  method Eligibility(requested: nat, received: nat, windows: seq<Window>, before: Option<Position>) returns (v: Verdict)
    ensures v == Judge(requested, received, windows, before)
  {
    var public := requested + PUBLIC_VOID_DELAY;
    var path, since := PublicPath, public;
    var sorted := SortByEnd(windows);
    SameFirst(sorted, windows, requested, before);
    var i := 0;
    while i < |sorted| && !Holds(sorted[i], requested, before)
      invariant i <= |sorted| && forall j :: 0 <= j < i ==> !Holds(sorted[j], requested, before)
    {
      i := i + 1;
    }
    FoundIsFirst(sorted, requested, before, i);
    if i < |sorted| {
      var start := Max(requested + VOID_DELAY, sorted[i].cohortEnd);
      if start <= public {
        path, since := WindowPath(sorted[i].cohortEnd), start;
      }
    }
    v := Verdict(path, Max(since, received));
  }

  // ---- The contract's rule -------------------------------------------------------------------------------------------------

  /** The latest window opened by `t`, as the Bank's cohort end reads then; zero when there is none. */
  function CohortAt(windows: seq<Window>, before: Option<Position>, t: nat): (r: nat)
    ensures r == 0 || exists i :: 0 <= i < |windows| && OpenedBefore(windows[i], before) && windows[i].cohortEnd == r <= t
    ensures forall i :: 0 <= i < |windows| && OpenedBefore(windows[i], before) && windows[i].cohortEnd <= t ==> windows[i].cohortEnd <= r
  {
    if windows == [] then 0
    else
      var rest, w := CohortAt(windows[..|windows| - 1], before, t), windows[|windows| - 1];
      if OpenedBefore(w, before) && w.cohortEnd <= t then Max(w.cohortEnd, rest) else rest
  }

  /** voidBet accepts the bet at `t`: its result is there and the delay its cohort gives it has passed. */
  predicate MayVoid(requested: nat, received: nat, windows: seq<Window>, before: Option<Position>, t: nat) {
    t >= received && VoidEligibleAt(requested, CohortAt(windows, before, t), DELAYS) <= t
  }

  /**
   * The closed form is the first instant of the contract's rule, and the rule never lapses: for every set of windows, a
   * bet may be voided at `t` exactly when `t` is not before `since`.
   */
  lemma FirstInstant(requested: nat, received: nat, windows: seq<Window>, before: Option<Position>, t: nat)
    requires requested > 0
    ensures MayVoid(requested, received, windows, before, t) <==> Judge(requested, received, windows, before).since <= t
  {
    var first := FirstHolding(windows, requested, before);
    var cohort := CohortAt(windows, before, t);
    if first.Some? {
      var i :| 0 <= i < |windows| && Holds(windows[i], requested, before) && windows[i].cohortEnd == first.value;
      assert first.value <= t ==> first.value <= cohort;
    }
    assert requested <= cohort <==> first.Some? && first.value <= t;
  }

  /** The path is the rule in force at the first instant the delay allows: the window's cohort, or the public limit. */
  lemma PathIsTheRuleInForce(requested: nat, received: nat, windows: seq<Window>, before: Option<Position>)
    requires requested > 0
    ensures var v := Judge(requested, received, windows, before); var open := Judge(requested, 0, windows, before).since;
      && v.path == Judge(requested, 0, windows, before).path
      && (v.path.WindowPath? <==> requested <= CohortAt(windows, before, open))
  {
    var first := FirstHolding(windows, requested, before);
    var open := Judge(requested, 0, windows, before).since;
    var cohort := CohortAt(windows, before, open);
    if first.Some? {
      var i :| 0 <= i < |windows| && Holds(windows[i], requested, before) && windows[i].cohortEnd == first.value;
      assert first.value <= open ==> first.value <= cohort;
    }
    assert requested <= cohort <==> first.Some? && first.value <= open;
  }

  /** The delays: seven days after the request, and one in the cohort of a window opened in time. */
  lemma DelaysAre(requested: nat, window: Window, t: nat)
    requires requested > 0 && requested <= window.cohortEnd <= requested + 86_400
    ensures MayVoid(requested, 0, [], None, t) <==> requested + 604_800 <= t
    ensures MayVoid(requested, 0, [window], None, t) <==> requested + 86_400 <= t
  {
    assert [window][..0] == [];
  }
}
