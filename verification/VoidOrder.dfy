/**
 * Which bet the void executor may attempt (runtime.ts, void.ts): in every interleaving of events, drains,
 * retries, recovery scans and void passes, no known earlier bet is skipped.
 */
module VoidOrder {
  import opened Binary
  import opened KeeperQueue

  // ---- Eligibility and order (void.ts) --------------------------------------------------------------------------

  datatype Parameters = Parameters(voidDelay: nat, publicVoidDelay: nat)

  function VoidEligibleAt(requestedAt: nat, cohortEnd: nat, p: Parameters): nat {
    requestedAt + (if requestedAt <= cohortEnd then p.voidDelay else p.publicVoidDelay)
  }

  datatype Candidate = Candidate(betId: nat, requestedAt: nat, eligibleAt: nat)

  /** Eligible bets are attempted in VRF request order, then by bet. */
  predicate Precedes(a: Candidate, b: Candidate) {
    a.requestedAt < b.requestedAt || (a.requestedAt == b.requestedAt && a.betId < b.betId)
  }

  ghost predicate SortedBy(s: seq<Candidate>) {
    forall i, j :: 0 <= i < j < |s| ==> Precedes(s[i], s[j])
  }

  // ---- The keeper, as a state machine ------------------------------------------------------------------------------

  /**
   * What a process starts with. `placed` is the chain: the block of each bet's first lifecycle event. `first` is the
   * first block its recovery scans, the origin or one past a saved cursor. `open` are the bets a bet index, if there is
   * one, reports unresolved; their IDs are positive.
   */
  datatype Setup = Setup(placed: map<nat, int>, hasOrigin: bool, first: int, open: Option<set<nat>>)

  /**
   * `seen`: bets whose event a recovery scan has read. `page`: how far the indexed bets were requeued, with the ones read
   * so far. `enqueued` and `examined` remember every bet ever queued and ever processed. `pass` holds what a running void
   * pass has still to take of its list.
   */
  datatype Keeper = Keeper(q: Queue, enqueued: set<nat>, examined: set<nat>, seen: set<nat>, scannedThrough: int,
                           startupHead: Option<int>, page: nat, paged: set<nat>, requeued: bool, latched: bool, stopped: bool,
                           candidates: map<nat, Candidate>, pass: Option<seq<Candidate>>)

  function Starting(c: Setup): Keeper {
    Keeper(Empty, {}, {}, {}, c.first - 1, None, 0, {}, false, false, false, map[], None)
  }

  datatype KeeperStep =
    | Enqueue(e: Event, now: int, delay: int)
    | HandOut(b: nat, now: int)
    | Examine(b: nat)                          // processItem, begun before stop, ends with complete
    | ExamineRetry(b: nat, now: int, delay: int)
    | DropStopped(b: nat)                      // processItem after stop
    | SeeHead(head: int)
    | SeeLog(e: Event, now: int, delay: int)   // one event of a recovery scan
    | AdvanceScan(to: int)
    | SeeIndexed(e: Event, now: int, delay: int)
    | EndPage(last: Option<nat>)               // a full page ends at its last bet, a short one ends the round
    | Latch
    | Note(candidate: Candidate)               // a bet that cannot be booked, or its eligibility read again
    | Close(b: nat)
    | BeginPass(chainTime: nat, list: seq<Candidate>)
    | Turn(waits: bool, configurationError: bool)
    | EndPass
    | Stop

  /** What the lock section finds for one candidate: the pass ends, the candidate is gone, or it is attempted. */
  datatype Verdict = EndsPass | Gone | Attempted(configurationError: bool)

  /**
   * The lock section for one bet. `waits`: a backup leaves the bet to the primary for now. `configurationError`: what the
   * attempt, if it is made, comes to.
   */
  function TurnVerdict(k: Keeper, b: nat, waits: bool, configurationError: bool): Verdict {
    if k.stopped || b !in k.candidates then Gone
    else if waits || HasUnexaminedBefore(k.q, b) then EndsPass
    else Attempted(configurationError)
  }

  /** The list holds exactly the candidates eligible at the chain's time, in request order. */
  ghost predicate ListsEligible(k: Keeper, chainTime: nat, list: seq<Candidate>) {
    && SortedBy(list)
    && forall x: Candidate :: x in list <==> x.betId in k.candidates && k.candidates[x.betId] == x && x.eligibleAt <= chainTime
  }

  /** The pass has a turn to take. */
  predicate InPass(k: Keeper) { k.pass.Some? && k.pass.value != [] }

  /** This turn attempts to void `b`. */
  predicate Attempts(k: Keeper, s: KeeperStep, b: nat) {
    && s.Turn? && InPass(k) && k.pass.value[0].betId == b
    && TurnVerdict(k, k.pass.value[0].betId, s.waits, s.configurationError).Attempted?
  }

  ghost predicate Allowed(c: Setup, k: Keeper, s: KeeperStep) {
    match s
    case Enqueue(_, _, _) => true
    case HandOut(b, now) => IsNext(k.q, b, now)
    case Examine(b) => b in k.q.inFlight
    case ExamineRetry(b, _, _) => b in k.q.inFlight
    case DropStopped(b) => b in k.q.inFlight && k.stopped
    case SeeHead(_) => true
    case SeeLog(_, _, _) => true
    case AdvanceScan(to) => forall b :: b in c.placed && k.scannedThrough < c.placed[b] <= to ==> b in k.seen
    case SeeIndexed(_, _, _) => true
    case EndPage(last) =>
      c.open.Some? && forall b :: b in c.open.value && k.page < b && (last.Some? ==> b <= last.value) ==> b in k.paged
    case Latch =>
      && (c.hasOrigin ==> k.startupHead.Some? && k.scannedThrough >= k.startupHead.value)
      && (c.open.Some? ==> k.requeued)
    case Note(_) => true
    case Close(_) => true
    case BeginPass(chainTime, list) => k.latched && k.pass.None? && ListsEligible(k, chainTime, list)
    case Turn(_, _) => InPass(k)
    case EndPass => k.pass.Some?
    case Stop => true
  }

  /** Queues a bet unless it is queued or in flight already. */
  function Requeue(k: Keeper, e: Event, now: int, delay: int): Keeper {
    if Has(k.q, e.betId) then k else k.(q := Enqueued(k.q, e, now, delay), enqueued := k.enqueued + {e.betId})
  }

  /** A requeue leaves a bet that is queued or in flight as it is, and queues any other with no attempts. */
  lemma RequeueLeaves(k: Keeper, e: Event, now: int, delay: int)
    ensures var k' := Requeue(k, e, now, delay);
      if e.betId in k.q.queued || e.betId in k.q.inFlight then k' == k
      else k'.q == k.q.(queued := k.q.queued[e.betId := Item(e, now + delay, 0)]) && k'.enqueued == k.enqueued + {e.betId}
  {
  }

  function StepTo(k: Keeper, s: KeeperStep): Keeper
    requires s.HandOut? ==> s.b in k.q.queued
    requires s.ExamineRetry? ==> s.b in k.q.inFlight
    requires s.Turn? ==> InPass(k)
  {
    match s
    case Enqueue(e, now, delay) => k.(q := Enqueued(k.q, e, now, delay), enqueued := k.enqueued + {e.betId})
    case HandOut(b, _) => k.(q := HandedOut(k.q, b))
    case Examine(b) => k.(q := Completed(k.q, b), examined := k.examined + {b})
    case ExamineRetry(b, now, delay) => k.(q := Requeued(k.q, k.q.inFlight[b], now, delay), examined := k.examined + {b})
    case DropStopped(b) => k.(q := Completed(k.q, b))
    case SeeHead(head) => k.(startupHead := if k.startupHead.None? then Some(head) else k.startupHead)
    case SeeLog(e, now, delay) => Requeue(k, e, now, delay).(seen := k.seen + {e.betId})
    case AdvanceScan(to) => k.(scannedThrough := Max(k.scannedThrough, to))
    case SeeIndexed(e, now, delay) => Requeue(k, e, now, delay).(paged := k.paged + {e.betId})
    case EndPage(last) =>
      k.(page := if last.Some? then last.value else 0, requeued := k.requeued || last.None?)
    case Latch => k.(latched := true)
    case Note(x) => k.(candidates := k.candidates[x.betId := x])
    case Close(b) => k.(candidates := k.candidates - {b})
    case BeginPass(_, list) => k.(pass := Some(list))
    case Turn(waits, configurationError) =>
      var verdict := TurnVerdict(k, k.pass.value[0].betId, waits, configurationError);
      k.(pass := if verdict.EndsPass? || verdict == Attempted(true) then None else Some(k.pass.value[1..]))
    case EndPass => k.(pass := None)
    case Stop => k.(stopped := true)
  }

  /** A bet nobody has examined is still waiting, with no attempts. */
  predicate Waiting(q: Queue, b: nat) {
    (b in q.queued && q.queued[b].attempts == 0) || (b in q.inFlight && q.inFlight[b].attempts == 0)
  }

  /** Known bets are enqueued, and an enqueued bet not yet examined waits. */
  ghost predicate QueueOk(k: Keeper) {
    && Valid(k.q) && k.q.queued.Keys <= k.enqueued && k.q.inFlight.Keys <= k.enqueued
    && (!k.stopped ==> forall b :: b in k.enqueued && b !in k.examined ==> Waiting(k.q, b))
  }

  /** What the recovery scan and the indexed requeue have got through was enqueued. */
  ghost predicate RecoveryOk(c: Setup, k: Keeper) {
    && k.seen <= k.enqueued && k.paged <= k.enqueued
    && (forall b :: b in c.placed && c.first <= c.placed[b] <= k.scannedThrough ==> b in k.enqueued)
    && (c.open.Some? ==> forall b :: b in c.open.value && 0 < b <= k.page ==> b in k.enqueued)
    && (k.requeued && c.open.Some? ==> forall b :: b in c.open.value && 0 < b ==> b in k.enqueued)
  }

  ghost predicate LatchOk(c: Setup, k: Keeper) {
    && (k.pass.Some? ==> k.latched)
    && (k.latched ==> && (c.hasOrigin ==> k.startupHead.Some? && k.scannedThrough >= k.startupHead.value)
                      && (c.open.Some? ==> k.requeued))
  }

  ghost predicate Invariant(c: Setup, k: Keeper) { QueueOk(k) && RecoveryOk(c, k) && LatchOk(c, k) }

  lemma StartsInvariant(c: Setup)
    ensures Invariant(c, Starting(c))
  {
  }

  /** A process starts running, with nothing queued, scanned or known, and no pass before its recovery is complete. */
  lemma StartsEmpty(c: Setup)
    ensures var k := Starting(c);
      && !k.stopped && !k.latched && !k.requeued && k.pass.None? && k.candidates == map[] && k.startupHead.None? && k.page == 0
      && k.q == Queue(map[], map[]) && k.scannedThrough + 1 == c.first && k.enqueued + k.examined + k.seen + k.paged == {}
  {
  }

  /**
   * One turn: a candidate that is gone, or met after stop, is passed over; a turn that must wait ends the pass; an attempt goes
   * on unless its configuration is wrong. Nothing else changes.
   */
  lemma TurnIs(k: Keeper, s: KeeperStep)
    requires s.Turn? && InPass(k)
    ensures var b, after := k.pass.value[0].betId, StepTo(k, s).pass;
      if k.stopped || b !in k.candidates then after == Some(k.pass.value[1..])
      else if s.waits || HasUnexaminedBefore(k.q, b) || s.configurationError then after == None
      else after == Some(k.pass.value[1..])
    ensures StepTo(k, s) == k.(pass := StepTo(k, s).pass)
    ensures var b := k.pass.value[0].betId;
      Attempts(k, s, b) <==> !k.stopped && b in k.candidates && !s.waits && !HasUnexaminedBefore(k.q, b)
  {
  }

  /** Steps of the recovery clock and of the void passes leave the queue and what was queued alone. */
  predicate LeavesQueue(s: KeeperStep) {
    s.SeeHead? || s.AdvanceScan? || s.EndPage? || s.Latch? || s.Note? || s.Close? || s.BeginPass? || s.Turn? || s.EndPass? || s.Stop?
  }

  lemma OtherStep(c: Setup, k: Keeper, s: KeeperStep)
    requires Allowed(c, k, s) && LeavesQueue(s)
    ensures var k' := StepTo(k, s);
      k'.q == k.q && k'.enqueued == k.enqueued && k'.examined == k.examined && (k.stopped ==> k'.stopped)
  {
  }

  lemma QueueKeeps(c: Setup, k: Keeper, s: KeeperStep)
    requires QueueOk(k) && Allowed(c, k, s)
    ensures QueueOk(StepTo(k, s)) && k.enqueued <= StepTo(k, s).enqueued
  {
    if LeavesQueue(s) {
      OtherStep(c, k, s);
      hide Allowed, StepTo, Valid, Waiting;
    } else if Queues(s) {
      QueueingStep(c, k, s);
    } else {
      HandlingStep(c, k, s);
    }
  }

  predicate Queues(s: KeeperStep) { s.Enqueue? || s.SeeLog? || s.SeeIndexed? }

  lemma EnqueueOk(k: Keeper, k': Keeper, e: Event, now: int, delay: int)
    requires QueueOk(k) && k'.q == Enqueued(k.q, e, now, delay) && k'.enqueued == k.enqueued + {e.betId}
    requires k'.examined == k.examined && k'.stopped == k.stopped
    ensures QueueOk(k')
  {
    hide Waiting;
    EnqueueWaits(k.q, e, now, delay);
  }

  lemma QueueingStep(c: Setup, k: Keeper, s: KeeperStep)
    requires QueueOk(k) && Allowed(c, k, s) && Queues(s)
    ensures QueueOk(StepTo(k, s)) && k.enqueued <= StepTo(k, s).enqueued
  {
    hide Waiting, Enqueued, Valid;
    if !Has(k.q, s.e.betId) || s.Enqueue? {
      EnqueueOk(k, StepTo(k, s), s.e, s.now, s.delay);
    }
  }

  lemma HandlingStep(c: Setup, k: Keeper, s: KeeperStep)
    requires QueueOk(k) && Allowed(c, k, s) && !Queues(s) && !LeavesQueue(s)
    ensures QueueOk(StepTo(k, s)) && k.enqueued <= StepTo(k, s).enqueued
  {
    hide Enqueued, TurnVerdict;
  }

  lemma RecoveryStep(c: Setup, k: Keeper, s: KeeperStep)
    requires QueueOk(k) && RecoveryOk(c, k) && Allowed(c, k, s)
    ensures RecoveryOk(c, StepTo(k, s))
  {
    QueueKeeps(c, k, s);
  }

  lemma StepKeepsInvariant(c: Setup, k: Keeper, s: KeeperStep)
    requires Invariant(c, k) && Allowed(c, k, s)
    ensures Invariant(c, StepTo(k, s))
  {
    QueueKeeps(c, k, s);
    RecoveryStep(c, k, s);
  }

  lemma EnqueueWaits(q: Queue, e: Event, now: int, delay: int)
    ensures forall b :: Waiting(q, b) ==> Waiting(Enqueued(q, e, now, delay), b)
    ensures e.betId !in q.queued ==> Waiting(Enqueued(q, e, now, delay), e.betId)
  {
  }

  // ---- Runs ----------------------------------------------------------------------------------------------------------

  ghost predicate Runs(c: Setup, k: Keeper, steps: seq<KeeperStep>)
    decreases |steps|
  {
    steps == [] || (Allowed(c, k, steps[0]) && Runs(c, StepTo(k, steps[0]), steps[1..]))
  }

  ghost function Final(c: Setup, k: Keeper, steps: seq<KeeperStep>): Keeper
    requires Runs(c, k, steps)
    decreases |steps|
  {
    if steps == [] then k else Final(c, StepTo(k, steps[0]), steps[1..])
  }

  lemma {:induction false} RunKeepsInvariant(c: Setup, k: Keeper, steps: seq<KeeperStep>)
    requires Invariant(c, k) && Runs(c, k, steps)
    ensures Invariant(c, Final(c, k, steps))
    decreases |steps|
  {
    if steps != [] {
      StepKeepsInvariant(c, k, steps[0]);
      RunKeepsInvariant(c, StepTo(k, steps[0]), steps[1..]);
    }
  }

  predicate About(s: KeeperStep, b: nat) { (s.Note? && s.candidate.betId == b) || (s.Close? && s.b == b) }

  /** The last word on `b` is that it is a candidate, as `x`; without any, the word from before holds. */
  ghost predicate Noted(k: Keeper, steps: seq<KeeperStep>, b: nat, x: Candidate) {
    || (exists i :: 0 <= i < |steps| && steps[i] == Note(x) && x.betId == b && forall j :: i < j < |steps| ==> !About(steps[j], b))
    || (b in k.candidates && k.candidates[b] == x && forall j :: 0 <= j < |steps| ==> !About(steps[j], b))
  }

  function CandidatesAfter(k: Keeper, s: KeeperStep): map<nat, Candidate> {
    match s
    case Note(x) => k.candidates[x.betId := x]
    case Close(b) => k.candidates - {b}
    case _ => k.candidates
  }

  lemma StepLeaves(c: Setup, k: Keeper, s: KeeperStep)
    requires Allowed(c, k, s)
    ensures var f := StepTo(k, s);
      && f.candidates == CandidatesAfter(k, s)
      && (f.stopped <==> k.stopped || s == Stop)
      && (f.latched <==> k.latched || s == Latch)
      && (f.requeued <==> k.requeued || s == EndPage(None))
  {
  }

  lemma NotedNext(k: Keeper, steps: seq<KeeperStep>, b: nat, x: Candidate, k': Keeper)
    requires steps != []
    requires k'.candidates == CandidatesAfter(k, steps[0])
    ensures Noted(k, steps, b, x) <==> Noted(k', steps[1..], b, x)
  {
    var rest := steps[1..];
    assert forall j :: 0 <= j < |rest| ==> rest[j] == steps[j + 1];
    if Noted(k', rest, b, x) {
      if i :| 0 <= i < |rest| && rest[i] == Note(x) && x.betId == b && forall j :: i < j < |rest| ==> !About(rest[j], b) {
        assert steps[i + 1] == Note(x);
        assert forall j :: i + 1 < j < |steps| ==> steps[j] == rest[j - 1];
      } else {
        assert forall j :: 1 <= j < |steps| ==> steps[j] == rest[j - 1];
        assert !About(steps[0], b) || steps[0] == Note(x);
      }
    }
    if Noted(k, steps, b, x) {
      if i :| 0 <= i < |steps| && steps[i] == Note(x) && x.betId == b && forall j :: i < j < |steps| ==> !About(steps[j], b) {
        if i > 0 {
          assert rest[i - 1] == Note(x);
        }
      } else {
        assert !About(steps[0], b);
      }
    }
  }

  /** What a run leaves, read off its steps: what was latched, requeued and stopped, and the candidates with their latest reading. */
  lemma {:induction false} RunSays(c: Setup, k: Keeper, steps: seq<KeeperStep>)
    requires Runs(c, k, steps)
    ensures var f := Final(c, k, steps);
      && (f.stopped <==> k.stopped || Stop in steps)
      && (f.latched <==> k.latched || Latch in steps)
      && (f.requeued <==> k.requeued || EndPage(None) in steps)
      && forall b: nat, x: Candidate :: b in f.candidates && f.candidates[b] == x <==> Noted(k, steps, b, x)
    decreases |steps|
  {
    hide StepTo, CandidatesAfter, Noted;
    if steps == [] {
      forall b: nat, x: Candidate ensures b in k.candidates && k.candidates[b] == x <==> Noted(k, [], b, x) {
        NotedNone(k, b, x);
      }
    } else {
      var k', rest := StepTo(k, steps[0]), steps[1..];
      StepLeaves(c, k, steps[0]);
      RunSays(c, k', rest);
      assert steps == [steps[0]] + rest;
      forall b: nat, x: Candidate ensures Noted(k, steps, b, x) <==> Noted(k', rest, b, x) {
        NotedNext(k, steps, b, x, k');
      }
    }
  }

  lemma NotedNone(k: Keeper, b: nat, x: Candidate)
    ensures b in k.candidates && k.candidates[b] == x <==> Noted(k, [], b, x)
  {
  }

  /**
   * What the keeper knows of: bets ever queued, bets with an event between its first scanned block and the startup head,
   * and bets the index reports open.
   */
  predicate Known(c: Setup, k: Keeper, a: nat) {
    || a in k.enqueued
    || (c.hasOrigin && a in c.placed && k.startupHead.Some? && c.first <= c.placed[a] <= k.startupHead.value)
    || (c.open.Some? && 0 < a && a in c.open.value)
  }

  /**
   * After any run from a start, a turn that attempts to void `b` is taken only when every known bet with a lower ID has
   * been examined.
   */
  lemma NoEarlierBetSkipped(c: Setup, steps: seq<KeeperStep>, s: KeeperStep, b: nat)
    requires Runs(c, Starting(c), steps)
    requires Attempts(Final(c, Starting(c), steps), s, b)
    ensures var k := Final(c, Starting(c), steps);
      forall a: nat :: a < b && Known(c, k, a) ==> a in k.examined
  {
    var k := Final(c, Starting(c), steps);
    StartsInvariant(c);
    RunKeepsInvariant(c, Starting(c), steps);
    forall a: nat | a < b && Known(c, k, a) ensures a in k.examined {
      assert a in k.enqueued;
      assert a in k.examined || Waiting(k.q, a);
    }
  }

  /** Bet IDs follow VRF request time; then no known bet that comes first in request order is left unexamined. */
  lemma RequestOrderKept(c: Setup, steps: seq<KeeperStep>, s: KeeperStep, b: nat, requestedAt: nat -> nat)
    requires Runs(c, Starting(c), steps)
    requires Attempts(Final(c, Starting(c), steps), s, b)
    requires forall x: nat, y: nat :: requestedAt(x) < requestedAt(y) ==> x < y
    ensures var k := Final(c, Starting(c), steps);
      forall a: nat :: Known(c, k, a) && Precedes(Candidate(a, requestedAt(a), 0), Candidate(b, requestedAt(b), 0))
        ==> a in k.examined
  {
    NoEarlierBetSkipped(c, steps, s, b);
  }

  // ---- The turns of one pass in a run -------------------------------------------------------------------------------------

  /** The candidate a step disposes of, and whether it was attempted; nothing when the step takes no turn or ends the pass. */
  function TurnOf(k: Keeper, s: KeeperStep): seq<(Candidate, bool)> {
    if !s.Turn? || !InPass(k) then []
    else
      var verdict := TurnVerdict(k, k.pass.value[0].betId, s.waits, s.configurationError);
      if verdict.EndsPass? then [] else [(k.pass.value[0], verdict.Attempted?)]
  }

  /** A turn disposes of its candidate, with or without an attempt, unless it must wait for the primary or for a lower bet. */
  lemma DisposesIff(k: Keeper, s: KeeperStep)
    requires s.Turn? && InPass(k)
    ensures var x := k.pass.value[0];
      TurnOf(k, s) == if !k.stopped && x.betId in k.candidates && (s.waits || HasUnexaminedBefore(k.q, x.betId)) then []
                      else [(x, Attempts(k, s, x.betId))]
  {
  }

  ghost function TurnsOf(c: Setup, k: Keeper, steps: seq<KeeperStep>): seq<(Candidate, bool)>
    requires Runs(c, k, steps)
    decreases |steps|
  {
    if steps == [] then [] else TurnOf(k, steps[0]) + TurnsOf(c, StepTo(k, steps[0]), steps[1..])
  }

  /** No other pass begins. */
  predicate OnePass(steps: seq<KeeperStep>) {
    forall i :: 0 <= i < |steps| ==> !steps[i].BeginPass?
  }

  /** The turns are the first entries of what the pass had to take. */
  ghost predicate TakesInOrder(turns: seq<(Candidate, bool)>, rest: seq<Candidate>) {
    |turns| <= |rest| && forall i :: 0 <= i < |turns| ==> turns[i].0 == rest[i]
  }

  lemma TakesNext(turns: seq<(Candidate, bool)>, rest: seq<Candidate>, attempted: bool)
    requires rest != [] && TakesInOrder(turns, rest[1..])
    ensures TakesInOrder([(rest[0], attempted)] + turns, rest)
  {
    var all := [(rest[0], attempted)] + turns;
    forall i | 0 <= i < |all| ensures all[i].0 == rest[i] {
      assert i > 0 ==> all[i] == turns[i - 1];
    }
  }

  /** What a pass has still to take. */
  function Rest(k: Keeper): seq<Candidate> { if k.pass.Some? then k.pass.value else [] }

  lemma StepTakes(c: Setup, k: Keeper, s: KeeperStep, later: seq<(Candidate, bool)>)
    requires Allowed(c, k, s) && !s.BeginPass? && TakesInOrder(later, Rest(StepTo(k, s)))
    ensures TakesInOrder(TurnOf(k, s) + later, Rest(k))
  {
    if TurnOf(k, s) == [] {
      assert [] + later == later;
    } else {
      if StepTo(k, s).pass.None? {
        assert later == [];
      }
      TakesNext(later, k.pass.value, TurnOf(k, s)[0].1);
    }
  }

  lemma {:induction false} PassTakesItsList(c: Setup, k: Keeper, steps: seq<KeeperStep>)
    requires Runs(c, k, steps) && OnePass(steps)
    ensures TakesInOrder(TurnsOf(c, k, steps), Rest(k))
    decreases |steps|
  {
    if steps != [] {
      assert OnePass(steps[1..]) && !steps[0].BeginPass?;
      hide StepTo, TurnOf, TakesInOrder, Rest;
      PassTakesItsList(c, StepTo(k, steps[0]), steps[1..]);
      StepTakes(c, k, steps[0], TurnsOf(c, StepTo(k, steps[0]), steps[1..]));
    }
  }

  /**
   * In every run, the turns between the start and the end of one pass are the first entries of its list, in request order:
   * each was an eligible candidate when the pass began, none is skipped, and a turn without an attempt found its candidate
   * gone.
   */
  lemma PassKeepsRequestOrder(c: Setup, before: seq<KeeperStep>, begin: KeeperStep, steps: seq<KeeperStep>)
    requires Runs(c, Starting(c), before) && begin.BeginPass?
    requires Allowed(c, Final(c, Starting(c), before), begin)
    requires Runs(c, StepTo(Final(c, Starting(c), before), begin), steps) && OnePass(steps)
    ensures var k := Final(c, Starting(c), before); var turns := TurnsOf(c, StepTo(k, begin), steps);
      && TakesInOrder(turns, begin.list)
      && (forall i, j :: 0 <= i < j < |turns| ==> Precedes(turns[i].0, turns[j].0))
      && (forall i :: 0 <= i < |turns| ==> turns[i].0.betId in k.candidates && turns[i].0.eligibleAt <= begin.chainTime)
  {
    var k := Final(c, Starting(c), before);
    PassTakesItsList(c, StepTo(k, begin), steps);
    var turns := TurnsOf(c, StepTo(k, begin), steps);
    forall i | 0 <= i < |turns| ensures turns[i].0.betId in k.candidates && turns[i].0.eligibleAt <= begin.chainTime {
      assert begin.list[i] in begin.list;
    }
  }

  // ---- One void pass ----------------------------------------------------------------------------------------------------

  ghost predicate Distinct(s: seq<Candidate>) {
    forall i, j :: 0 <= i < j < |s| ==> s[i].betId != s[j].betId
  }

  /** Inserts into a sorted list. */
  method Insert(s: seq<Candidate>, c: Candidate) returns (r: seq<Candidate>)
    requires SortedBy(s) && forall i :: 0 <= i < |s| ==> s[i].betId != c.betId
    ensures SortedBy(r)
    ensures forall x :: x in r <==> x in s || x == c
  {
    var i := |s|;
    while i > 0 && Precedes(c, s[i - 1])
      invariant 0 <= i <= |s| && forall k :: i <= k < |s| ==> Precedes(c, s[k])
    {
      i := i - 1;
    }
    r := s[..i] + [c] + s[i..];
    InsertSorted(s, c, i);
  }

  lemma InsertSorted(s: seq<Candidate>, c: Candidate, i: nat)
    requires SortedBy(s) && i <= |s| && forall k :: i <= k < |s| ==> Precedes(c, s[k])
    requires i > 0 ==> Precedes(s[i - 1], c)
    ensures SortedBy(s[..i] + [c] + s[i..])
    ensures forall x :: x in s[..i] + [c] + s[i..] <==> x in s || x == c
  {
    var r := s[..i] + [c] + s[i..];
    forall a, b | 0 <= a < b < |r| ensures Precedes(r[a], r[b]) {
      if a < i - 1 && b == i {
        assert Precedes(s[a], s[i - 1]);
      }
    }
    assert s == s[..i] + s[i..];
  }

  /** The eligible candidates, in attempt order. */
  method EligibleInOrder(candidates: seq<Candidate>, chainTime: nat) returns (r: seq<Candidate>)
    requires Distinct(candidates)
    ensures SortedBy(r)
    ensures forall c :: c in r <==> c in candidates && c.eligibleAt <= chainTime
  {
    r := [];
    for n := 0 to |candidates|
      invariant SortedBy(r)
      invariant forall c :: c in r <==> c in candidates[..n] && c.eligibleAt <= chainTime
    {
      var c := candidates[n];
      if c.eligibleAt <= chainTime {
        forall i | 0 <= i < |r| ensures r[i].betId != c.betId {
          assert r[i] in candidates[..n];
        }
        r := Insert(r, c);
      }
    }
    assert candidates[..|candidates|] == candidates;
  }

  /** What one turn meets: whether the keeper had stopped before it waited for the lock, and the keeper once it holds it. */
  datatype TurnInput = TurnInput(stopped: bool, k: Keeper, waits: bool, configurationError: bool)

  function Finds(t: TurnInput, b: nat): Verdict {
    if t.stopped then EndsPass else TurnVerdict(t.k, b, t.waits, t.configurationError)
  }

  /** `x` is one of the first `n` candidates and was attempted. */
  ghost predicate Tried(eligible: seq<Candidate>, turns: seq<TurnInput>, x: Candidate, n: nat)
    requires |turns| == |eligible|
  {
    exists i :: 0 <= i < n && i < |eligible| && x == eligible[i] && Finds(turns[i], eligible[i].betId).Attempted?
  }

  /**
   * One pass over the eligible list, given the keeper at each turn: its attempts are in order, each of a candidate that
   * was still one, with no lower bet unexamined, and none comes after the turn at which the pass ended.
   */
  method VoidPass(eligible: seq<Candidate>, turns: seq<TurnInput>) returns (attempts: seq<Candidate>, taken: nat)
    requires SortedBy(eligible) && |turns| == |eligible|
    ensures SortedBy(attempts) && taken <= |eligible|
    ensures forall i :: 0 <= i < taken ==> !Finds(turns[i], eligible[i].betId).EndsPass?
    ensures taken == |eligible| || Finds(turns[taken], eligible[taken].betId).EndsPass?
            || (taken > 0 && Finds(turns[taken - 1], eligible[taken - 1].betId) == Attempted(true))
    ensures forall x :: x in attempts <==> Tried(eligible, turns, x, taken)
  {
    attempts, taken := [], 0;
    while taken < |eligible|
      invariant taken <= |eligible| && SortedBy(attempts)
      invariant forall i :: 0 <= i < taken ==> !Finds(turns[i], eligible[i].betId).EndsPass?
      invariant forall x :: x in attempts <==> Tried(eligible, turns, x, taken)
    {
      var t, x := turns[taken], eligible[taken];
      TriedNext(eligible, turns, taken);
      if t.stopped {
        return;
      }
      if t.k.stopped || x.betId !in t.k.candidates {
        taken := taken + 1;
        continue;
      }
      if t.waits || HasUnexaminedBefore(t.k.q, x.betId) {
        return;
      }
      forall a | 0 <= a < |attempts| ensures Precedes(attempts[a], x) {
        assert attempts[a] in attempts && Tried(eligible, turns, attempts[a], taken);
      }
      attempts := attempts + [x];
      taken := taken + 1;
      if t.configurationError {
        return;
      }
    }
  }

  lemma TriedNext(eligible: seq<Candidate>, turns: seq<TurnInput>, n: nat)
    requires |turns| == |eligible| && n < |eligible|
    ensures forall x :: Tried(eligible, turns, x, n + 1) <==>
      Tried(eligible, turns, x, n) || (x == eligible[n] && Finds(turns[n], eligible[n].betId).Attempted?)
  {
    forall x ensures Tried(eligible, turns, x, n + 1) <==>
      Tried(eligible, turns, x, n) || (x == eligible[n] && Finds(turns[n], eligible[n].betId).Attempted?)
    {
      if Tried(eligible, turns, x, n + 1) {
        var i :| 0 <= i < n + 1 && x == eligible[i] && Finds(turns[i], eligible[i].betId).Attempted?;
      }
      if x == eligible[n] && Finds(turns[n], eligible[n].betId).Attempted? {
        assert 0 <= n < n + 1 && x == eligible[n];
      }
    }
  }
}
