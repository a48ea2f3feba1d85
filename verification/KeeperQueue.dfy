/** The keeper's work queue (queue.ts). Time is a parameter of each operation. */
module KeeperQueue {
  import opened Binary

  /** What an event reports about a bet; a missing field is None. `other` stands for the remaining fields. */
  datatype Event = Event(betId: nat, blockNumber: Option<nat>, txHash: Option<nat>, requestId: Option<nat>,
                         resultBlock: Option<nat>, other: int)

  datatype Item = Item(event: Event, availableAt: int, attempts: nat)

  /** The earlier of two result blocks. */
  function Earliest(a: Option<nat>, b: Option<nat>): Option<nat> {
    if a.None? then b else if b.None? then a else if a.value < b.value then a else b
  }

  function Or<T>(a: Option<T>, b: Option<T>): Option<T> { if a.Some? then a else b }

  /** The two maps of the queue, by bet. */
  datatype Queue = Queue(queued: map<nat, Item>, inFlight: map<nat, Item>)

  const Empty: Queue := Queue(map[], map[])

  predicate Valid(q: Queue) {
    && (forall b :: b in q.queued ==> q.queued[b].event.betId == b)
    && (forall b :: b in q.inFlight ==> q.inFlight[b].event.betId == b)
  }

  // ---- Operations, as functions of the state ----------------------------------------------------------------------

  function Merged(i: Item, e: Event, at: int): Item {
    Item(i.event.(blockNumber := Or(e.blockNumber, i.event.blockNumber), txHash := Or(e.txHash, i.event.txHash),
                  requestId := Or(e.requestId, i.event.requestId),
                  resultBlock := Earliest(i.event.resultBlock, e.resultBlock)),
         Min(i.availableAt, at), i.attempts)
  }

  function Enqueued(q: Queue, e: Event, now: int, delay: int): Queue {
    var i := if e.betId in q.queued then Merged(q.queued[e.betId], e, now + delay) else Item(e, now + delay, 0);
    q.(queued := q.queued[e.betId := i])
  }

  predicate Ready(q: Queue, b: nat, now: int) {
    b in q.queued && q.queued[b].availableAt <= now && b !in q.inFlight
  }

  /** Order of hand-out: by availability, then by bet. */
  predicate Before(i: Item, j: Item) {
    i.availableAt < j.availableAt || (i.availableAt == j.availableAt && i.event.betId <= j.event.betId)
  }

  predicate IsNext(q: Queue, b: nat, now: int) {
    Ready(q, b, now) && forall c :: c in q.queued && Ready(q, c, now) ==> Before(q.queued[b], q.queued[c])
  }

  function HandedOut(q: Queue, b: nat): Queue
    requires b in q.queued
  {
    Queue(q.queued - {b}, q.inFlight[b := q.queued[b]])
  }

  function Completed(q: Queue, b: nat): Queue { q.(inFlight := q.inFlight - {b}) }

  /** The retried item: an event that arrived meanwhile wins, with its earlier wakeup and result block. */
  function Retried(i: Item, queued: Option<Item>, at: int): Item {
    match queued
    case None => Item(i.event, at, i.attempts + 1)
    case Some(k) =>
      Item(Event(k.event.betId, Or(k.event.blockNumber, i.event.blockNumber), Or(k.event.txHash, i.event.txHash),
                 Or(k.event.requestId, i.event.requestId), Earliest(i.event.resultBlock, k.event.resultBlock),
                 k.event.other),
           Min(at, k.availableAt), Max(i.attempts, k.attempts) + 1)
  }

  function Requeued(q: Queue, i: Item, now: int, delay: int): Queue {
    var b := i.event.betId;
    var k := if b in q.queued then Some(q.queued[b]) else None;
    Queue(q.queued[b := Retried(i, k, now + delay)], q.inFlight - {b})
  }

  predicate Has(q: Queue, b: nat) { b in q.queued || b in q.inFlight }

  predicate HasUnexaminedBefore(q: Queue, b: nat) {
    || (exists a :: a in q.queued && q.queued[a].attempts == 0 && a < b)
    || (exists a :: a in q.inFlight && q.inFlight[a].attempts == 0 && a < b)
  }

  // ---- The class ------------------------------------------------------------------------------------------------------

  class FinalizeQueue {
    var queued: map<nat, Item>
    var inFlight: map<nat, Item>

    ghost function State(): Queue
      reads this
    {
      Queue(queued, inFlight)
    }

    constructor ()
      ensures State() == Empty
    {
      queued, inFlight := map[], map[];
    }

    method Enqueue(e: Event, now: int, delay: int) returns (i: Item)
      modifies this
      ensures State() == Enqueued(old(State()), e, now, delay) && i == queued[e.betId]
    {
      if e.betId in queued {
        i := Merged(queued[e.betId], e, now + delay);
      } else {
        i := Item(e, now + delay, 0);
      }
      queued := queued[e.betId := i];
    }

    /** Hands out the first ready bet that is not in flight; None exactly when there is no such bet. */
    method NextReady(now: int) returns (r: Option<Item>)
      requires Valid(State())
      modifies this
      ensures Valid(State())
      ensures r.None? ==> State() == old(State()) && forall b :: b in queued ==> !Ready(State(), b, now)
      ensures r.Some? ==> var b := r.value.event.betId;
        IsNext(old(State()), b, now) && State() == HandedOut(old(State()), b) && r.value == old(State()).queued[b]
    {
      var todo := queued.Keys;
      r := None;
      while todo != {}
        invariant todo <= queued.Keys && State() == old(State())
        invariant r.None? ==> forall b :: b in queued && b !in todo ==> !Ready(State(), b, now)
        invariant r.Some? ==> var b := r.value.event.betId;
          && Ready(State(), b, now) && r.value == queued[b]
          && forall c :: c in queued && c !in todo && Ready(State(), c, now) ==> Before(r.value, queued[c])
        decreases todo
      {
        var b :| b in todo;
        if queued[b].availableAt <= now && b !in inFlight {
          if r.None? || Before(queued[b], r.value) {
            r := Some(queued[b]);
          }
        }
        todo := todo - {b};
      }
      if r.Some? {
        var b := r.value.event.betId;
        queued, inFlight := queued - {b}, inFlight[b := r.value];
      }
    }

    method Complete(b: nat)
      modifies this
      ensures State() == Completed(old(State()), b)
    {
      inFlight := inFlight - {b};
    }

    method Retry(i: Item, now: int, delay: int) returns (next: Item)
      modifies this
      ensures State() == Requeued(old(State()), i, now, delay) && next == queued[i.event.betId]
    {
      var b := i.event.betId;
      inFlight := inFlight - {b};
      next := Retried(i, if b in queued then Some(queued[b]) else None, now + delay);
      queued := queued[b := next];
    }

    /** Whether a bet with a lower ID is known but has never been examined. */
    method UnexaminedBefore(b: nat) returns (r: bool)
      ensures r == HasUnexaminedBefore(State(), b)
    {
      r := exists a :: a in queued && queued[a].attempts == 0 && a < b;
      if !r {
        r := exists a :: a in inFlight && inFlight[a].attempts == 0 && a < b;
      }
    }
  }

  // ---- Runs of the queue -------------------------------------------------------------------------------------------------

  datatype QueueStep =
    | DoEnqueue(e: Event, now: int, delay: int)
    | DoHandOut(b: nat, now: int)
    | DoComplete(b: nat)
    | DoRetry(b: nat, now: int, delay: int)   // retries the copy in flight

  predicate Enabled(q: Queue, s: QueueStep) {
    match s
    case DoEnqueue(_, _, _) => true
    case DoHandOut(b, now) => IsNext(q, b, now)
    case DoComplete(_) => true
    case DoRetry(b, _, _) => b in q.inFlight
  }

  function After(q: Queue, s: QueueStep): Queue
    requires Enabled(q, s)
  {
    match s
    case DoEnqueue(e, now, delay) => Enqueued(q, e, now, delay)
    case DoHandOut(b, _) => HandedOut(q, b)
    case DoComplete(b) => Completed(q, b)
    case DoRetry(b, now, delay) => Requeued(q, q.inFlight[b], now, delay)
  }

  predicate RunsTo(q: Queue, steps: seq<QueueStep>, r: Queue)
    decreases |steps|
  {
    if steps == [] then q == r
    else Enabled(q, steps[0]) && RunsTo(After(q, steps[0]), steps[1..], r)
  }

  lemma StepKeepsValid(q: Queue, s: QueueStep)
    requires Valid(q) && Enabled(q, s)
    ensures Valid(After(q, s))
  {
  }

  /** No lost wakeup: until the bet is handed out it stays queued, available no later than it ever was asked for. */
  lemma {:induction false} NoLostWakeup(q: Queue, steps: seq<QueueStep>, r: Queue, b: nat, at: int)
    requires Valid(q) && RunsTo(q, steps, r)
    requires b in q.queued && q.queued[b].availableAt <= at
    requires forall i :: 0 <= i < |steps| && steps[i].DoHandOut? ==> steps[i].b != b
    ensures b in r.queued && r.queued[b].availableAt <= at
    decreases |steps|
  {
    if steps != [] {
      var q' := After(q, steps[0]);
      StepKeepsValid(q, steps[0]);
      forall i | 0 <= i < |steps[1..]| && steps[1..][i].DoHandOut? ensures steps[1..][i].b != b {
        assert steps[1..][i] == steps[i + 1];
      }
      NoLostWakeup(q', steps[1..], r, b, at);
    }
  }

  /** In particular after an enqueue at `now` with a delay, even when an in-flight copy is retried meanwhile. */
  lemma EnqueueWakes(q: Queue, e: Event, now: int, delay: int, steps: seq<QueueStep>, r: Queue)
    requires Valid(q) && RunsTo(Enqueued(q, e, now, delay), steps, r)
    requires forall i :: 0 <= i < |steps| && steps[i].DoHandOut? ==> steps[i].b != e.betId
    ensures e.betId in r.queued && r.queued[e.betId].availableAt <= now + delay
  {
    NoLostWakeup(Enqueued(q, e, now, delay), steps, r, e.betId, now + delay);
  }

  // ---- What a copy carries -------------------------------------------------------------------------------------------------

  /**
   * Where a copy of a bet comes from: the events merged into it, oldest first, the one it was begun with, the times it was asked
   * for since it last began to wait, and the most retries on the way to it.
   */
  datatype Copy = Copy(events: seq<Event>, begun: Event, asks: seq<int>, retries: nat)

  datatype Copies = Copies(queued: map<nat, Copy>, inFlight: map<nat, Copy>)

  function EarliestOf(events: seq<Event>): Option<nat> {
    if events == [] then None else Earliest(EarliestOf(events[..|events| - 1]), events[|events| - 1].resultBlock)
  }

  /** What the latest event that has the field says. */
  function LatestOf(events: seq<Event>, field: Event -> Option<nat>): Option<nat> {
    if events == [] then None
    else
      var x := field(events[|events| - 1]);
      if x.Some? then x else LatestOf(events[..|events| - 1], field)
  }

  function Number(): Event -> Option<nat> { (e: Event) => e.blockNumber }

  function Hash(): Event -> Option<nat> { (e: Event) => e.txHash }

  function RequestOf(): Event -> Option<nat> { (e: Event) => e.requestId }

  /** The item is what its copy's origin makes it. */
  ghost predicate Carries(i: Item, c: Copy) {
    && c.events != [] && c.asks != []
    && i.availableAt in c.asks && (forall t :: t in c.asks ==> i.availableAt <= t)
    && i.event.resultBlock == EarliestOf(c.events)
    && i.event.blockNumber == LatestOf(c.events, Number()) && i.event.txHash == LatestOf(c.events, Hash())
    && i.event.requestId == LatestOf(c.events, RequestOf()) && i.event.other == c.begun.other
    && i.attempts == c.retries
  }

  function CopiesAfter(h: Copies, s: QueueStep): Copies {
    match s
    case DoEnqueue(e, now, delay) =>
      var c := if e.betId in h.queued
               then h.queued[e.betId].(events := h.queued[e.betId].events + [e], asks := h.queued[e.betId].asks + [now + delay])
               else Copy([e], e, [now + delay], 0);
      h.(queued := h.queued[e.betId := c])
    case DoHandOut(b, _) => if b in h.queued then Copies(h.queued - {b}, h.inFlight[b := h.queued[b]]) else h
    case DoComplete(b) => h.(inFlight := h.inFlight - {b})
    case DoRetry(b, now, delay) =>
      if b !in h.inFlight then h
      else
        var old_ := h.inFlight[b];
        var c := if b in h.queued
                 then Copy(old_.events + h.queued[b].events, h.queued[b].begun, h.queued[b].asks + [now + delay],
                           Max(old_.retries, h.queued[b].retries) + 1)
                 else Copy(old_.events, old_.begun, [now + delay], old_.retries + 1);
        Copies(h.queued[b := c], h.inFlight - {b})
  }

  ghost predicate Traced(q: Queue, h: Copies) {
    && q.queued.Keys == h.queued.Keys && q.inFlight.Keys == h.inFlight.Keys
    && (forall b :: b in q.queued ==> Carries(q.queued[b], h.queued[b]))
    && (forall b :: b in q.inFlight ==> Carries(q.inFlight[b], h.inFlight[b]))
  }

  lemma {:induction false} EarliestConcat(a: seq<Event>, b: seq<Event>)
    ensures EarliestOf(a + b) == Earliest(EarliestOf(a), EarliestOf(b))
  {
    if b == [] {
      assert a + b == a;
    } else {
      assert (a + b)[..|a + b| - 1] == a + b[..|b| - 1];
      EarliestConcat(a, b[..|b| - 1]);
    }
  }

  lemma {:induction false} LatestConcat(a: seq<Event>, b: seq<Event>, field: Event -> Option<nat>)
    ensures LatestOf(a + b, field) == Or(LatestOf(b, field), LatestOf(a, field))
  {
    if b == [] {
      assert a + b == a;
    } else {
      assert (a + b)[..|a + b| - 1] == a + b[..|b| - 1];
      LatestConcat(a, b[..|b| - 1], field);
    }
  }

  /** The earliest result block really is a minimum: reported by one of the events and no later than any. */
  lemma {:induction false} EarliestIsMinimum(events: seq<Event>)
    ensures EarliestOf(events).Some? ==> exists e :: e in events && e.resultBlock == EarliestOf(events)
    ensures forall e :: e in events && e.resultBlock.Some? ==> EarliestOf(events).Some? && EarliestOf(events).value <= e.resultBlock.value
  {
    if events != [] {
      EarliestIsMinimum(events[..|events| - 1]);
      assert events == events[..|events| - 1] + [events[|events| - 1]];
    }
  }

  /** Joining the events of two copies joins what they say. */
  lemma JoinsEvents(a: seq<Event>, b: seq<Event>)
    ensures EarliestOf(a + b) == Earliest(EarliestOf(a), EarliestOf(b))
    ensures LatestOf(a + b, Number()) == Or(LatestOf(b, Number()), LatestOf(a, Number()))
    ensures LatestOf(a + b, Hash()) == Or(LatestOf(b, Hash()), LatestOf(a, Hash()))
    ensures LatestOf(a + b, RequestOf()) == Or(LatestOf(b, RequestOf()), LatestOf(a, RequestOf()))
  {
    EarliestConcat(a, b);
    LatestConcat(a, b, Number());
    LatestConcat(a, b, Hash());
    LatestConcat(a, b, RequestOf());
  }

  lemma OneEvent(e: Event)
    ensures EarliestOf([e]) == e.resultBlock && LatestOf([e], Number()) == e.blockNumber
    ensures LatestOf([e], Hash()) == e.txHash && LatestOf([e], RequestOf()) == e.requestId
  {
    assert [e][..0] == [];
  }

  lemma EnqueueKeepsTraced(q: Queue, h: Copies, e: Event, now: int, delay: int)
    requires Traced(q, h)
    ensures Traced(Enqueued(q, e, now, delay), CopiesAfter(h, DoEnqueue(e, now, delay)))
  {
    hide EarliestOf, LatestOf;
    OneEvent(e);
    if e.betId in h.queued {
      JoinsEvents(h.queued[e.betId].events, [e]);
    }
  }

  lemma RetryCarries(i: Item, c: Copy, at: int)
    requires Carries(i, c)
    ensures Carries(Retried(i, None, at), Copy(c.events, c.begun, [at], c.retries + 1))
  {
  }

  lemma RetryJoins(i: Item, c: Copy, k: Item, d: Copy, at: int)
    requires Carries(i, c) && Carries(k, d)
    ensures Carries(Retried(i, Some(k), at), Copy(c.events + d.events, d.begun, d.asks + [at], Max(c.retries, d.retries) + 1))
  {
    hide EarliestOf, LatestOf;
    JoinsEvents(c.events, d.events);
  }

  lemma RetryKeepsTraced(q: Queue, h: Copies, b: nat, now: int, delay: int)
    requires Valid(q) && Traced(q, h) && b in q.inFlight
    ensures Traced(Requeued(q, q.inFlight[b], now, delay), CopiesAfter(h, DoRetry(b, now, delay)))
  {
    hide Carries, Retried;
    if b in h.queued {
      RetryJoins(q.inFlight[b], h.inFlight[b], q.queued[b], h.queued[b], now + delay);
    } else {
      RetryCarries(q.inFlight[b], h.inFlight[b], now + delay);
    }
  }

  lemma StepKeepsTraced(q: Queue, h: Copies, s: QueueStep)
    requires Valid(q) && Enabled(q, s) && Traced(q, h)
    ensures Traced(After(q, s), CopiesAfter(h, s))
  {
    match s {
      case DoEnqueue(e, now, delay) => EnqueueKeepsTraced(q, h, e, now, delay);
      case DoHandOut(_, _) => hide Carries;
      case DoComplete(_) => hide Carries;
      case DoRetry(b, now, delay) => RetryKeepsTraced(q, h, b, now, delay);
    }
  }

  function CopiesOf(h: Copies, steps: seq<QueueStep>): Copies
    decreases |steps|
  {
    if steps == [] then h else CopiesOf(CopiesAfter(h, steps[0]), steps[1..])
  }

  const NoCopies: Copies := Copies(map[], map[])

  lemma {:induction false} RunKeepsTraced(q: Queue, h: Copies, steps: seq<QueueStep>, r: Queue)
    requires Valid(q) && Traced(q, h) && RunsTo(q, steps, r)
    ensures Traced(r, CopiesOf(h, steps))
    decreases |steps|
  {
    hide Valid, Traced, CopiesAfter, After, Enabled;
    if steps != [] {
      StepKeepsValid(q, steps[0]);
      StepKeepsTraced(q, h, steps[0]);
      RunKeepsTraced(After(q, steps[0]), CopiesAfter(h, steps[0]), steps[1..], r);
    }
  }

  /** Over any run from an empty queue every copy carries exactly what its events, its asks and its retries make it. */
  lemma RunIsTraced(steps: seq<QueueStep>, r: Queue)
    requires RunsTo(Empty, steps, r)
    ensures Traced(r, CopiesOf(NoCopies, steps))
  {
    RunKeepsTraced(Empty, NoCopies, steps, r);
  }

  predicate UnretriedBefore(h: Copies, b: nat) {
    || (exists a :: a in h.queued && h.queued[a].retries == 0 && a < b)
    || (exists a :: a in h.inFlight && h.inFlight[a].retries == 0 && a < b)
  }

  lemma RetriesAre(q: Queue, h: Copies)
    requires Traced(q, h)
    ensures q.queued.Keys == h.queued.Keys && q.inFlight.Keys == h.inFlight.Keys
    ensures forall b :: b in q.queued ==> q.queued[b].attempts == h.queued[b].retries
    ensures forall b :: b in q.inFlight ==> q.inFlight[b].attempts == h.inFlight[b].retries
  {
  }

  /** So exactly the copies never retried count as unexamined. */
  lemma UnexaminedIff(steps: seq<QueueStep>, r: Queue, b: nat)
    requires RunsTo(Empty, steps, r)
    ensures HasUnexaminedBefore(r, b) <==> UnretriedBefore(CopiesOf(NoCopies, steps), b)
  {
    hide Traced, CopiesOf, RunsTo;
    RunIsTraced(steps, r);
    RetriesAre(r, CopiesOf(NoCopies, steps));
  }

  /** What can happen at all: enqueues and completions always, hand-outs of the next ready bet, retries of what is in flight. */
  lemma EnabledIff(q: Queue, s: QueueStep)
    ensures s.DoEnqueue? || s.DoComplete? ==> Enabled(q, s)
    ensures s.DoRetry? ==> (Enabled(q, s) <==> s.b in q.inFlight)
  {
  }
}
