/**
 * The governance timelock index (governance.ts): rows built from an event log by position-guarded updates. What a row
 * means is said over the log alone; the index reaches it in any chunking and under any replay.
 */
module Timelock {
  import opened Binary

  /** Hex strings and addresses, compared only for equality. */
  type Hex = nat

  const ZERO_BYTES32: Hex := 0
  const MAX_BATCH_INDEX: int := 2_147_483_647

  datatype Position = Position(block: int, logIndex: int)

  predicate IsAfter(a: Position, b: Position) {
    a.block > b.block || (a.block == b.block && a.logIndex > b.logIndex)
  }

  datatype Mark = Mark(pos: Position, tx: Hex)

  /** An operation of one timelock on one chain, and one of its calls. */
  datatype Op = Op(chain: int, timelock: Hex, id: Hex)
  datatype Key = Key(op: Op, index: int)

  datatype Call = Call(target: Hex, value: int, data: Hex, predecessor: Hex, delay: int)

  datatype Event =
    | Scheduled(op: Op, mark: Mark, index: int, call: Call, at: int, readyAt: int)
    | Salted(op: Op, mark: Mark, salt: Hex)
    | Executed(op: Op, mark: Mark, index: int)
    | Cancelled(op: Op, mark: Mark)
    | DelayChanged(chain: int, timelock: Hex, mark: Mark, seenAt: Option<int>, oldDuration: int, newDuration: int)

  function Chain(e: Event): int { if e.DelayChanged? then e.chain else e.op.chain }

  datatype Row = Row(call: Call, scheduled: Mark, at: int, readyAt: int, salt: Hex, executed: Option<Mark>, cancelled: Option<Mark>)

  datatype DelayKey = DelayKey(chain: int, tx: Hex, logIndex: int)
  datatype DelayChange = DelayChange(timelock: Hex, mark: Mark, seenAt: Option<int>, oldDuration: int, newDuration: int)

  datatype Index = Index(operations: map<Key, Row>, delayChanges: map<DelayKey, DelayChange>)

  const EMPTY: Index := Index(map[], map[])

  // ---- One event -------------------------------------------------------------------------------------------------------

  predicate Schedules(e: Event, k: Key) { e.Scheduled? && e.op == k.op && e.index == k.index }
  predicate Executes(e: Event, k: Key) { e.Executed? && e.op == k.op && e.index == k.index }
  predicate Cancels(e: Event, k: Key) { e.Cancelled? && e.op == k.op }
  predicate Salts(e: Event, k: Key) { e.Salted? && e.op == k.op }

  function KeyOfDelay(e: Event): DelayKey
    requires e.DelayChanged?
  {
    DelayKey(e.chain, e.mark.tx, e.mark.pos.logIndex)
  }

  function ChangeOf(e: Event): DelayChange
    requires e.DelayChanged?
  {
    DelayChange(e.timelock, e.mark, e.seenAt, e.oldDuration, e.newDuration)
  }

  /** Keeps a mark only when it is strictly after the schedule. */
  function Kept(m: Option<Mark>, scheduled: Position): Option<Mark> {
    if m.Some? && IsAfter(m.value.pos, scheduled) then m else None
  }

  /** The later mark, when the new one counts for the schedule. */
  function Marked(m: Option<Mark>, new_: Mark, scheduled: Position): Option<Mark> {
    if IsAfter(new_.pos, scheduled) && (m.None? || IsAfter(new_.pos, m.value.pos)) then Some(new_) else m
  }

  function Rescheduled(r: Option<Row>, e: Event): Row
    requires e.Scheduled?
  {
    match r
    case None => Row(e.call, e.mark, e.at, e.readyAt, ZERO_BYTES32, None, None)
    case Some(row) =>
      if !IsAfter(e.mark.pos, row.scheduled.pos) then row
      else Row(e.call, e.mark, e.at, e.readyAt, row.salt, Kept(row.executed, e.mark.pos), Kept(row.cancelled, e.mark.pos))
  }

  /** A row under an event of the whole operation. */
  function Touched(row: Row, e: Event): Row {
    if e.Salted? then row.(salt := e.salt)
    else if e.Cancelled? then row.(cancelled := Marked(row.cancelled, e.mark, row.scheduled.pos))
    else row
  }

  function TouchedAll(rows: map<Key, Row>, e: Event): map<Key, Row>
    requires !e.DelayChanged?
  {
    map k | k in rows :: if k.op == e.op then Touched(rows[k], e) else rows[k]
  }

  function Applied(s: Index, e: Event): Index {
    match e
    case Scheduled(op, _, index, _, _, _) =>
      var k := Key(op, index);
      s.(operations := s.operations[k := Rescheduled(if k in s.operations then Some(s.operations[k]) else None, e)])
    case Salted(_, _, _) => s.(operations := TouchedAll(s.operations, e))
    case Executed(op, mark, index) =>
      var k := Key(op, index);
      if k !in s.operations then s
      else
        var row := s.operations[k];
        s.(operations := s.operations[k := row.(executed := Marked(row.executed, mark, row.scheduled.pos))])
    case Cancelled(_, _) => s.(operations := TouchedAll(s.operations, e))
    case DelayChanged(_, _, _, _, _, _) =>
      if KeyOfDelay(e) in s.delayChanges then s
      else s.(delayChanges := s.delayChanges[KeyOfDelay(e) := ChangeOf(e)])
  }

  function AppliedAll(s: Index, events: seq<Event>): Index {
    if events == [] then s else Applied(AppliedAll(s, events[..|events| - 1]), events[|events| - 1])
  }

  // ---- What the rows mean ------------------------------------------------------------------------------------------------

  /** `e` is the latest event of the log to schedule `k`. */
  ghost predicate LatestSchedule(log: set<Event>, k: Key, e: Event) {
    e in log && Schedules(e, k) && forall e' :: e' in log && Schedules(e', k) ==> !IsAfter(e'.mark.pos, e.mark.pos)
  }

  /** `m` marks the latest execution of `k` strictly after `since`; None when there is none. */
  ghost predicate LatestExecution(log: set<Event>, k: Key, since: Position, m: Option<Mark>) {
    && (m.Some? ==> exists e :: e in log && Executes(e, k) && e.mark == m.value && IsAfter(e.mark.pos, since))
    && forall e :: e in log && Executes(e, k) && IsAfter(e.mark.pos, since) ==> m.Some? && !IsAfter(e.mark.pos, m.value.pos)
  }

  ghost predicate LatestCancellation(log: set<Event>, k: Key, since: Position, m: Option<Mark>) {
    && (m.Some? ==> exists e :: e in log && Cancels(e, k) && e.mark == m.value && IsAfter(e.mark.pos, since))
    && forall e :: e in log && Cancels(e, k) && IsAfter(e.mark.pos, since) ==> m.Some? && !IsAfter(e.mark.pos, m.value.pos)
  }

  /** The operation's salt, or zero when the log has none for it. */
  ghost predicate SaltOf(log: set<Event>, k: Key, salt: Hex) {
    && (forall e :: e in log && Salts(e, k) ==> e.salt == salt)
    && ((exists e :: e in log && Salts(e, k)) || salt == ZERO_BYTES32)
  }

  ghost predicate DescribesSchedule(log: set<Event>, k: Key, r: Row) {
    exists e :: LatestSchedule(log, k, e) && r.call == e.call && r.scheduled == e.mark && r.at == e.at && r.readyAt == e.readyAt
  }

  /** All of a row but its salt: the latest schedule, and the marks strictly after it. */
  ghost predicate DescribesCall(log: set<Event>, k: Key, r: Row) {
    && DescribesSchedule(log, k, r)
    && LatestExecution(log, k, r.scheduled.pos, r.executed)
    && LatestCancellation(log, k, r.scheduled.pos, r.cancelled)
  }

  ghost predicate Describes(log: set<Event>, k: Key, r: Row) {
    DescribesCall(log, k, r) && SaltOf(log, k, r.salt)
  }

  /** The rows, their salts apart, are exactly those of the log. */
  ghost predicate CallsOf(log: set<Event>, operations: map<Key, Row>) {
    && (forall e: Event :: e in log && e.Scheduled? ==> Key(e.op, e.index) in operations)
    && (forall k :: k in operations ==> DescribesCall(log, k, operations[k]))
  }

  /** The rows are exactly those of the log. */
  ghost predicate RowsOf(log: set<Event>, operations: map<Key, Row>) {
    && (forall e: Event :: e in log && e.Scheduled? ==> Key(e.op, e.index) in operations)
    && (forall k :: k in operations ==> Describes(log, k, operations[k]))
  }

  ghost predicate DelaysOf(log: set<Event>, changes: map<DelayKey, DelayChange>) {
    && (forall e: Event :: e in log && e.DelayChanged? ==> DelayKey(e.chain, e.mark.tx, e.mark.pos.logIndex) in changes)
    && (forall d :: d in changes ==> Reported(log, d, changes[d]))
  }

  ghost predicate IndexOf(log: set<Event>, s: Index) { RowsOf(log, s.operations) && DelaysOf(log, s.delayChanges) }

  /** One event per position, and per transaction log, of a chain. */
  ghost predicate ChainLog(log: set<Event>) {
    && (forall a, b :: a in log && b in log && Chain(a) == Chain(b) && a.mark.pos == b.mark.pos ==> a == b)
    && (forall a: Event, b: Event :: a in log && b in log && a.DelayChanged? && b.DelayChanged? && KeyOfDelay(a) == KeyOfDelay(b) ==> a == b)
  }

  /**
   * The emission order of TimelockController 5.5: an operation ID fixes its salt, and CallSalt follows a CallScheduled of
   * each of the operation's calls.
   */
  ghost predicate SaltsFollow(log: set<Event>) {
    && (forall a: Event, b: Event :: a in log && b in log && a.Salted? && b.Salted? && a.op == b.op ==> a.salt == b.salt)
    && (forall a, k :: a in log && Salts(a, k) && HasSchedule(log, k) ==> ScheduledBefore(log, k, a.mark.pos))
  }

  ghost predicate HasSchedule(log: set<Event>, k: Key) {
    exists e :: e in log && Schedules(e, k)
  }

  ghost predicate ScheduledBefore(log: set<Event>, k: Key, pos: Position) {
    exists e :: e in log && Schedules(e, k) && IsAfter(pos, e.mark.pos)
  }

  /** `e` is later than every event the log has of its chain. */
  ghost predicate Later(log: set<Event>, e: Event) {
    forall a :: a in log && Chain(a) == Chain(e) ==> IsAfter(e.mark.pos, a.mark.pos)
  }

  // ---- A replayed event changes nothing ------------------------------------------------------------------------------------

  lemma ReplayedDelay(log: set<Event>, s: Index, e: Event)
    requires DelaysOf(log, s.delayChanges) && e in log
    ensures Applied(s, e).delayChanges == s.delayChanges
  {
  }

  lemma ReplayedCancellation(log: set<Event>, s: Index, e: Event, k: Key)
    requires CallsOf(log, s.operations) && e in log && Cancels(e, k) && k in s.operations
    ensures Applied(s, e).operations[k] == s.operations[k]
  {
    assert DescribesCall(log, k, s.operations[k]);
  }

  /** Whatever the salts: a replayed schedule, execution or cancellation leaves every row as it is. */
  lemma ReplayedCalls(log: set<Event>, s: Index, e: Event)
    requires CallsOf(log, s.operations) && e in log && !e.Salted?
    ensures Applied(s, e).operations == s.operations
  {
    match e
    case Scheduled(op, _, index, _, _, _) =>
      assert Schedules(e, Key(op, index)) && Key(op, index) in s.operations;
    case Executed(op, _, index) =>
      assert Executes(e, Key(op, index));
    case DelayChanged(_, _, _, _, _, _) =>
    case Cancelled(_, _) =>
      forall k | k in s.operations ensures Applied(s, e).operations[k] == s.operations[k] {
        if k.op == e.op {
          ReplayedCancellation(log, s, e, k);
        }
      }
  }

  /** A replayed salt leaves every row as it is exactly when the rows of its operation have that salt. */
  lemma ReplayedSalt(s: Index, e: Event)
    requires e.Salted?
    ensures Applied(s, e) == s <==> forall k :: k in s.operations && Salts(e, k) ==> s.operations[k].salt == e.salt
  {
    if forall k :: k in s.operations && Salts(e, k) ==> s.operations[k].salt == e.salt {
      assert Applied(s, e).operations == s.operations;
    }
    if Applied(s, e) == s {
      forall k | k in s.operations && Salts(e, k) ensures s.operations[k].salt == e.salt {
        assert Applied(s, e).operations[k].salt == e.salt;
      }
    }
  }

  lemma RowsAreCalls(log: set<Event>, operations: map<Key, Row>)
    requires RowsOf(log, operations)
    ensures CallsOf(log, operations)
  {
  }

  /** Any event of the log, applied again at any time, leaves every row as it is. */
  lemma ReplayedEventChangesNothing(log: set<Event>, s: Index, e: Event)
    requires IndexOf(log, s) && e in log
    ensures Applied(s, e) == s
  {
    if e.Salted? {
      forall k | k in s.operations && Salts(e, k) ensures s.operations[k].salt == e.salt {
        assert Describes(log, k, s.operations[k]);
      }
      ReplayedSalt(s, e);
    } else {
      RowsAreCalls(log, s.operations);
      ReplayedCalls(log, s, e);
      ReplayedDelay(log, s, e);
    }
  }

  // ---- The next event of the chain extends the rows --------------------------------------------------------------------------

  /** An event that neither schedules nor marks a call leaves its description standing, whatever it does to its salt. */
  lemma OtherCallStands(log: set<Event>, k: Key, r: Row, e: Event, salt: Hex)
    requires DescribesCall(log, k, r)
    requires !Schedules(e, k) && !Executes(e, k) && !Cancels(e, k)
    ensures DescribesCall(log + {e}, k, r.(salt := salt))
  {
    var first :| LatestSchedule(log, k, first) && r.call == first.call && r.scheduled == first.mark && r.at == first.at && r.readyAt == first.readyAt;
    assert LatestSchedule(log + {e}, k, first);
  }

  /** A first schedule of a call precedes every salt of its operation. */
  lemma FirstScheduleHasNoSalt(log: set<Event>, k: Key, e: Event, a: Event)
    requires Later(log, e) && Schedules(e, k) && SaltsFollow(log + {e}) && !HasSchedule(log, k)
    requires a in log
    ensures !Salts(a, k)
  {
    assert e in log + {e} && a in log + {e} && HasSchedule(log + {e}, k);
    assert Salts(a, k) ==> ScheduledBefore(log + {e}, k, a.mark.pos);
  }

  /** A later schedule describes the row alone: every earlier mark is gone. */
  lemma RescheduleDescribes(log: set<Event>, k: Key, r: Option<Row>, e: Event)
    requires Later(log, e) && Schedules(e, k) && (r.Some? <==> HasSchedule(log, k))
    requires r.Some? ==> DescribesCall(log, k, r.value)
    ensures DescribesCall(log + {e}, k, Rescheduled(r, e))
  {
    assert LatestSchedule(log + {e}, k, e);
    if r.Some? {
      var last :| LatestSchedule(log, k, last) && r.value.scheduled == last.mark;
    }
  }

  lemma MarkDescribes(log: set<Event>, k: Key, r: Row, e: Event)
    requires Later(log, e) && DescribesCall(log, k, r) && (Executes(e, k) || Cancels(e, k))
    ensures Executes(e, k) ==> DescribesCall(log + {e}, k, r.(executed := Marked(r.executed, e.mark, r.scheduled.pos)))
    ensures Cancels(e, k) ==> DescribesCall(log + {e}, k, r.(cancelled := Marked(r.cancelled, e.mark, r.scheduled.pos)))
  {
    var first :| LatestSchedule(log, k, first) && r.call == first.call && r.scheduled == first.mark && r.at == first.at && r.readyAt == first.readyAt;
    assert LatestSchedule(log + {e}, k, first);
    assert e in log + {e};
  }

  lemma ScheduleStep(log: set<Event>, s: Index, e: Event, k: Key)
    requires CallsOf(log, s.operations) && Later(log, e) && Schedules(e, k)
    ensures DescribesCall(log + {e}, k, Applied(s, e).operations[k])
  {
    if k in s.operations {
      var a :| LatestSchedule(log, k, a);
    } else {
      assert !HasSchedule(log, k);
    }
    RescheduleDescribes(log, k, if k in s.operations then Some(s.operations[k]) else None, e);
  }

  lemma CallStep(log: set<Event>, s: Index, e: Event, k: Key)
    requires CallsOf(log, s.operations) && Later(log, e) && k in Applied(s, e).operations
    ensures DescribesCall(log + {e}, k, Applied(s, e).operations[k])
  {
    if Schedules(e, k) {
      ScheduleStep(log, s, e, k);
    } else if Executes(e, k) || Cancels(e, k) {
      MarkDescribes(log, k, s.operations[k], e);
    } else {
      OtherCallStands(log, k, s.operations[k], e, Applied(s, e).operations[k].salt);
    }
  }

  /** Applying the next event of the chain gives the calls of the longer log, whatever the order of its salts. */
  lemma CallsExtend(log: set<Event>, s: Index, e: Event)
    requires CallsOf(log, s.operations) && Later(log, e)
    ensures CallsOf(log + {e}, Applied(s, e).operations)
  {
    forall k | k in Applied(s, e).operations ensures DescribesCall(log + {e}, k, Applied(s, e).operations[k]) {
      CallStep(log, s, e, k);
    }
  }

  lemma SaltStands(log: set<Event>, k: Key, salt: Hex, e: Event)
    requires SaltOf(log, k, salt) && !Salts(e, k)
    ensures SaltOf(log + {e}, k, salt)
  {
    if exists a :: a in log && Salts(a, k) {
      var a :| a in log && Salts(a, k);
      assert a in log + {e};
    }
  }

  lemma SaltRepeats(log: set<Event>, k: Key, e: Event)
    requires Salts(e, k) && SaltsFollow(log + {e})
    ensures SaltOf(log + {e}, k, e.salt)
  {
    assert e in log + {e};
  }

  /** Only a salt of its operation changes the salt of a row. */
  lemma SaltAfter(s: Index, e: Event, k: Key)
    requires k in s.operations
    ensures k in Applied(s, e).operations
    ensures Applied(s, e).operations[k].salt == if Salts(e, k) then e.salt else s.operations[k].salt
  {
  }

  lemma SaltStep(log: set<Event>, s: Index, e: Event, k: Key)
    requires RowsOf(log, s.operations) && Later(log, e) && SaltsFollow(log + {e}) && k in Applied(s, e).operations
    ensures SaltOf(log + {e}, k, Applied(s, e).operations[k].salt)
  {
    hide Applied, SaltOf, SaltsFollow, Later, DescribesCall;
    if k in s.operations {
      SaltAfter(s, e, k);
      assert Describes(log, k, s.operations[k]);
      if Salts(e, k) {
        SaltRepeats(log, k, e);
      } else {
        SaltStands(log, k, s.operations[k].salt, e);
      }
    } else {
      NewCallHasNoSalt(log, s, e, k);
    }
  }

  lemma NewCallHasNoSalt(log: set<Event>, s: Index, e: Event, k: Key)
    requires RowsOf(log, s.operations) && Later(log, e) && SaltsFollow(log + {e})
    requires k !in s.operations && k in Applied(s, e).operations
    ensures Applied(s, e).operations[k].salt == ZERO_BYTES32 && forall a :: a in log + {e} ==> !Salts(a, k)
    ensures SaltOf(log + {e}, k, ZERO_BYTES32)
  {
    assert Schedules(e, k) && !HasSchedule(log, k);
    forall a | a in log ensures !Salts(a, k) {
      FirstScheduleHasNoSalt(log, k, e, a);
    }
  }

  /** Some delay change of the log has this key and value. */
  ghost predicate Reported(log: set<Event>, d: DelayKey, c: DelayChange) {
    exists e: Event :: && e in log && e.DelayChanged?
      && d.chain == e.chain && d.tx == e.mark.tx && d.logIndex == e.mark.pos.logIndex
      && c.timelock == e.timelock && c.mark == e.mark && c.seenAt == e.seenAt
      && c.oldDuration == e.oldDuration && c.newDuration == e.newDuration
  }

  lemma DelayStep(log: set<Event>, s: Index, e: Event)
    requires DelaysOf(log, s.delayChanges)
    ensures DelaysOf(log + {e}, Applied(s, e).delayChanges)
  {
    var log', changes := log + {e}, Applied(s, e).delayChanges;
    forall d | d in changes ensures Reported(log', d, changes[d]) {
      if d in s.delayChanges {
        assert Reported(log, d, s.delayChanges[d]);
        var a: Event :| a in log && a.DelayChanged? && KeyOfDelay(a) == d && s.delayChanges[d] == ChangeOf(a);
        assert a in log';
      } else {
        assert e in log' && KeyOfDelay(e) == d && changes[d] == ChangeOf(e);
      }
    }
  }

  /** Applying the next event of the chain gives the rows of the longer log. */
  lemma NextEventExtends(log: set<Event>, s: Index, e: Event)
    requires IndexOf(log, s) && Later(log, e) && SaltsFollow(log + {e})
    ensures IndexOf(log + {e}, Applied(s, e))
  {
    RowsAreCalls(log, s.operations);
    CallsExtend(log, s, e);
    forall k | k in Applied(s, e).operations ensures Describes(log + {e}, k, Applied(s, e).operations[k]) {
      SaltStep(log, s, e, k);
    }
    DelayStep(log, s, e);
  }

  // ---- Writes ----------------------------------------------------------------------------------------------------------------

  function Elements(events: seq<Event>): set<Event> { set e | e in events }

  ghost predicate Ordered(events: seq<Event>) {
    forall i, j :: 0 <= i < j < |events| ==> !IsAfter(events[i].mark.pos, events[j].mark.pos)
  }

  /** Places an event after those it does not precede, as a stable sort does. */
  function Placed(events: seq<Event>, e: Event): seq<Event> {
    if events == [] || !IsAfter(events[|events| - 1].mark.pos, e.mark.pos) then events + [e]
    else Placed(events[..|events| - 1], e) + [events[|events| - 1]]
  }

  function InOrder(events: seq<Event>): seq<Event> {
    if events == [] then [] else Placed(InOrder(events[..|events| - 1]), events[|events| - 1])
  }

  lemma {:induction false} PlacedElements(events: seq<Event>, e: Event)
    ensures multiset(Placed(events, e)) == multiset(events) + multiset{e}
  {
    if events != [] && IsAfter(events[|events| - 1].mark.pos, e.mark.pos) {
      var front, last := events[..|events| - 1], events[|events| - 1];
      PlacedElements(front, e);
      assert events == front + [last];
    }
  }

  lemma OrderedSnoc(front: seq<Event>, last: Event)
    requires Ordered(front) && forall a :: a in front ==> !IsAfter(a.mark.pos, last.mark.pos)
    ensures Ordered(front + [last])
  {
  }

  lemma {:induction false} PlacedIsOrdered(events: seq<Event>, e: Event)
    requires Ordered(events)
    ensures Ordered(Placed(events, e))
  {
    if events == [] {
      OrderedSnoc(events, e);
    } else {
      var front, last := events[..|events| - 1], events[|events| - 1];
      forall a | a in events ensures !IsAfter(a.mark.pos, last.mark.pos) {
      }
      if IsAfter(last.mark.pos, e.mark.pos) {
        PlacedIsOrdered(front, e);
        PlacedElements(front, e);
        forall a | a in Placed(front, e) ensures !IsAfter(a.mark.pos, last.mark.pos) {
          assert a in multiset(front) + multiset{e};
        }
        OrderedSnoc(Placed(front, e), last);
      } else {
        OrderedSnoc(events, e);
      }
    }
  }

  lemma NothingIsOrdered()
    ensures Ordered([])
  {
  }

  /** Sorting a batch loses and invents nothing. */
  lemma {:induction false} InOrderIsOrdered(events: seq<Event>)
    ensures Ordered(InOrder(events)) && multiset(InOrder(events)) == multiset(events)
  {
    hide Ordered, Placed;
    NothingIsOrdered();
    if events != [] {
      InOrderIsOrdered(events[..|events| - 1]);
      PlacedIsOrdered(InOrder(events[..|events| - 1]), events[|events| - 1]);
      PlacedElements(InOrder(events[..|events| - 1]), events[|events| - 1]);
      assert events == events[..|events| - 1] + [events[|events| - 1]];
    }
  }

  lemma InOrderElements(events: seq<Event>)
    ensures Elements(InOrder(events)) == Elements(events)
  {
    InOrderIsOrdered(events);
    forall e ensures e in InOrder(events) <==> e in events {
      assert e in multiset(InOrder(events)) <==> e in multiset(events);
    }
  }

  /** Each event of the batch is already in the log, or later than all of its chain. */
  ghost predicate Extends(log: set<Event>, batch: set<Event>) {
    forall e :: e in batch ==> e in log || Later(log, e)
  }

  /** A log cut at a point of each chain keeps the emission order of its salts. */
  lemma SaltsFollowCut(full: set<Event>, cut: set<Event>)
    requires SaltsFollow(full) && cut <= full
    requires forall a, b :: a in cut && b in full && Chain(a) == Chain(b) && IsAfter(a.mark.pos, b.mark.pos) ==> b in cut
    ensures SaltsFollow(cut)
  {
    forall a, k | a in cut && Salts(a, k) && HasSchedule(cut, k) ensures ScheduledBefore(cut, k, a.mark.pos) {
      var b :| b in cut && Schedules(b, k);
      assert b in full && HasSchedule(full, k) && ScheduledBefore(full, k, a.mark.pos);
      var c :| c in full && Schedules(c, k) && IsAfter(a.mark.pos, c.mark.pos);
      assert c in cut;
    }
  }

  /** The first `n` events of an ordered batch cut the extended log at a point of each chain. */
  lemma PrefixCuts(log: set<Event>, events: seq<Event>, n: nat, a: Event, b: Event)
    requires Ordered(events) && Extends(log, Elements(events)) && n <= |events|
    requires a in log + Elements(events[..n]) && b in log + Elements(events)
    requires Chain(a) == Chain(b) && IsAfter(a.mark.pos, b.mark.pos)
    ensures b in log + Elements(events[..n])
  {
    if b !in log {
      var m :| 0 <= m < |events| && events[m] == b;
      assert b in Elements(events) && Later(log, b);
      var j :| 0 <= j < n && events[j] == a;
      assert m < n;
      assert events[..n][m] == b;
    }
  }

  lemma LaterInOrder(log: set<Event>, events: seq<Event>, n: nat)
    requires Ordered(events) && Extends(log, Elements(events)) && ChainLog(log + Elements(events))
    requires n < |events| && events[n] !in log + Elements(events[..n])
    ensures Later(log + Elements(events[..n]), events[n])
  {
    var e := events[n];
    assert e in Elements(events) && Later(log, e);
    forall a | a in log + Elements(events[..n]) && Chain(a) == Chain(e) ensures IsAfter(e.mark.pos, a.mark.pos) {
      if a !in log {
        var m :| 0 <= m < n && events[m] == a;
        assert a in log + Elements(events) && a.mark.pos != e.mark.pos;
      }
    }
  }

  /** An ordered batch that may be written after the log. */
  ghost predicate Writable(log: set<Event>, events: seq<Event>) {
    && Ordered(events) && Extends(log, Elements(events))
    && ChainLog(log + Elements(events)) && SaltsFollow(log + Elements(events))
  }

  /** One event of an ordered batch: it is a replay, or the next of its chain. */
  lemma BatchStep(log: set<Event>, s: Index, events: seq<Event>, n: nat)
    requires Writable(log, events) && n < |events| && IndexOf(log + Elements(events[..n]), s)
    ensures IndexOf(log + Elements(events[..n]) + {events[n]}, Applied(s, events[n]))
  {
    var e, now := events[n], log + Elements(events[..n]);
    if e in now {
      ReplayedEventChangesNothing(now, s, e);
      assert now + {e} == now;
    } else {
      LaterInOrder(log, events, n);
      PrefixKeepsSalts(log, events, n + 1);
      assert log + Elements(events[..n + 1]) == now + {e};
      NextEventExtends(now, s, e);
    }
  }

  lemma PrefixKeepsSalts(log: set<Event>, events: seq<Event>, n: nat)
    requires Ordered(events) && Extends(log, Elements(events)) && n <= |events|
    requires SaltsFollow(log + Elements(events))
    ensures SaltsFollow(log + Elements(events[..n]))
  {
    var full, cut := log + Elements(events), log + Elements(events[..n]);
    forall a, b | a in cut && b in full && Chain(a) == Chain(b) && IsAfter(a.mark.pos, b.mark.pos) ensures b in cut {
      PrefixCuts(log, events, n, a, b);
    }
    SaltsFollowCut(full, cut);
  }

  lemma PrefixGrows(log: set<Event>, s: Index, events: seq<Event>, n: nat)
    requires n < |events|
    ensures log + Elements(events[..n + 1]) == log + Elements(events[..n]) + {events[n]}
    ensures AppliedAll(s, events[..n + 1]) == Applied(AppliedAll(s, events[..n]), events[n])
  {
    assert events[..n + 1][..n] == events[..n];
  }

  lemma NothingApplied(log: set<Event>, s: Index, events: seq<Event>)
    ensures log + Elements(events[..0]) == log && AppliedAll(s, events[..0]) == s
  {
  }

  lemma {:induction false} OrderedBatchExtends(log: set<Event>, s: Index, events: seq<Event>, n: nat)
    requires IndexOf(log, s) && Writable(log, events) && n <= |events|
    ensures IndexOf(log + Elements(events[..n]), AppliedAll(s, events[..n]))
  {
    hide IndexOf, Writable, AppliedAll, Elements, Applied;
    if n == 0 {
      NothingApplied(log, s, events);
    } else {
      OrderedBatchExtends(log, s, events, n - 1);
      BatchStep(log, AppliedAll(s, events[..n - 1]), events, n - 1);
      PrefixGrows(log, s, events, n - 1);
    }
  }

  /** What one write must be given: new events of a chain come after all it wrote, old ones may repeat, in any order. */
  ghost predicate GoodBatch(log: set<Event>, batch: seq<Event>) {
    && Extends(log, Elements(batch))
    && ChainLog(log + Elements(batch)) && SaltsFollow(log + Elements(batch))
  }

  lemma WriteExtends(log: set<Event>, s: Index, batch: seq<Event>)
    requires IndexOf(log, s) && GoodBatch(log, batch)
    ensures IndexOf(log + Elements(batch), AppliedAll(s, InOrder(batch)))
  {
    InOrderIsOrdered(batch);
    InOrderElements(batch);
    var events := InOrder(batch);
    OrderedBatchExtends(log, s, events, |events|);
    assert events[..|events|] == events;
  }

  ghost predicate GoodWrites(log: set<Event>, batches: seq<seq<Event>>)
    decreases |batches|
  {
    batches == [] || (GoodBatch(log, batches[0]) && GoodWrites(log + Elements(batches[0]), batches[1..]))
  }

  function Written(log: set<Event>, batches: seq<seq<Event>>): set<Event>
    decreases |batches|
  {
    if batches == [] then log else Written(log + Elements(batches[0]), batches[1..])
  }

  function WrittenAll(s: Index, batches: seq<seq<Event>>): Index
    decreases |batches|
  {
    if batches == [] then s else WrittenAll(AppliedAll(s, InOrder(batches[0])), batches[1..])
  }

  /** After any writes, overlapping and repeated as they may be, the rows are those of everything written. */
  lemma {:induction false} RowsFollowTheLog(log: set<Event>, s: Index, batches: seq<seq<Event>>)
    requires IndexOf(log, s) && GoodWrites(log, batches)
    ensures IndexOf(Written(log, batches), WrittenAll(s, batches))
    decreases |batches|
  {
    if batches != [] {
      WriteExtends(log, s, batches[0]);
      RowsFollowTheLog(log + Elements(batches[0]), AppliedAll(s, InOrder(batches[0])), batches[1..]);
    }
  }

  /** Rewriting events already in the log, whichever and in whatever order, leaves every row unchanged. */
  lemma {:induction false} RewriteChangesNothing(log: set<Event>, s: Index, events: seq<Event>)
    requires IndexOf(log, s) && Elements(events) <= log
    ensures AppliedAll(s, events) == s
  {
    if events != [] {
      var front, e := events[..|events| - 1], events[|events| - 1];
      assert e in Elements(events);
      assert Elements(front) <= log by {
        forall a | a in front ensures a in log {
          assert a in Elements(events);
        }
      }
      RewriteChangesNothing(log, s, front);
      ReplayedEventChangesNothing(log, s, e);
    }
  }

  // ---- Exactly when replays are harmless -------------------------------------------------------------------------------------

  /** Each event is later than all before it of its chain. */
  ghost predicate InEmissionOrder(log: seq<Event>) {
    forall i :: 0 <= i < |log| ==> Later(Elements(log[..i]), log[i])
  }

  lemma FrontInOrder(log: seq<Event>)
    requires InEmissionOrder(log) && log != []
    ensures InEmissionOrder(log[..|log| - 1]) && Later(Elements(log[..|log| - 1]), log[|log| - 1])
    ensures Elements(log) == Elements(log[..|log| - 1]) + {log[|log| - 1]}
  {
    var front := log[..|log| - 1];
    assert log == front + [log[|log| - 1]];
    forall i | 0 <= i < |front| ensures Later(Elements(front[..i]), front[i]) {
      assert front[..i] == log[..i];
    }
  }

  /** Written in emission order from nothing, the calls are those of the log, whatever the salts do. */
  lemma {:induction false} CallsFollowTheLog(log: seq<Event>)
    requires InEmissionOrder(log)
    ensures CallsOf(Elements(log), AppliedAll(EMPTY, log).operations)
    ensures DelaysOf(Elements(log), AppliedAll(EMPTY, log).delayChanges)
  {
    if log != [] {
      var front, last := log[..|log| - 1], log[|log| - 1];
      FrontInOrder(log);
      CallsFollowTheLog(front);
      CallsExtend(Elements(front), AppliedAll(EMPTY, front), last);
      DelayStep(Elements(front), AppliedAll(EMPTY, front), last);
    }
  }

  /** The row of a call and its salt after a log, written event by event. */
  function RowSalt(log: seq<Event>, k: Key): Option<Hex> {
    if log == [] then None
    else
      var before, e := RowSalt(log[..|log| - 1], k), log[|log| - 1];
      if before.None? then (if Schedules(e, k) then Some(ZERO_BYTES32) else None)
      else if Salts(e, k) then Some(e.salt) else before
  }

  lemma {:induction false} RowSaltIs(log: seq<Event>, k: Key)
    ensures var rows := AppliedAll(EMPTY, log).operations;
      (k in rows <==> RowSalt(log, k).Some?) && (k in rows ==> rows[k].salt == RowSalt(log, k).value)
  {
    if log != [] {
      RowSaltIs(log[..|log| - 1], k);
    }
  }

  ghost predicate ScheduledIn(log: seq<Event>, k: Key) {
    exists m :: 0 <= m < |log| && Schedules(log[m], k)
  }

  /** Some salt of the operation was logged after the call's first schedule. */
  ghost predicate SaltedAfter(log: seq<Event>, k: Key) {
    exists m, n :: 0 <= m < n < |log| && Schedules(log[m], k) && Salts(log[n], k)
  }

  /** The row's salt is one logged after the first schedule, or zero when there is none. */
  lemma {:induction false} RowSaltValue(log: seq<Event>, k: Key)
    ensures RowSalt(log, k).Some? <==> ScheduledIn(log, k)
    ensures RowSalt(log, k).Some? && SaltedAfter(log, k) ==>
              exists n :: 0 <= n < |log| && Salts(log[n], k) && log[n].salt == RowSalt(log, k).value
    ensures RowSalt(log, k).Some? && !SaltedAfter(log, k) ==> RowSalt(log, k).value == ZERO_BYTES32
  {
    if log != [] {
      var front, e := log[..|log| - 1], log[|log| - 1];
      RowSaltValue(front, k);
      assert forall m :: 0 <= m < |front| ==> front[m] == log[m];
      if ScheduledIn(front, k) {
        var m :| 0 <= m < |front| && Schedules(front[m], k);
        assert Schedules(log[m], k);
        if Salts(e, k) {
          assert Salts(log[|log| - 1], k);
        } else if SaltedAfter(front, k) {
          var n :| 0 <= n < |front| && Salts(front[n], k) && front[n].salt == RowSalt(front, k).value;
          assert log[n].salt == RowSalt(log, k).value;
          SaltedAfterFront(log, k);
        }
      }
    }
  }

  lemma SaltedAfterFront(log: seq<Event>, k: Key)
    requires log != [] && SaltedAfter(log[..|log| - 1], k)
    ensures SaltedAfter(log, k)
  {
    var front := log[..|log| - 1];
    var m, n :| 0 <= m < n < |front| && Schedules(front[m], k) && Salts(front[n], k);
    assert Schedules(log[m], k) && Salts(log[n], k);
  }

  /** All salts of the call's operation are equal, and are zero or logged at least once after the call's first schedule. */
  ghost predicate SaltsAgree(log: seq<Event>, k: Key) {
    && (forall i, j :: 0 <= i < |log| && 0 <= j < |log| && Salts(log[i], k) && Salts(log[j], k) ==> log[i].salt == log[j].salt)
    && (forall i :: 0 <= i < |log| && Salts(log[i], k) ==> log[i].salt == ZERO_BYTES32 || SaltedAfter(log, k))
  }

  ghost predicate AllSaltsAre(log: seq<Event>, k: Key, salt: Hex) {
    forall i :: 0 <= i < |log| && Salts(log[i], k) ==> log[i].salt == salt
  }

  lemma SaltsAgreeIff(log: seq<Event>, k: Key)
    requires RowSalt(log, k).Some?
    ensures AllSaltsAre(log, k, RowSalt(log, k).value) <==> SaltsAgree(log, k)
  {
    RowSaltValue(log, k);
  }

  ghost predicate ReplaysHarmless(log: seq<Event>) {
    forall events: seq<Event> :: Elements(events) <= Elements(log) ==>
      AppliedAll(AppliedAll(EMPTY, log), events) == AppliedAll(EMPTY, log)
  }

  lemma {:induction false} ReplaysStay(log: seq<Event>, s: Index, events: seq<Event>)
    requires forall e :: e in log ==> Applied(s, e) == s
    requires Elements(events) <= Elements(log)
    ensures AppliedAll(s, events) == s
  {
    if events != [] {
      var front, e := events[..|events| - 1], events[|events| - 1];
      assert e in Elements(events) && forall a :: a in Elements(front) ==> a in Elements(events);
      ReplaysStay(log, s, front);
    }
  }

  lemma HarmlessOne(log: seq<Event>, e: Event)
    requires ReplaysHarmless(log) && e in log
    ensures Applied(AppliedAll(EMPTY, log), e) == AppliedAll(EMPTY, log)
  {
    assert Elements([e]) <= Elements(log);
    assert [e][..0] == [];
  }

  lemma ReplayedInOrder(log: seq<Event>, e: Event)
    requires InEmissionOrder(log) && e in log && (forall k :: ScheduledIn(log, k) ==> SaltsAgree(log, k))
    ensures Applied(AppliedAll(EMPTY, log), e) == AppliedAll(EMPTY, log)
  {
    var s := AppliedAll(EMPTY, log);
    CallsFollowTheLog(log);
    if e.Salted? {
      forall k | k in s.operations && Salts(e, k) ensures s.operations[k].salt == e.salt {
        RowSaltIs(log, k);
        RowSaltValue(log, k);
        SaltsAgreeIff(log, k);
      }
      ReplayedSalt(s, e);
    } else {
      assert e in Elements(log);
      ReplayedCalls(Elements(log), s, e);
      ReplayedDelay(Elements(log), s, e);
    }
  }

  lemma HarmlessAgrees(log: seq<Event>, k: Key)
    requires ReplaysHarmless(log) && ScheduledIn(log, k)
    ensures SaltsAgree(log, k)
  {
    var s := AppliedAll(EMPTY, log);
    RowSaltIs(log, k);
    RowSaltValue(log, k);
    forall i | 0 <= i < |log| && Salts(log[i], k) ensures log[i].salt == RowSalt(log, k).value {
      HarmlessOne(log, log[i]);
      ReplayedSalt(s, log[i]);
    }
    SaltsAgreeIff(log, k);
  }

  /**
   * After any log written in emission order, rewriting any of its events leaves every row unchanged if and only if, for
   * each scheduled call, all salts of its operation are equal and are zero or logged at least once after the call's first
   * schedule.
   */
  lemma ReplaysHarmlessIff(log: seq<Event>)
    requires InEmissionOrder(log)
    ensures ReplaysHarmless(log) <==> forall k :: ScheduledIn(log, k) ==> SaltsAgree(log, k)
  {
    var s := AppliedAll(EMPTY, log);
    if ReplaysHarmless(log) {
      forall k | ScheduledIn(log, k) ensures SaltsAgree(log, k) {
        HarmlessAgrees(log, k);
      }
    }
    if forall k :: ScheduledIn(log, k) ==> SaltsAgree(log, k) {
      forall e | e in log ensures Applied(s, e) == s {
        ReplayedInOrder(log, e);
      }
      forall events: seq<Event> | Elements(events) <= Elements(log) ensures AppliedAll(s, events) == s {
        ReplaysStay(log, s, events);
      }
    }
  }

  /** The shortest failing log: a salt other than zero before the first schedule misses the row, and its replay hits it. */
  lemma EarlySaltReplayChangesTheRow(op: Op, salted: Event, scheduled: Event)
    requires Salts(salted, Key(op, 0)) && Schedules(scheduled, Key(op, 0))
    ensures var s := Applied(Applied(EMPTY, salted), scheduled);
      Applied(s, salted) == s <==> salted.salt == ZERO_BYTES32
  {
    var s := Applied(Applied(EMPTY, salted), scheduled);
    assert Applied(EMPTY, salted).operations == map[];
    assert s.operations[Key(op, 0)].salt == ZERO_BYTES32;
    ReplayedSalt(s, salted);
    assert forall k :: k in s.operations ==> k == Key(op, scheduled.index);
  }

  // ---- The meaning fixes the rows ------------------------------------------------------------------------------------------------

  lemma PositionsTotal(a: Position, b: Position)
    ensures IsAfter(a, b) || IsAfter(b, a) || a == b
  {
  }

  lemma OneDescription(log: set<Event>, k: Key, r1: Row, r2: Row)
    requires ChainLog(log) && Describes(log, k, r1) && Describes(log, k, r2)
    ensures r1 == r2
  {
    var a1 :| LatestSchedule(log, k, a1) && r1.call == a1.call && r1.scheduled == a1.mark && r1.at == a1.at && r1.readyAt == a1.readyAt;
    var a2 :| LatestSchedule(log, k, a2) && r2.call == a2.call && r2.scheduled == a2.mark && r2.at == a2.at && r2.readyAt == a2.readyAt;
    PositionsTotal(a1.mark.pos, a2.mark.pos);
    assert a1 == a2;
    OneExecution(log, k, r1.scheduled.pos, r1.executed, r2.executed);
    OneCancellation(log, k, r1.scheduled.pos, r1.cancelled, r2.cancelled);
  }

  lemma OneExecution(log: set<Event>, k: Key, since: Position, m1: Option<Mark>, m2: Option<Mark>)
    requires ChainLog(log) && LatestExecution(log, k, since, m1) && LatestExecution(log, k, since, m2)
    ensures m1 == m2
  {
    if m1.Some? && m2.Some? {
      PositionsTotal(m1.value.pos, m2.value.pos);
    }
  }

  lemma OneCancellation(log: set<Event>, k: Key, since: Position, m1: Option<Mark>, m2: Option<Mark>)
    requires ChainLog(log) && LatestCancellation(log, k, since, m1) && LatestCancellation(log, k, since, m2)
    ensures m1 == m2
  {
    if m1.Some? && m2.Some? {
      PositionsTotal(m1.value.pos, m2.value.pos);
    }
  }

  lemma KeysAgree(log: set<Event>, o1: map<Key, Row>, o2: map<Key, Row>, k: Key)
    requires RowsOf(log, o1) && RowsOf(log, o2) && k in o1
    ensures k in o2
  {
    var a :| LatestSchedule(log, k, a);
    assert k == Key(a.op, a.index);
  }

  lemma DelaysAgree(log: set<Event>, d1: map<DelayKey, DelayChange>, d2: map<DelayKey, DelayChange>, d: DelayKey)
    requires ChainLog(log) && DelaysOf(log, d1) && DelaysOf(log, d2) && d in d1
    ensures d in d2 && d1[d] == d2[d]
  {
    assert Reported(log, d, d1[d]);
    assert d in d2 && Reported(log, d, d2[d]);
  }

  lemma OneSetOfRows(log: set<Event>, o1: map<Key, Row>, o2: map<Key, Row>)
    requires ChainLog(log) && RowsOf(log, o1) && RowsOf(log, o2)
    ensures o1 == o2
  {
    forall k | k in o1 ensures k in o2 && o1[k] == o2[k] {
      KeysAgree(log, o1, o2, k);
      OneDescription(log, k, o1[k], o2[k]);
    }
    forall k | k in o2 ensures k in o1 {
      KeysAgree(log, o2, o1, k);
    }
  }

  lemma OneSetOfDelays(log: set<Event>, d1: map<DelayKey, DelayChange>, d2: map<DelayKey, DelayChange>)
    requires ChainLog(log) && DelaysOf(log, d1) && DelaysOf(log, d2)
    ensures d1 == d2
  {
    forall d | d in d1 ensures d in d2 && d1[d] == d2[d] {
      DelaysAgree(log, d1, d2, d);
    }
    forall d | d in d2 ensures d in d1 {
      DelaysAgree(log, d2, d1, d);
    }
  }

  /** A log has one index: whoever wrote it, in whatever chunks, the rows are the same. */
  lemma OneIndex(log: set<Event>, s1: Index, s2: Index)
    requires ChainLog(log) && IndexOf(log, s1) && IndexOf(log, s2)
    ensures s1 == s2
  {
    OneSetOfRows(log, s1.operations, s2.operations);
    OneSetOfDelays(log, s1.delayChanges, s2.delayChanges);
  }

  /** Two histories of writes from an empty index that covered the same log end with the same rows. */
  lemma ChunkingDoesNotMatter(first: seq<seq<Event>>, second: seq<seq<Event>>)
    requires GoodWrites({}, first) && GoodWrites({}, second) && Written({}, first) == Written({}, second)
    requires ChainLog(Written({}, first))
    ensures WrittenAll(EMPTY, first) == WrittenAll(EMPTY, second)
  {
    RowsFollowTheLog({}, EMPTY, first);
    RowsFollowTheLog({}, EMPTY, second);
    OneIndex(Written({}, first), WrittenAll(EMPTY, first), WrittenAll(EMPTY, second));
  }

  // ---- Operation states --------------------------------------------------------------------------------------------------------------

  datatype OperationState = StateWaiting | StateReady | StateExecuted | StateCancelled

  function StateAt(r: Row, nowMs: int): OperationState {
    if r.executed.Some? then StateExecuted
    else if r.cancelled.Some? then StateCancelled
    else if r.readyAt * 1000 <= nowMs then StateReady
    else StateWaiting
  }

  ghost predicate ExecutedSince(log: set<Event>, k: Key, since: Position) {
    exists e :: e in log && Executes(e, k) && IsAfter(e.mark.pos, since)
  }

  ghost predicate CancelledSince(log: set<Event>, k: Key, since: Position) {
    exists e :: e in log && Cancels(e, k) && IsAfter(e.mark.pos, since)
  }

  /** The state the log gives a call: execution after the latest schedule wins, then cancellation, then the clock. */
  ghost function StateIn(log: set<Event>, k: Key, last: Event, nowMs: int): OperationState
    requires last.Scheduled?
  {
    if ExecutedSince(log, k, last.mark.pos) then StateExecuted
    else if CancelledSince(log, k, last.mark.pos) then StateCancelled
    else if last.readyAt * 1000 <= nowMs then StateReady
    else StateWaiting
  }

  /** What a row reports is what the log says of its latest schedule. */
  lemma StateFollowsTheLog(log: set<Event>, s: Index, k: Key, nowMs: int) returns (last: Event)
    requires CallsOf(log, s.operations) && k in s.operations
    ensures LatestSchedule(log, k, last) && StateAt(s.operations[k], nowMs) == StateIn(log, k, last, nowMs)
  {
    var r := s.operations[k];
    assert DescribesCall(log, k, r);
    last :| LatestSchedule(log, k, last) && r.call == last.call && r.scheduled == last.mark && r.at == last.at && r.readyAt == last.readyAt;
    assert r.executed.Some? <==> ExecutedSince(log, k, last.mark.pos);
    assert r.cancelled.Some? <==> CancelledSince(log, k, last.mark.pos);
  }

  // ---- Raw events ----------------------------------------------------------------------------------------------------------------------

  const MAX_SAFE_INTEGER: int := 9_007_199_254_740_991

  datatype EventName = CallScheduledName | CallSaltName | CallExecutedName | CancelledName | MinDelayChangeName | OtherName

  /** A decoded log before validation: None is a hex field that does not match its pattern. */
  datatype Args = Args(id: Option<Hex>, index: int, target: Option<Hex>, value: int, data: Option<Hex>, predecessor: Option<Hex>,
                       delay: int, salt: Option<Hex>, oldDuration: int, newDuration: int)
  datatype RawEvent = RawEvent(name: EventName, chain: int, timelock: Option<Hex>, block: int, blockTimestamp: Option<int>,
                               tx: Option<Hex>, logIndex: int, args: Args)

  predicate BatchIndexOk(index: int) { 0 <= index <= MAX_BATCH_INDEX }
  predicate TimestampOk(t: Option<int>) { t.Some? ==> 0 <= t.value <= MAX_SAFE_INTEGER }

  predicate FrameOk(raw: RawEvent) {
    0 < raw.chain <= MAX_SAFE_INTEGER && 0 <= raw.logIndex <= MAX_SAFE_INTEGER && raw.block >= 0 && raw.timelock.Some? && raw.tx.Some?
  }

  /** readyAt is the on-chain timestamp, so a schedule needs its block time. */
  predicate ScheduleOk(raw: RawEvent) {
    && raw.blockTimestamp.Some? && TimestampOk(raw.blockTimestamp) && BatchIndexOk(raw.args.index)
    && raw.args.target.Some? && raw.args.data.Some? && raw.args.predecessor.Some?
    && raw.args.value >= 0 && raw.args.delay >= 0
  }

  function ParseOperation(raw: RawEvent, op: Op, mark: Mark): Option<Event> {
    var a := raw.args;
    if raw.name.CallScheduledName? then
      if !ScheduleOk(raw) then None
      else
        var call := Call(a.target.value, a.value, a.data.value, a.predecessor.value, a.delay);
        Some(Scheduled(op, mark, a.index, call, raw.blockTimestamp.value, raw.blockTimestamp.value / 1000 + a.delay))
    else if raw.name.CallSaltName? then if a.salt.Some? then Some(Salted(op, mark, a.salt.value)) else None
    else if raw.name.CallExecutedName? then if BatchIndexOk(a.index) then Some(Executed(op, mark, a.index)) else None
    else Some(Cancelled(op, mark))
  }

  /** The validated event; None is a rejection. */
  function Parse(raw: RawEvent): Option<Event> {
    if !FrameOk(raw) || raw.name.OtherName? then None
    else
      var mark := Mark(Position(raw.block, raw.logIndex), raw.tx.value);
      if raw.name.MinDelayChangeName? then
        if TimestampOk(raw.blockTimestamp) && raw.args.oldDuration >= 0 && raw.args.newDuration >= 0
        then Some(DelayChanged(raw.chain, raw.timelock.value, mark, raw.blockTimestamp, raw.args.oldDuration, raw.args.newDuration))
        else None
      else if raw.args.id.None? then None
      else ParseOperation(raw, Op(raw.chain, raw.timelock.value, raw.args.id.value), mark)
  }

  predicate SafeInteger(n: int) { 0 <= n <= 9_007_199_254_740_991 }

  predicate SmallIndex(n: int) { 0 <= n <= 2_147_483_647 }

  /** The ranges of an event's numbers; a call is ready its delay after the whole second of its block. */
  predicate InRange(e: Event) {
    && 0 < Chain(e) && SafeInteger(Chain(e)) && SafeInteger(e.mark.pos.logIndex) && e.mark.pos.block >= 0
    && match e
       case Scheduled(_, _, index, call, at, readyAt) =>
         SmallIndex(index) && call.value >= 0 && call.delay >= 0 && SafeInteger(at) && readyAt == at / 1000 + call.delay
       case Executed(_, _, index) => SmallIndex(index)
       case DelayChanged(_, _, _, seenAt, before, after) =>
         (seenAt.Some? ==> SafeInteger(seenAt.value)) && before >= 0 && after >= 0
       case _ => true
  }

  /** The log is one of this event: it has its name and, field by field, what the event says. */
  predicate Logs(raw: RawEvent, e: Event) {
    && raw.chain == Chain(e) && raw.tx == Some(e.mark.tx) && raw.block == e.mark.pos.block && raw.logIndex == e.mark.pos.logIndex
    && raw.timelock == Some(if e.DelayChanged? then e.timelock else e.op.timelock)
    && (!e.DelayChanged? ==> raw.args.id == Some(e.op.id))
    && match e
       case Scheduled(_, _, index, call, at, _) =>
         && raw.name.CallScheduledName? && raw.blockTimestamp == Some(at) && raw.args.index == index
         && raw.args.target == Some(call.target) && raw.args.value == call.value && raw.args.data == Some(call.data)
         && raw.args.predecessor == Some(call.predecessor) && raw.args.delay == call.delay
       case Salted(_, _, salt) => raw.name.CallSaltName? && raw.args.salt == Some(salt)
       case Executed(_, _, index) => raw.name.CallExecutedName? && raw.args.index == index
       case Cancelled(_, _) => raw.name.CancelledName?
       case DelayChanged(_, _, _, seenAt, before, after) =>
         && raw.name.MinDelayChangeName? && raw.blockTimestamp == seenAt
         && raw.args.oldDuration == before && raw.args.newDuration == after
  }

  /** A log is accepted as an event exactly when it is one of it and its numbers are in range. */
  lemma ParsesIff(raw: RawEvent, e: Event)
    ensures Parse(raw) == Some(e) <==> Logs(raw, e) && InRange(e)
  {
  }

  predicate AllParse(raws: seq<RawEvent>) {
    forall i :: 0 <= i < |raws| ==> Parse(raws[i]).Some?
  }

  function ParsedAll(raws: seq<RawEvent>): seq<Event>
    requires AllParse(raws)
  {
    seq(|raws|, i requires 0 <= i < |raws| => Parse(raws[i]).value)
  }

  // ---- The memory index -------------------------------------------------------------------------------------------------------------------

  class MemoryIndex {
    var operations: map<Key, Row>
    var delayChanges: map<DelayKey, DelayChange>

    function State(): Index
      reads this
    {
      Index(operations, delayChanges)
    }

    constructor ()
      ensures State() == EMPTY
    {
      operations, delayChanges := map[], map[];
    }

    /** Visits every row of the operation, whatever order the map gives them in. */
    method ApplyToOperation(e: Event)
      requires e.Salted? || e.Cancelled?
      modifies this`operations
      ensures State() == Applied(old(State()), e)
    {
      var keys := operations.Keys;
      while keys != {}
        invariant operations.Keys == old(operations.Keys) && keys <= operations.Keys
        invariant forall k :: k in keys ==> operations[k] == old(operations[k])
        invariant forall k :: k in operations && k !in keys ==> operations[k] == TouchedAll(old(operations), e)[k]
        decreases |keys|
      {
        var k :| k in keys;
        keys := keys - {k};
        var row := operations[k];
        if k.op == e.op {
          if e.Salted? {
            operations := operations[k := row.(salt := e.salt)];
          } else if IsAfter(e.mark.pos, row.scheduled.pos) && (row.cancelled.None? || IsAfter(e.mark.pos, row.cancelled.value.pos)) {
            operations := operations[k := row.(cancelled := Some(e.mark))];
          }
        }
      }
      assert operations == TouchedAll(old(operations), e);
    }

    method Apply(e: Event)
      modifies this
      ensures State() == Applied(old(State()), e)
    {
      match e
      case Scheduled(op, mark, index, call, at, readyAt) =>
        var k := Key(op, index);
        if k !in operations {
          operations := operations[k := Row(call, mark, at, readyAt, ZERO_BYTES32, None, None)];
        } else if IsAfter(mark.pos, operations[k].scheduled.pos) {
          var row := operations[k].(call := call, scheduled := mark, at := at, readyAt := readyAt);
          if row.executed.Some? && !IsAfter(row.executed.value.pos, mark.pos) {
            row := row.(executed := None);
          }
          if row.cancelled.Some? && !IsAfter(row.cancelled.value.pos, mark.pos) {
            row := row.(cancelled := None);
          }
          operations := operations[k := row];
        } else {
          assert operations == operations[k := operations[k]];
        }
      case Executed(op, mark, index) =>
        var k := Key(op, index);
        if k in operations {
          var row := operations[k];
          if IsAfter(mark.pos, row.scheduled.pos) && (row.executed.None? || IsAfter(mark.pos, row.executed.value.pos)) {
            operations := operations[k := row.(executed := Some(mark))];
          } else {
            assert operations == operations[k := row];
          }
        }
      case DelayChanged(_, _, _, _, _, _) =>
        if KeyOfDelay(e) !in delayChanges {
          delayChanges := delayChanges[KeyOfDelay(e) := ChangeOf(e)];
        }
      case _ =>
        ApplyToOperation(e);
    }

    /** Validates every event before any is applied, then applies them in chain order. */
    method Write(raws: seq<RawEvent>) returns (ok: bool)
      modifies this
      ensures ok <==> AllParse(raws)
      ensures !ok ==> State() == old(State())
      ensures ok ==> State() == AppliedAll(old(State()), InOrder(ParsedAll(raws)))
    {
      var parsed: seq<Event> := [];
      for i := 0 to |raws|
        invariant |parsed| == i && AllParse(raws[..i])
        invariant forall j :: 0 <= j < i ==> Parse(raws[j]).Some? && parsed[j] == Parse(raws[j]).value
      {
        var p := Parse(raws[i]);
        if p.None? {
          return false;
        }
        parsed := parsed + [p.value];
      }
      assert parsed == ParsedAll(raws);
      var events := InOrder(parsed);
      for i := 0 to |events|
        invariant State() == AppliedAll(old(State()), events[..i])
      {
        Apply(events[i]);
        assert events[..i + 1][..i] == events[..i];
      }
      assert events[..|events|] == events;
      ok := true;
    }
  }
}
