/**
 * Coverage of player payables (payables.ts, payables-state.ts): over all passes, failures, saves and restarts, no
 * PlayerPayableCreated event the cursor has passed is forgotten before its player was read as paid.
 */
module Payables {
  import opened Binary
  import opened BlockRanges

  type Player = nat

  const RETRY_BASE_MS: int := 300_000
  const RETRY_MAX_MS: int := 21_600_000

  datatype Track = Track(retryAt: int, failures: nat, zeroObservedAt: Option<int>)

  const NewTrack: Track := Track(0, 0, None)

  /** What a store holds: the cursor and the tracked players. The cursor block's hash ties it to one chain. */
  datatype Saved = Saved(through: int, players: set<Player>)

  datatype Memory = Memory(players: map<Player, Track>, next: int, scannedThrough: int, loaded: bool,
                           restoring: Option<Saved>, savedKey: Option<Saved>)

  /** A new process: nothing tracked, the cursor before the release origin, the store not read yet. */
  function Fresh(origin: int): Memory { Memory(map[], origin, origin - 1, false, None, None) }

  // ---- What one pass reads -------------------------------------------------------------------------------------------

  datatype Load = LoadFails | LoadNothing | LoadSaved(s: Saved)
  datatype Check = CheckFails | HashMatches | HashDiffers

  datatype Claim = Success(block: int) | Refused | ClaimFails

  /** The reads for one due player; None is a failed read. */
  datatype Reading = Reading(owed: Option<nat>, claim: Claim, finalizedOwed: Option<nat>)

  datatype Input = Input(load: Load, check: Check, head: Option<int>, finalized: Option<int>,
                         logs: seq<Option<set<Player>>>, due: seq<(Player, Reading)>, now: int, storeOk: bool)

  // ---- One pass, as functions of the state ----------------------------------------------------------------------------

  function Tracked(m: map<Player, Track>, ps: set<Player>): map<Player, Track> {
    map p | p in m.Keys + ps :: if p in m then m[p] else NewTrack
  }

  function Loaded(m: Memory, load: Load): Memory {
    if m.loaded || load.LoadFails? then m
    else m.(loaded := true, restoring := if load.LoadSaved? then Some(load.s) else None)
  }

  /** Takes up a loaded state once the chain shows its cursor block; drops it when the hash differs. */
  function Restored(m: Memory, check: Check): Memory {
    if !m.loaded || m.restoring.None? || check.CheckFails? then m
    else if check.HashDiffers? then m.(restoring := None)
    else
      var s := m.restoring.value;
      Memory(Tracked(m.players, s.players) + map p | p in s.players :: NewTrack, s.through + 1, s.through, m.loaded, None, Some(s))
  }

  function Scanned(m: Memory, r: Range, nominated: set<Player>): Memory {
    m.(players := Tracked(m.players, nominated), next := r.to + 1, scannedThrough := r.to)
  }

  /** The chunks scanned before one fails. */
  function ScannedAll(m: Memory, ranges: seq<Range>, logs: seq<Option<set<Player>>>, n: nat): Memory
    requires n <= |ranges| && n <= |logs| && forall i :: 0 <= i < n ==> logs[i].Some?
  {
    if n == 0 then m else Scanned(ScannedAll(m, ranges, logs, n - 1), ranges[n - 1], logs[n - 1].value)
  }

  /** Five minutes doubling with each failure, at most six hours. */
  function Backoff(failures: nat): int {
    if failures == 0 then RETRY_BASE_MS else Min(2 * Backoff(failures - 1), RETRY_MAX_MS)
  }

  function Failed(t: Track, zero: Option<int>, now: int): Track {
    Track(now + Backoff(t.failures), t.failures + 1, zero)
  }

  /** The item after its balance was read and, if owed, claimed. */
  function Settled(t: Track, r: Reading, head: Option<int>, now: int): Track {
    if r.owed.None? then t
    else if r.owed.value > 0 then
      match r.claim
      case Refused => Failed(t, None, now)
      case ClaimFails => Failed(t, None, now)
      case Success(block) => Track(0, 0, Some(block))
    else Track(0, 0, if t.zeroObservedAt.Some? then t.zeroObservedAt else head)
  }

  datatype Visit = Visit(r: Reading, head: Option<int>, now: int)

  /** The balance was read as owed, and the claim did not bring it to zero. */
  predicate Fails(r: Reading) { r.owed.Some? && r.owed.value > 0 && !r.claim.Success? }

  function SettledAll(t: Track, visits: seq<Visit>): Track {
    if visits == [] then t
    else var v := visits[|visits| - 1]; Settled(SettledAll(t, visits[..|visits| - 1]), v.r, v.head, v.now)
  }

  lemma {:induction false} BackoffIs(n: nat)
    ensures Backoff(n) == Min(300_000 * Pow2(n), 21_600_000)
  {
    if n > 0 {
      BackoffIs(n - 1);
    }
  }

  /** After n failures in a row a player waits 300000 * 2^(n - 1) milliseconds from the last one, at most 21600000. */
  lemma {:induction false} WaitAfterFailures(t: Track, visits: seq<Visit>)
    requires t.failures == 0 && forall i :: 0 <= i < |visits| ==> Fails(visits[i].r)
    ensures SettledAll(t, visits).failures == |visits|
    ensures visits != [] ==>
      SettledAll(t, visits).retryAt == visits[|visits| - 1].now + Min(300_000 * Pow2(|visits| - 1), 21_600_000)
  {
    if visits != [] {
      WaitAfterFailures(t, visits[..|visits| - 1]);
      BackoffIs(|visits| - 1);
    }
  }

  /** A player found is due at once, with no failures behind it; one already tracked is left as it is, and no other appears. */
  lemma FoundIsDue(m: map<Player, Track>, found: set<Player>, p: Player)
    ensures p in Tracked(m, found) <==> p in m || p in found
    ensures p in m ==> Tracked(m, found)[p] == m[p]
    ensures p in found && p !in m ==> var t := Tracked(m, found)[p]; t.retryAt == 0 && t.failures == 0 && t.zeroObservedAt.None?
  {
  }

  /** A success, the player's or anyone's, clears the failures and the wait; a failed read leaves both. */
  lemma SuccessClears(t: Track, v: Visit)
    ensures Paid(v.r) ==> Settled(t, v.r, v.head, v.now).failures == 0 && Settled(t, v.r, v.head, v.now).retryAt == 0
    ensures v.r.owed.None? ==> Settled(t, v.r, v.head, v.now) == t
  {
  }

  /** The block of the zero is that of the payment, or the head it was first read at, and a debt found again forgets it. */
  lemma ZeroIsSeen(t: Track, v: Visit)
    ensures var zero := Settled(t, v.r, v.head, v.now).zeroObservedAt;
      && (Fails(v.r) ==> zero == None)
      && (Paid(v.r) && v.r.owed.value > 0 ==> zero == Some(v.r.claim.block))
      && (v.r.owed == Some(0) && t.zeroObservedAt.None? ==> zero == v.head)
  {
  }

  /** Until then it stays, however often zero is read again. */
  lemma {:induction false} ZeroStays(t: Track, visits: seq<Visit>)
    requires t.zeroObservedAt.Some? && forall i :: 0 <= i < |visits| ==> visits[i].r.owed.None? || visits[i].r.owed == Some(0)
    ensures SettledAll(t, visits).zeroObservedAt == t.zeroObservedAt
  {
    if visits != [] {
      ZeroStays(t, visits[..|visits| - 1]);
    }
  }

  /** Whether the balance was read as, or brought to, zero. */
  predicate Paid(r: Reading) {
    r.owed.Some? && (r.owed.value == 0 || r.claim.Success?)
  }

  /** The read at the finalized block is made only then, and deletes the player when it shows zero. */
  predicate Deletes(t: Track, r: Reading, head: Option<int>, finalized: Option<int>, readOk: bool, now: int) {
    && Paid(r) && readOk && finalized.Some?
    && Settled(t, r, head, now).zeroObservedAt.Some? && finalized.value >= Settled(t, r, head, now).zeroObservedAt.value
    && r.finalizedOwed == Some(0)
  }

  function Visited(m: Memory, p: Player, r: Reading, head: Option<int>, finalized: Option<int>, readOk: bool, now: int): Memory {
    if p !in m.players || m.players[p].retryAt > now then m
    else if Deletes(m.players[p], r, head, finalized, readOk, now) then m.(players := m.players - {p})
    else m.(players := m.players[p := Settled(m.players[p], r, head, now)])
  }

  function VisitedAll(m: Memory, due: seq<(Player, Reading)>, n: nat, head: Option<int>, finalized: Option<int>,
                      readOk: bool, now: int): Memory
    requires n <= |due|
  {
    if n == 0 then m
    else Visited(VisitedAll(m, due, n - 1, head, finalized, readOk, now), due[n - 1].0, due[n - 1].1, head, finalized, readOk, now)
  }

  // ---- The claimer ----------------------------------------------------------------------------------------------------

  /** What a pass saw of the chain, which its visits depend on. */
  datatype Seen = Seen(head: Option<int>, finalized: Option<int>, readOk: bool)

  /** The memory once a loaded state was taken up or dropped. */
  function Opened(m: Memory, i: Input): Memory { Restored(Loaded(m, i.load), i.check) }

  /** The pass got past the store: nothing is scanned before. */
  predicate Ready(m: Memory, i: Input) { Opened(m, i).loaded && Opened(m, i).restoring.None? }

  /** What the finalized-head monitor has seen after a pass: the restored cursor and the reported head raise it. */
  function Watched(m: Memory, i: Input, highest: Option<int>): Option<int> {
    var l := Loaded(m, i.load);
    var seeded := if l.loaded && l.restoring.Some? && i.check.HashMatches? then Raised(highest, l.restoring.value.through) else highest;
    if Ready(m, i) && i.head.Some? && i.finalized.Some? then Raised(seeded, i.finalized.value) else seeded
  }

  /** What one pass found: the chunks it split, how many it scanned, and the monitor's report. */
  datatype Found = Found(seen: Seen, ranges: seq<Range>, done: nat, behindBy: Option<int>)

  function Lag(reported: int, highest: int): Option<int> {
    if reported < highest then Some(highest - reported) else None
  }

  predicate ScanOk(i: Input, f: Found) {
    f.done <= |f.ranges| && f.done <= |i.logs| && forall k :: 0 <= k < f.done ==> i.logs[k].Some?
  }

  ghost predicate IsFound(m: Memory, i: Input, highest: Option<int>, f: Found) {
    && ScanOk(i, f)
    && (f.seen.finalized.Some? ==> f.seen.finalized == i.finalized && i.head.Some? && Ready(m, i))
    && (f.seen.finalized.Some? ==> f.behindBy == Lag(i.finalized.value, Watched(m, i, highest).value))
    && (f.seen.readOk ==> f.seen.finalized.Some? && f.done == |f.ranges|)
    && (f.ranges != [] ==> && Consecutive(f.ranges, Opened(m, i).next, f.ranges[|f.ranges| - 1].to)
                           && f.seen.finalized.Some? && f.ranges[|f.ranges| - 1].to <= f.seen.finalized.value)
  }

  function ScannedMemory(m: Memory, i: Input, f: Found): Memory
    requires ScanOk(i, f)
  {
    ScannedAll(Opened(m, i), f.ranges, i.logs, f.done)
  }

  function PassMemory(m: Memory, i: Input, f: Found): Memory
    requires ScanOk(i, f)
  {
    VisitedAll(ScannedMemory(m, i, f), i.due, |i.due|, f.seen.head, f.seen.finalized, f.seen.readOk, i.now)
  }

  /** The state a save writes. */
  function Snapshot(m: Memory): Saved { Saved(m.scannedThrough, m.players.Keys) }

  /** Nothing is saved before the cursor reaches the origin, or when it would repeat the last save. */
  predicate Saves(m: Memory, origin: int, storeOk: bool) {
    storeOk && m.scannedThrough >= origin && m.savedKey != Some(Snapshot(m))
  }

  function AfterSave(m: Memory, origin: int, storeOk: bool): Memory {
    if Saves(m, origin, storeOk) then m.(savedKey := Some(Snapshot(m))) else m
  }

  function DiskAfter(m: Memory, origin: int, storeOk: bool, disk: Option<Saved>): Option<Saved> {
    if Saves(m, origin, storeOk) then Some(Snapshot(m)) else disk
  }

  class Claimer {
    var m: Memory
    var disk: Option<Saved>
    const finality: HeadMonitor
    const origin: int
    const chunkSize: int
    const maxChunks: int

    constructor (origin: int, chunkSize: int, maxChunks: int, disk: Option<Saved>, stallMs: int)
      ensures m == Fresh(origin) && this.disk == disk && this.origin == origin
      ensures this.chunkSize == chunkSize && this.maxChunks == maxChunks
      ensures fresh(finality) && finality.highest == None
    {
      this.m, this.disk := Fresh(origin), disk;
      this.origin, this.chunkSize, this.maxChunks := origin, chunkSize, maxChunks;
      this.finality := new HeadMonitor(stallMs);
    }

    /** Reads the store once, then takes up or drops what it held; false when a read failed. */
    method Open(i: Input) returns (ok: bool)
      modifies this`m, finality`highest
      ensures m == Opened(old(m), i) && ok == Ready(old(m), i)
      ensures var l := Loaded(old(m), i.load);
        finality.highest == if l.loaded && l.restoring.Some? && i.check.HashMatches?
                            then Raised(old(finality.highest), l.restoring.value.through) else old(finality.highest)
    {
      if !m.loaded {
        if i.load.LoadFails? {
          return false;
        }
        m := m.(loaded := true, restoring := if i.load.LoadSaved? then Some(i.load.s) else None);
      }
      if m.restoring.Some? {
        if i.check.CheckFails? {
          return false;
        }
        if i.check.HashMatches? {
          var saved := m.restoring.value;
          m := Restored(m, i.check);
          finality.Seed(saved.through);
        } else {
          m := m.(restoring := None);
        }
      }
      ok := true;
    }

    /** Scans chunk after chunk, the cursor moving with each; a failed read keeps what was scanned before it. */
    method Scan(ranges: seq<Range>, logs: seq<Option<set<Player>>>) returns (done: nat)
      modifies this`m
      ensures done <= |ranges| && done <= |logs| && forall k :: 0 <= k < done ==> logs[k].Some?
      ensures done < |ranges| ==> done == |logs| || logs[done].None?
      ensures m == ScannedAll(old(m), ranges, logs, done)
    {
      done := 0;
      while done < |ranges|
        invariant done <= |ranges| && done <= |logs| && forall k :: 0 <= k < done ==> logs[k].Some?
        invariant m == ScannedAll(old(m), ranges, logs, done)
      {
        if done >= |logs| || logs[done].None? {
          return;
        }
        m := Scanned(m, ranges[done], logs[done].value);
        done := done + 1;
      }
    }

    /** Restores, reads both heads and scans up to the reported finalized block. */
    method Discover(i: Input) returns (f: Found)
      modifies this`m, finality
      ensures IsFound(old(m), i, old(finality.highest), f) && m == ScannedMemory(old(m), i, f)
      ensures finality.highest == Watched(old(m), i, old(finality.highest))
    {
      var ok := Open(i);
      f := Found(Seen(None, None, false), [], 0, None);
      if !ok || i.head.None? {
        return;
      }
      if i.finalized.None? {
        f := f.(seen := Seen(i.head, None, false));
        return;
      }
      var observed := finality.Observe(i.finalized.value, i.now);
      f := Found(Seen(i.head, Some(observed.target), false), [], 0, observed.behindBy);
      var split := SplitBlockRange(m.next, observed.target, chunkSize, Some(maxChunks));
      if split.BadArgument? {
        return;
      }
      var done := Scan(split.list, i.logs);
      f := f.(ranges := split.list, done := done, seen := Seen(i.head, Some(observed.target), done == |split.list|));
    }

    /** Claims for the due players and deletes those a finalized read shows as paid. */
    method VisitDue(i: Input, seen: Seen)
      modifies this`m
      ensures m == VisitedAll(old(m), i.due, |i.due|, seen.head, seen.finalized, seen.readOk, i.now)
    {
      for n := 0 to |i.due|
        invariant m == VisitedAll(old(m), i.due, n, seen.head, seen.finalized, seen.readOk, i.now)
      {
        var (p, r) := i.due[n];
        if p in m.players && m.players[p].retryAt <= i.now {
          var t := m.players[p];
          if Deletes(t, r, seen.head, seen.finalized, seen.readOk, i.now) {
            m := m.(players := m.players - {p});
          } else {
            m := m.(players := m.players[p := Settled(t, r, seen.head, i.now)]);
          }
        }
      }
    }

    /** One pass: discover, visit, save. */
    method Pass(i: Input) returns (f: Found)
      modifies this`m, this`disk, finality
      ensures IsFound(old(m), i, old(finality.highest), f)
      ensures m == AfterSave(PassMemory(old(m), i, f), origin, i.storeOk)
      ensures disk == DiskAfter(PassMemory(old(m), i, f), origin, i.storeOk, old(disk))
      ensures finality.highest == Watched(old(m), i, old(finality.highest))
    {
      f := Discover(i);
      VisitDue(i, f.seen);
      if m.scannedThrough >= origin {
        var key := Some(Snapshot(m));
        if key != m.savedKey && i.storeOk {
          disk := key;
          m := m.(savedKey := key);
        }
      }
    }
  }

  // ---- Coverage -----------------------------------------------------------------------------------------------------------

  /** An event: the player and the block of its PlayerPayableCreated. */
  type Created = (Player, int)

  /** Reads of zero owed, with the finalized block they were made at. */
  type ZeroReads = set<(Player, int)>

  ghost predicate Accounted(e: Created, players: set<Player>, zero: ZeroReads) {
    e.0 in players || exists f :: (e.0, f) in zero && f >= e.1
  }

  /** Every event from the origin through the cursor has its player tracked, or read as paid no earlier. */
  ghost predicate Covered(created: set<Created>, zero: ZeroReads, origin: int, players: set<Player>, through: int) {
    forall e :: e in created && origin <= e.1 <= through ==> Accounted(e, players, zero)
  }

  ghost predicate MemoryOk(created: set<Created>, zero: ZeroReads, origin: int, m: Memory) {
    && m.next == m.scannedThrough + 1 && m.scannedThrough >= origin - 1
    && Covered(created, zero, origin, m.players.Keys, m.scannedThrough)
    && (m.restoring.Some? ==> SavedOk(created, zero, origin, m.restoring.value) && m.scannedThrough == origin - 1)
    && (!m.loaded ==> m.scannedThrough == origin - 1)
  }

  ghost predicate SavedOk(created: set<Created>, zero: ZeroReads, origin: int, s: Saved) {
    s.through >= origin && Covered(created, zero, origin, s.players, s.through)
  }

  ghost predicate DiskOk(created: set<Created>, zero: ZeroReads, origin: int, disk: Option<Saved>) {
    disk.Some? ==> SavedOk(created, zero, origin, disk.value)
  }

  lemma CoveredGrows(created: set<Created>, z1: ZeroReads, z2: ZeroReads, origin: int, p1: set<Player>, p2: set<Player>, through: int)
    requires Covered(created, z1, origin, p1, through) && z1 <= z2 && p1 <= p2
    ensures Covered(created, z2, origin, p2, through)
  {
    forall e | e in created && origin <= e.1 <= through ensures Accounted(e, p2, z2) {
      assert Accounted(e, p1, z1);
    }
  }

  /** The logs of a chunk name every player with an event in it. */
  ghost predicate Complete(created: set<Created>, r: Range, nominated: set<Player>) {
    forall e :: e in created && r.from <= e.1 <= r.to ==> e.0 in nominated
  }

  lemma ScanKeeps(created: set<Created>, zero: ZeroReads, origin: int, m: Memory, r: Range, nominated: set<Player>)
    requires MemoryOk(created, zero, origin, m) && m.restoring.None? && m.loaded
    requires r.from == m.next && r.from <= r.to && Complete(created, r, nominated)
    ensures MemoryOk(created, zero, origin, Scanned(m, r, nominated))
  {
    var m' := Scanned(m, r, nominated);
    forall e | e in created && origin <= e.1 <= r.to ensures Accounted(e, m'.players.Keys, zero) {
      if e.1 <= m.scannedThrough {
        assert Accounted(e, m.players.Keys, zero);
      }
    }
  }

  lemma {:induction false} ConsecutiveAt(ranges: seq<Range>, from: int, end: int, k: nat)
    requires Consecutive(ranges, from, end) && k < |ranges|
    ensures ranges[k].from <= ranges[k].to <= end
    ensures ranges[k].from == if k == 0 then from else ranges[k - 1].to + 1
  {
    if k < |ranges| - 1 {
      ConsecutiveAt(ranges[..|ranges| - 1], from, ranges[|ranges| - 1].from - 1, k);
    } else if k > 0 {
      assert Consecutive(ranges[..k], from, ranges[k].from - 1);
      assert ranges[..k][|ranges[..k]| - 1] == ranges[k - 1];
    }
  }

  lemma {:induction false} ScanAllKeeps(created: set<Created>, zero: ZeroReads, origin: int, m: Memory, ranges: seq<Range>,
                                        logs: seq<Option<set<Player>>>, n: nat)
    requires MemoryOk(created, zero, origin, m) && m.restoring.None? && m.loaded
    requires n <= |ranges| && n <= |logs| && ranges != [] && Consecutive(ranges, m.next, ranges[|ranges| - 1].to)
    requires forall k :: 0 <= k < n ==> logs[k].Some? && Complete(created, ranges[k], logs[k].value)
    ensures var m' := ScannedAll(m, ranges, logs, n);
      && MemoryOk(created, zero, origin, m') && m'.restoring.None? && m'.loaded
      && m'.next == (if n == 0 then m.next else ranges[n - 1].to + 1)
      && m'.savedKey == m.savedKey && (n > 0 ==> m'.scannedThrough <= ranges[|ranges| - 1].to)
  {
    if n > 0 {
      ScanAllKeeps(created, zero, origin, m, ranges, logs, n - 1);
      ConsecutiveAt(ranges, m.next, ranges[|ranges| - 1].to, n - 1);
      ScanKeeps(created, zero, origin, ScannedAll(m, ranges, logs, n - 1), ranges[n - 1], logs[n - 1].value);
    }
  }

  /** What a visit that deletes adds to the record: the zero it read at the finalized block, if it read one. */
  function ZeroRead(m: Memory, p: Player, r: Reading, head: Option<int>, finalized: Option<int>, readOk: bool, now: int): ZeroReads {
    if p in m.players && m.players[p].retryAt <= now && Deletes(m.players[p], r, head, finalized, readOk, now) && r.finalizedOwed == Some(0)
    then {(p, finalized.value)} else {}
  }

  /** Deleting a player read as paid keeps every event covered when the finalized block is not below the cursor. */
  lemma DeletionCovered(created: set<Created>, zero: ZeroReads, origin: int, players: set<Player>, through: int, p: Player, f: int)
    requires Covered(created, zero, origin, players, through) && f >= through
    ensures Covered(created, zero + {(p, f)}, origin, players - {p}, through)
  {
    forall e | e in created && origin <= e.1 <= through ensures Accounted(e, players - {p}, zero + {(p, f)}) {
      assert Accounted(e, players, zero);
      if e.0 == p {
        assert (e.0, f) in zero + {(p, f)};
      }
    }
  }

  /**
   * The guard the code lacks, and exactly what it needs: a deletion keeps coverage for every event log and record if
   * and only if the finalized block it read at is not below the cursor.
   */
  lemma DeletionCoveredIff(origin: int, players: set<Player>, through: int, p: Player, f: int)
    requires p in players && through >= origin
    ensures (forall created: set<Created>, zero: ZeroReads :: Covered(created, zero, origin, players, through) ==>
               Covered(created, zero + {(p, f)}, origin, players - {p}, through))
            <==> f >= through
  {
    if f >= through {
      forall created: set<Created>, zero: ZeroReads | Covered(created, zero, origin, players, through)
        ensures Covered(created, zero + {(p, f)}, origin, players - {p}, through)
      {
        DeletionCovered(created, zero, origin, players, through, p, f);
      }
    } else {
      var created: set<Created>, zero: ZeroReads := {(p, through)}, {};
      assert Covered(created, zero, origin, players, through);
      assert !Accounted((p, through), players - {p}, zero + {(p, f)});
      assert !Covered(created, zero + {(p, f)}, origin, players - {p}, through);
    }
  }

  lemma VisitKeeps(created: set<Created>, zero: ZeroReads, origin: int, m: Memory, p: Player, r: Reading, seen: Seen, now: int)
    requires MemoryOk(created, zero, origin, m)
    requires seen.finalized.Some? && seen.readOk ==> seen.finalized.value >= m.scannedThrough
    ensures var z := ZeroRead(m, p, r, seen.head, seen.finalized, seen.readOk, now);
      var m' := Visited(m, p, r, seen.head, seen.finalized, seen.readOk, now);
      MemoryOk(created, zero + z, origin, m') && m'.scannedThrough == m.scannedThrough
  {
    var z := ZeroRead(m, p, r, seen.head, seen.finalized, seen.readOk, now);
    var m' := Visited(m, p, r, seen.head, seen.finalized, seen.readOk, now);
    if z == {} {
      CoveredGrows(created, zero, zero + z, origin, m.players.Keys, m'.players.Keys, m.scannedThrough);
    } else {
      DeletionCovered(created, zero, origin, m.players.Keys, m.scannedThrough, p, seen.finalized.value);
      assert m'.players.Keys == m.players.Keys - {p};
    }
    if m.restoring.Some? {
      CoveredGrows(created, zero, zero + z, origin, m.restoring.value.players, m.restoring.value.players, m.restoring.value.through);
    }
  }

  function ZeroReadAll(m: Memory, due: seq<(Player, Reading)>, n: nat, seen: Seen, now: int): ZeroReads
    requires n <= |due|
  {
    if n == 0 then {}
    else ZeroReadAll(m, due, n - 1, seen, now)
         + ZeroRead(VisitedAll(m, due, n - 1, seen.head, seen.finalized, seen.readOk, now), due[n - 1].0, due[n - 1].1,
                    seen.head, seen.finalized, seen.readOk, now)
  }

  lemma {:induction false} VisitAllKeeps(created: set<Created>, zero: ZeroReads, origin: int, m: Memory,
                                         due: seq<(Player, Reading)>, n: nat, seen: Seen, now: int)
    requires MemoryOk(created, zero, origin, m) && n <= |due|
    requires seen.finalized.Some? && seen.readOk ==> seen.finalized.value >= m.scannedThrough
    ensures var m' := VisitedAll(m, due, n, seen.head, seen.finalized, seen.readOk, now);
      && MemoryOk(created, zero + ZeroReadAll(m, due, n, seen, now), origin, m') && m'.scannedThrough == m.scannedThrough
      && m'.restoring == m.restoring && m'.savedKey == m.savedKey
  {
    if n > 0 {
      VisitAllKeeps(created, zero, origin, m, due, n - 1, seen, now);
      var z := ZeroReadAll(m, due, n - 1, seen, now);
      var mid := VisitedAll(m, due, n - 1, seen.head, seen.finalized, seen.readOk, now);
      VisitKeeps(created, zero + z, origin, mid, due[n - 1].0, due[n - 1].1, seen, now);
      assert zero + ZeroReadAll(m, due, n, seen, now)
          == zero + z + ZeroRead(mid, due[n - 1].0, due[n - 1].1, seen.head, seen.finalized, seen.readOk, now);
    } else {
      assert zero + ZeroReadAll(m, due, 0, seen, now) == zero;
    }
  }

  // ---- Runs with failures, saves and restarts -------------------------------------------------------------------------------

  /** Memory, monitor and store, with the record of zero reads, which only the proof keeps. */
  datatype World = World(m: Memory, highest: Option<int>, disk: Option<Saved>, zero: ZeroReads)

  datatype Event = Pass(i: Input, found: Found) | Restart

  /**
   * What one pass may read: its store returns the saved state or nothing (unreadable), its logs are complete for the
   * chunks it asked for.
   */
  ghost predicate Faithful(created: set<Created>, w: World, e: Event) {
    match e
    case Restart => true
    case Pass(i, f) =>
      && IsFound(w.m, i, w.highest, f)
      && (i.load.LoadSaved? ==> w.disk == Some(i.load.s))
      && (forall k :: 0 <= k < f.done ==> Complete(created, f.ranges[k], i.logs[k].value))
  }

  /** The hypothesis of the coverage claim: a pass free to delete read a finalized block not below its cursor. */
  ghost predicate DeletesAboveCursor(w: World, e: Event) {
    e.Pass? && ScanOk(e.i, e.found) && e.found.seen.readOk && e.found.seen.finalized.Some? ==>
      e.found.seen.finalized.value >= ScannedMemory(w.m, e.i, e.found).scannedThrough
  }

  ghost function StepWorld(origin: int, w: World, e: Event): World
    requires e.Pass? ==> ScanOk(e.i, e.found)
  {
    match e
    case Restart => World(Fresh(origin), None, w.disk, w.zero)
    case Pass(i, f) =>
      var m' := PassMemory(w.m, i, f);
      World(AfterSave(m', origin, i.storeOk), Watched(w.m, i, w.highest), DiskAfter(m', origin, i.storeOk, w.disk),
            w.zero + ZeroReadAll(ScannedMemory(w.m, i, f), i.due, |i.due|, f.seen, i.now))
  }

  /** The monitor is never below the cursor, and the last save, or the state being restored, is what the store holds. */
  ghost predicate StoreOk(origin: int, w: World) {
    && (w.m.scannedThrough >= origin ==> w.highest.Some? && w.highest.value >= w.m.scannedThrough)
    && (w.m.savedKey.Some? ==> w.m.savedKey == w.disk)
    && (w.m.restoring.Some? ==> w.m.restoring == w.disk)
  }

  ghost predicate WorldOk(created: set<Created>, origin: int, w: World) {
    MemoryOk(created, w.zero, origin, w.m) && DiskOk(created, w.zero, origin, w.disk) && StoreOk(origin, w)
  }

  lemma RestoreKeeps(created: set<Created>, origin: int, w: World, i: Input)
    requires WorldOk(created, origin, w) && (i.load.LoadSaved? ==> w.disk == Some(i.load.s))
    ensures MemoryOk(created, w.zero, origin, Opened(w.m, i))
  {
    var l := Loaded(w.m, i.load);
    assert MemoryOk(created, w.zero, origin, l);
    var m' := Restored(l, i.check);
    if l.loaded && l.restoring.Some? && i.check.HashMatches? {
      var s := l.restoring.value;
      CoveredGrows(created, w.zero, w.zero, origin, s.players, m'.players.Keys, s.through);
    }
  }

  lemma DiskGrows(created: set<Created>, z1: ZeroReads, z2: ZeroReads, origin: int, disk: Option<Saved>)
    requires DiskOk(created, z1, origin, disk) && z1 <= z2
    ensures DiskOk(created, z2, origin, disk)
  {
    if disk.Some? {
      CoveredGrows(created, z1, z2, origin, disk.value.players, disk.value.players, disk.value.through);
    }
  }

  /** The scan's part of a pass: coverage up to the new cursor, which the monitor has reached. */
  lemma DiscoverKeeps(created: set<Created>, origin: int, w: World, i: Input, f: Found)
    requires WorldOk(created, origin, w) && Faithful(created, w, Pass(i, f))
    ensures MemoryOk(created, w.zero, origin, ScannedMemory(w.m, i, f))
    ensures var m' := ScannedMemory(w.m, i, f); var h := Watched(w.m, i, w.highest);
      && (m'.scannedThrough >= origin ==> h.Some? && h.value >= m'.scannedThrough)
      && (m'.restoring.Some? ==> m'.restoring == w.disk) && (m'.savedKey.Some? ==> m'.savedKey == w.disk)
  {
    RestoreKeeps(created, origin, w, i);
    if f.ranges != [] {
      ScanAllKeeps(created, w.zero, origin, Opened(w.m, i), f.ranges, i.logs, f.done);
    }
  }

  lemma PassKeeps(created: set<Created>, origin: int, w: World, i: Input, f: Found)
    requires WorldOk(created, origin, w) && Faithful(created, w, Pass(i, f)) && DeletesAboveCursor(w, Pass(i, f))
    ensures WorldOk(created, origin, StepWorld(origin, w, Pass(i, f)))
  {
    DiscoverKeeps(created, origin, w, i, f);
    var scanned := ScannedMemory(w.m, i, f);
    VisitAllKeeps(created, w.zero, origin, scanned, i.due, |i.due|, f.seen, i.now);
    DiskGrows(created, w.zero, StepWorld(origin, w, Pass(i, f)).zero, origin, w.disk);
  }

  /** After a pass whose store answers and whose cursor has reached the origin, the store holds exactly its state. */
  lemma StoreIsCurrent(created: set<Created>, origin: int, w: World, i: Input, f: Found)
    requires WorldOk(created, origin, w) && Faithful(created, w, Pass(i, f)) && DeletesAboveCursor(w, Pass(i, f))
    requires i.storeOk
    ensures var w' := StepWorld(origin, w, Pass(i, f));
      w'.m.scannedThrough >= origin ==> w'.disk == Some(Snapshot(w'.m))
  {
    PassKeeps(created, origin, w, i, f);
  }

  /** The check a caller can make: a pass that reports no lag behind the highest finalized block may delete. */
  lemma NoLagMeansAbove(created: set<Created>, origin: int, w: World, i: Input, f: Found)
    requires WorldOk(created, origin, w) && Faithful(created, w, Pass(i, f)) && f.behindBy.None?
    requires ScannedMemory(w.m, i, f).scannedThrough >= origin
    ensures DeletesAboveCursor(w, Pass(i, f))
  {
    DiscoverKeeps(created, origin, w, i, f);
  }

  ghost predicate Runs(created: set<Created>, origin: int, w: World, events: seq<Event>)
    decreases |events|
  {
    events == [] || (Faithful(created, w, events[0]) && DeletesAboveCursor(w, events[0])
                     && Runs(created, origin, StepWorld(origin, w, events[0]), events[1..]))
  }

  ghost function Final(created: set<Created>, origin: int, w: World, events: seq<Event>): World
    requires Runs(created, origin, w, events)
    decreases |events|
  {
    if events == [] then w else Final(created, origin, StepWorld(origin, w, events[0]), events[1..])
  }

  /**
   * Over every run of passes, failed reads, lost saves and restarts: what the memory tracks, and every saved state,
   * covers each event up to its cursor.
   */
  lemma {:induction false} CoverageHolds(created: set<Created>, origin: int, w: World, events: seq<Event>)
    requires WorldOk(created, origin, w) && Runs(created, origin, w, events)
    ensures WorldOk(created, origin, Final(created, origin, w, events))
    decreases |events|
  {
    if events != [] {
      if events[0].Pass? {
        PassKeeps(created, origin, w, events[0].i, events[0].found);
      }
      CoverageHolds(created, origin, StepWorld(origin, w, events[0]), events[1..]);
    }
  }

  lemma StartsCovered(created: set<Created>, origin: int)
    ensures WorldOk(created, origin, World(Fresh(origin), None, None, {}))
  {
  }

  /** And reads its store before it scans: nothing is scanned until the store has answered and the chain shows its block. */
  lemma FreshReadsStore(origin: int, i: Input)
    ensures Ready(Fresh(origin), i) <==> !i.load.LoadFails? && (i.load.LoadSaved? ==> !i.check.CheckFails?)
  {
  }

  /**
   * The hypothesis cannot be dropped, starting from a new process: one pass scans through block 10 and tracks the player of
   * a debt created there; a second, with both heads read from a node two blocks behind, is shown the player as paid
   * before that debt existed, and forgets the debt.
   */
  lemma LaggingPassForgets() returns (first: Event, second: Event)
    ensures var created, start := {(7, 10)}, World(Fresh(0), None, None, {});
      && Runs(created, 0, start, [first]) && first.Pass? && ScanOk(first.i, first.found)
      && var w := StepWorld(0, start, first);
         && w.m.scannedThrough == 10 && WorldOk(created, 0, w) && Faithful(created, w, second) && second.Pass?
         && second.found.behindBy == Some(2) && !DeletesAboveCursor(w, second)
         && !WorldOk(created, 0, StepWorld(0, w, second))
  {
    var start := World(Fresh(0), None, None, {});
    first := Pass(Input(LoadNothing, HashMatches, Some(10), Some(10), [Some({7})], [], 0, true),
                  Found(Seen(Some(10), Some(10), true), [Range(0, 10)], 1, None));
    second := Pass(Input(LoadNothing, HashMatches, Some(8), Some(8), [], [(7, Reading(Some(0), ClaimFails, Some(0)))], 0, true),
                   Found(Seen(Some(8), Some(8), true), [], 0, Some(2)));
    FirstPassScans(start, first);
    PassForgets(StepWorld(0, start, first), second);
    assert [first][1..] == [];
  }

  const TrackedOnce: Memory := Memory(map[7 := NewTrack], 11, 10, true, None, Some(Saved(10, {7})))

  lemma FirstPassScans(start: World, first: Event)
    requires start == World(Fresh(0), None, None, {})
    requires first == Pass(Input(LoadNothing, HashMatches, Some(10), Some(10), [Some({7})], [], 0, true),
                           Found(Seen(Some(10), Some(10), true), [Range(0, 10)], 1, None))
    ensures Faithful({(7, 10)}, start, first) && DeletesAboveCursor(start, first)
    ensures StepWorld(0, start, first) == World(TrackedOnce, Some(10), Some(Saved(10, {7})), {})
    ensures WorldOk({(7, 10)}, 0, StepWorld(0, start, first))
  {
    var m := Opened(start.m, first.i);
    assert ScannedAll(m, first.found.ranges, first.i.logs, 0) == m;
    assert Tracked(map[], {7}) == map[7 := NewTrack];
    assert map[7 := NewTrack].Keys == {7};
    assert ScannedMemory(start.m, first.i, first.found) == Memory(map[7 := NewTrack], 11, 10, true, None, None);
    StartsCovered({(7, 10)}, 0);
    PassKeeps({(7, 10)}, 0, start, first.i, first.found);
  }

  lemma PassForgets(w: World, second: Event)
    requires w == World(TrackedOnce, Some(10), Some(Saved(10, {7})), {})
    requires second == Pass(Input(LoadNothing, HashMatches, Some(8), Some(8), [],
                                  [(7, Reading(Some(0), ClaimFails, Some(0)))], 0, true),
                            Found(Seen(Some(8), Some(8), true), [], 0, Some(2)))
    ensures Faithful({(7, 10)}, w, second) && !DeletesAboveCursor(w, second)
    ensures !WorldOk({(7, 10)}, 0, StepWorld(0, w, second))
  {
    var i, f := second.i, second.found;
    var m' := VisitedAll(w.m, i.due, 1, Some(8), Some(8), true, 0);
    assert VisitedAll(w.m, i.due, 0, Some(8), Some(8), true, 0) == w.m;
    assert m' == w.m.(players := map[7 := NewTrack] - {7});
    assert ZeroReadAll(w.m, i.due, 0, f.seen, 0) == {};
    assert ZeroReadAll(w.m, i.due, 1, f.seen, 0) == {(7, 8)};
    assert !Accounted((7, 10), m'.players.Keys, {(7, 8)});
  }
}
