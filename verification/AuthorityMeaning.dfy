/**
 * What a replayed authority state says of the log alone, and which logs are rejected (verify_governance.py): flags are those
 * of the latest event, registrations are unique, histories hold every event in order, operations follow their calls.
 */
module AuthorityMeaning {
  import opened Binary
  import opened Numerals
  import opened Authority
  import opened AuthorityReplay

  /** What one log says, read from its topics and data. */
  datatype Event =
    | TransferBegun(target: string, from: string, to: string)
    | TransferDone(target: string, from: string, to: string)
    | SentinelNamed(target: string, who: string)
    | GuardianNamed(target: string, who: string)
    | PauseSet(target: string, on: bool, by_: string)
    | PoolAdded(pool: nat, asset: string, bank: string, domain: int)
    | ActivitySet(pool: nat, on: bool)
    | HubSet(hub: string, on: bool)
    | RouteSet(pool: nat, hub: string, on: bool)
    | GameAdded(game: nat, module_: string, count: int, gas: int)
    | GameDropped(game: nat)
    | WindowAdded(pool: nat, bank: string, end: int, caller: string)
    | RoleSet(role: string, member: string, granted: bool)
    | AdminChanged
    | DelayChanged(before: int, after: int)
    | CallAdded(op: string, index: nat)
    | CallRun(op: string, index: nat)
    | OperationDropped(op: string)

  predicate IsFlag(w: nat) { w == 0 || w == 1 }

  /** Exactly `n` topics, and at least `words` data words where any are read. */
  predicate Shaped(row: Row, n: nat, words: nat) {
    |row.topics| == n && (words > 0 ==> row.data.Some? && |row.data.value| >= words)
  }

  predicate WordAt(row: Row, i: nat) { i < |row.topics| && ParseWord(row.topics[i]).Some? }

  predicate AddressAt(row: Row, i: nat) { i < |row.topics| && TopicAddress(row.topics[i]).Some? }

  function TheWord(row: Row, i: nat): nat
    requires WordAt(row, i)
  {
    ParseWord(row.topics[i]).value
  }

  function TheAddress(row: Row, i: nat): string
    requires AddressAt(row, i)
  {
    TopicAddress(row.topics[i]).value
  }

  /** None: the log does not have the form of its event. */
  function EventOf(target: string, name: EventName, row: Row): Option<Event> {
    match name
    case GovernanceTransferStarted =>
      if Shaped(row, 3, 0) && AddressAt(row, 1) && AddressAt(row, 2)
      then Some(TransferBegun(target, TheAddress(row, 1), TheAddress(row, 2))) else None
    case GovernanceTransferred =>
      if Shaped(row, 3, 0) && AddressAt(row, 1) && AddressAt(row, 2)
      then Some(TransferDone(target, TheAddress(row, 1), TheAddress(row, 2))) else None
    case SentinelSet => if Shaped(row, 2, 0) && AddressAt(row, 1) then Some(SentinelNamed(target, TheAddress(row, 1))) else None
    case GuardianSet => if Shaped(row, 2, 0) && AddressAt(row, 1) then Some(GuardianNamed(target, TheAddress(row, 1))) else None
    case RiskInPausedSet =>
      if Shaped(row, 2, 1) && AddressAt(row, 1) && IsFlag(row.data.value[0])
      then Some(PauseSet(target, row.data.value[0] == 1, TheAddress(row, 1))) else None
    case PoolRegistered =>
      if Shaped(row, 4, 1) && WordAt(row, 1) && AddressAt(row, 2) && AddressAt(row, 3)
      then Some(PoolAdded(TheWord(row, 1), TheAddress(row, 2), TheAddress(row, 3), row.data.value[0])) else None
    case PoolActiveSet =>
      if Shaped(row, 2, 1) && WordAt(row, 1) && IsFlag(row.data.value[0])
      then Some(ActivitySet(TheWord(row, 1), row.data.value[0] == 1)) else None
    case HubRegistered =>
      if Shaped(row, 2, 1) && AddressAt(row, 1) && IsFlag(row.data.value[0])
      then Some(HubSet(TheAddress(row, 1), row.data.value[0] == 1)) else None
    case HubAllowedForPoolSet =>
      if Shaped(row, 3, 1) && WordAt(row, 1) && AddressAt(row, 2) && IsFlag(row.data.value[0])
      then Some(RouteSet(TheWord(row, 1), TheAddress(row, 2), row.data.value[0] == 1)) else None
    case GameRegistered =>
      if Shaped(row, 3, 2) && WordAt(row, 1) && AddressAt(row, 2)
      then Some(GameAdded(TheWord(row, 1), TheAddress(row, 2), row.data.value[0], row.data.value[1])) else None
    case GameDisabled => if Shaped(row, 3, 0) && WordAt(row, 1) then Some(GameDropped(TheWord(row, 1))) else None
    case VoidWindowOpened =>
      if Shaped(row, 4, 1) && WordAt(row, 1) && AddressAt(row, 2) && AddressAt(row, 3)
      then Some(WindowAdded(TheWord(row, 1), TheAddress(row, 2), row.data.value[0], TheAddress(row, 3))) else None
    case RoleGranted =>
      if Shaped(row, 4, 0) && WordAt(row, 1) && AddressAt(row, 2)
      then Some(RoleSet(HexWord(TheWord(row, 1)), TheAddress(row, 2), true)) else None
    case RoleRevoked =>
      if Shaped(row, 4, 0) && WordAt(row, 1) && AddressAt(row, 2)
      then Some(RoleSet(HexWord(TheWord(row, 1)), TheAddress(row, 2), false)) else None
    case RoleAdminChanged => if Shaped(row, 4, 0) then Some(AdminChanged) else None
    case MinDelayChange =>
      if row.data.Some? && |row.data.value| >= 2 then Some(DelayChanged(row.data.value[0], row.data.value[1])) else None
    case CallScheduled =>
      if Shaped(row, 3, 0) && WordAt(row, 1) && WordAt(row, 2)
      then Some(CallAdded(HexWord(TheWord(row, 1)), TheWord(row, 2))) else None
    case CallExecuted =>
      if Shaped(row, 3, 0) && WordAt(row, 1) && WordAt(row, 2)
      then Some(CallRun(HexWord(TheWord(row, 1)), TheWord(row, 2))) else None
    case Cancelled => if Shaped(row, 2, 0) && WordAt(row, 1) then Some(OperationDropped(HexWord(TheWord(row, 1)))) else None
  }

  // ---- Reading a list of events ---------------------------------------------------------------------------------------

  /** What the latest event that says anything says. */
  function Latest<V>(es: seq<Event>, says: Event -> Option<V>): Option<V> {
    if es == [] then None
    else
      var e := says(es[|es| - 1]);
      if e.Some? then e else Latest(es[..|es| - 1], says)
  }

  /** Everything the events say, in order. */
  function Collected<V>(es: seq<Event>, says: Event -> Option<V>): seq<V> {
    if es == [] then []
    else
      var earlier, e := Collected(es[..|es| - 1], says), says(es[|es| - 1]);
      if e.Some? then earlier + [e.value] else earlier
  }

  lemma LatestNext<V>(es: seq<Event>, e: Event, says: Event -> Option<V>)
    ensures Latest(es + [e], says) == if says(e).Some? then says(e) else Latest(es, says)
  {
    assert (es + [e])[..|es|] == es;
  }

  lemma CollectedNext<V>(es: seq<Event>, e: Event, says: Event -> Option<V>)
    ensures Collected(es + [e], says) == if says(e).Some? then Collected(es, says) + [says(e).value] else Collected(es, says)
  {
    assert (es + [e])[..|es|] == es;
  }

  function SetsRole(rm: (string, string)): Event -> Option<bool> {
    (e: Event) => if e.RoleSet? && (e.role, e.member) == rm then Some(e.granted) else None
  }

  function SetsHub(hub: string): Event -> Option<bool> { (e: Event) => if e.HubSet? && e.hub == hub then Some(e.on) else None }

  function SetsRoute(route: (nat, string)): Event -> Option<bool> {
    (e: Event) => if e.RouteSet? && (e.pool, e.hub) == route then Some(e.on) else None
  }

  /** A registration makes its pool active. */
  function SetsActivity(pool: nat): Event -> Option<bool> {
    (e: Event) => if e.PoolAdded? && e.pool == pool then Some(true) else if e.ActivitySet? && e.pool == pool then Some(e.on) else None
  }

  function AddsPool(pool: nat): Event -> Option<(string, string, int)> {
    (e: Event) => if e.PoolAdded? && e.pool == pool then Some((e.asset, e.bank, e.domain)) else None
  }

  function AddsGame(game: nat): Event -> Option<(string, int, int)> {
    (e: Event) => if e.GameAdded? && e.game == game then Some((e.module_, e.count, e.gas)) else None
  }

  function Begins(target: string): Event -> Option<(string, string)> {
    (e: Event) => if e.TransferBegun? && e.target == target then Some((e.from, e.to)) else None
  }

  function Ends(target: string): Event -> Option<(string, string)> {
    (e: Event) => if e.TransferDone? && e.target == target then Some((e.from, e.to)) else None
  }

  function NamesSentinel(target: string): Event -> Option<string> {
    (e: Event) => if e.SentinelNamed? && e.target == target then Some(e.who) else None
  }

  function NamesGuardian(target: string): Event -> Option<string> {
    (e: Event) => if e.GuardianNamed? && e.target == target then Some(e.who) else None
  }

  function Pauses_(target: string): Event -> Option<(bool, string)> {
    (e: Event) => if e.PauseSet? && e.target == target then Some((e.on, e.by_)) else None
  }

  function Drops(): Event -> Option<nat> { (e: Event) => if e.GameDropped? then Some(e.game) else None }

  function AddsWindow(): Event -> Option<(int, string, int, string)> {
    (e: Event) => if e.WindowAdded? then Some((e.pool, e.bank, e.end, e.caller)) else None
  }

  function ChangesDelay(): Event -> Option<(int, int)> { (e: Event) => if e.DelayChanged? then Some((e.before, e.after)) else None }

  function ChangesAdmin(): Event -> Option<()> { (e: Event) => if e.AdminChanged? then Some(()) else None }

  /** The events of one operation. */
  function Concerns(op: string): Event -> Option<Event> {
    (e: Event) => if (e.CallAdded? || e.CallRun? || e.OperationDropped?) && e.op == op then Some(e) else None
  }

  /** The calls an operation has once this one is scheduled. */
  function CountsCalls(op: string): Event -> Option<nat> {
    (e: Event) => if e.CallAdded? && e.op == op then Some(e.index + 1) else None
  }

  // ---- Which events are accepted ------------------------------------------------------------------------------------------

  /**
   * After `es`, the event is accepted: pools and games are registered once, activity is that of a registered pool, calls of an
   * operation are scheduled in order from 0, anew only after a cancellation, run once scheduled, and cancelled before any runs.
   */
  predicate Admits(es: seq<Event>, e: Event) {
    match e
    case PoolAdded(pool, _, _, _) => pool < 0x1_0000_0000_0000_0000 && Latest(es, AddsPool(pool)).None?
    case ActivitySet(pool, _) => Latest(es, AddsPool(pool)).Some?
    case RouteSet(pool, _, _) => pool < 0x1_0000_0000_0000_0000
    case GameAdded(game, _, _, _) => Latest(es, AddsGame(game)).None?
    case CallAdded(op, index) =>
      var last := Latest(es, Concerns(op));
      if index == 0 then last.None? || last.value.OperationDropped? else last == Some(CallAdded(op, index - 1))
    case CallRun(op, index) =>
      var last, calls := Latest(es, Concerns(op)), Latest(es, CountsCalls(op));
      last.Some? && !last.value.OperationDropped? && calls.Some? && index < calls.value
    case OperationDropped(op) => Latest(es, Concerns(op)).Some? && Latest(es, Concerns(op)).value.CallAdded?
    case _ => true
  }

  predicate AdmitsAll(es: seq<Event>) { forall i :: 0 <= i < |es| ==> Admits(es[..i], es[i]) }

  // ---- What a state says of the events -------------------------------------------------------------------------------------

  function Get<K(==), V>(m: map<K, V>, k: K): Option<V> { if k in m then Some(m[k]) else None }

  /** Each key has what the latest event on it says, and no key is there without one. */
  ghost predicate MapIs<K(!new), V(!new)>(m: map<K, V>, es: seq<Event>, says: K -> (Event -> Option<V>)) {
    forall k :: Get(m, k) == Latest(es, says(k))
  }

  function Past<V>(m: map<string, seq<V>>, t: string): seq<V> { if t in m then m[t] else [] }

  /** Each target has all its events, in order, and no target is there without one. */
  ghost predicate HistoryIs<V(!new)>(m: map<string, seq<V>>, es: seq<Event>, says: string -> (Event -> Option<V>)) {
    forall t :: Past(m, t) == Collected(es, says(t)) && (t in m ==> m[t] != [])
  }

  function Flag(roles: map<string, map<string, bool>>, rm: (string, string)): Option<bool> {
    if rm.0 in roles then Get(roles[rm.0], rm.1) else None
  }

  ghost predicate RolesAre(roles: map<string, map<string, bool>>, es: seq<Event>) {
    && (forall rm :: Flag(roles, rm) == Latest(es, SetsRole(rm)))
    && forall r :: r in roles ==> roles[r] != map[]
  }

  function PhaseOf(last: Event): Phase {
    if last.CallAdded? then PhaseScheduled else if last.CallRun? then PhaseExecuted else PhaseCancelled
  }

  /** An operation is in the phase of its latest event and has the calls of its latest schedule. */
  ghost predicate OperationIs(operations: map<string, Operation>, es: seq<Event>, op: string) {
    var last := Latest(es, Concerns(op));
    if last.None? then op !in operations && Latest(es, CountsCalls(op)).None?
    else
      && op in operations && operations[op].phase == PhaseOf(last.value)
      && Latest(es, CountsCalls(op)) == Some(operations[op].calls)
      && (last.value.CallAdded? ==> operations[op].calls == last.value.index + 1)
  }

  ghost predicate OperationsAre(operations: map<string, Operation>, es: seq<Event>) {
    forall op :: OperationIs(operations, es, op)
  }

  ghost predicate ListsAre(s: State, es: seq<Event>) {
    && s.disabledGames == Collected(es, Drops()) && s.voidWindows == Collected(es, AddsWindow())
    && s.minDelayChanges == Collected(es, ChangesDelay()) && s.roleAdminChanges == |Collected(es, ChangesAdmin())|
  }

  ghost predicate Describes(s: State, es: seq<Event>) {
    && MapIs(s.pools, es, AddsPool) && MapIs(s.poolActive, es, SetsActivity) && MapIs(s.registered, es, SetsHub)
    && MapIs(s.allowed, es, SetsRoute) && MapIs(s.games, es, AddsGame)
    && HistoryIs(s.transfers, es, Ends) && HistoryIs(s.transfersStarted, es, Begins)
    && HistoryIs(s.sentinels, es, NamesSentinel) && HistoryIs(s.guardians, es, NamesGuardian) && HistoryIs(s.pauses, es, Pauses_)
    && RolesAre(s.roles, es) && OperationsAre(s.operations, es) && ListsAre(s, es)
  }

  // ---- One event -----------------------------------------------------------------------------------------------------------

  lemma MapNext<K(!new), V(!new)>(m: map<K, V>, n: map<K, V>, es: seq<Event>, e: Event, says: K -> (Event -> Option<V>))
    requires MapIs(m, es, says)
    requires forall k :: Get(n, k) == if says(k)(e).Some? then says(k)(e) else Get(m, k)
    ensures MapIs(n, es + [e], says)
  {
    forall k ensures Get(n, k) == Latest(es + [e], says(k)) {
      LatestNext(es, e, says(k));
    }
  }

  /** What applying a log comes to, in the terms of what it says. */
  function After(s: State, e: Event): Option<State> {
    match e
    case TransferBegun(target, from, to) => Some(s.(transfersStarted := Appended(s.transfersStarted, target, (from, to))))
    case TransferDone(target, from, to) => Some(s.(transfers := Appended(s.transfers, target, (from, to))))
    case SentinelNamed(target, who) => Some(s.(sentinels := Appended(s.sentinels, target, who)))
    case GuardianNamed(target, who) => Some(s.(guardians := Appended(s.guardians, target, who)))
    case PauseSet(target, on, by_) => Some(s.(pauses := Appended(s.pauses, target, (on, by_))))
    case PoolAdded(pool, asset, bank, domain) =>
      if pool >= POOL_LIMIT || pool in s.pools then None
      else Some(s.(pools := s.pools[pool := (asset, bank, domain)], poolActive := s.poolActive[pool := true]))
    case ActivitySet(pool, on) => if pool in s.pools then Some(s.(poolActive := s.poolActive[pool := on])) else None
    case HubSet(hub, on) => Some(s.(registered := s.registered[hub := on]))
    case RouteSet(pool, hub, on) => if pool >= POOL_LIMIT then None else Some(s.(allowed := s.allowed[(pool, hub) := on]))
    case GameAdded(game, module_, count, gas) =>
      if game in s.games then None else Some(s.(games := s.games[game := (module_, count, gas)]))
    case GameDropped(game) => Some(s.(disabledGames := s.disabledGames + [game]))
    case WindowAdded(pool, bank, end, caller) => Some(s.(voidWindows := s.voidWindows + [(pool, bank, end, caller)]))
    case RoleSet(role, member, granted) =>
      Some(s.(roles := s.roles[role := (if role in s.roles then s.roles[role] else map[])[member := granted]]))
    case AdminChanged => Some(s.(roleAdminChanges := s.roleAdminChanges + 1))
    case DelayChanged(before, after) => Some(s.(minDelayChanges := s.minDelayChanges + [(before, after)]))
    case CallAdded(op, index) => WithOperations(s, Schedule(s.operations, op, index))
    case CallRun(op, index) => WithOperations(s, Execute(s.operations, op, index))
    case OperationDropped(op) => WithOperations(s, Cancel(s.operations, op))
  }

  predicate AsSaid(s: State, target: string, name: EventName, row: Row) {
    var e := EventOf(target, name, row);
    Apply(s, target, name, row) == if e.None? then None else After(s, e.value)
  }

  lemma WordReads(row: Row, count: nat, i: nat)
    requires 1 <= i <= count
    ensures WordIn(row, count, i) == if |row.topics| == count + 1 && WordAt(row, i) then Some(TheWord(row, i)) else None
  {
  }

  lemma AddressReads(row: Row, count: nat, i: nat)
    requires 1 <= i <= count
    ensures AddressIn(row, count, i) == if |row.topics| == count + 1 && AddressAt(row, i) then Some(TheAddress(row, i)) else None
  {
  }

  lemma TransferAsSaid(s: State, target: string, name: EventName, row: Row)
    requires name.GovernanceTransferStarted? || name.GovernanceTransferred?
    ensures AsSaid(s, target, name, row)
  {
    hide IsWord, IsAddress, WordIn, AddressIn, WordAt, AddressAt, TheWord, TheAddress, HexWord, Appended;
    AddressReads(row, 2, 1);
    AddressReads(row, 2, 2);
  }

  lemma NamesAsSaid(s: State, target: string, name: EventName, row: Row)
    requires name.SentinelSet? || name.GuardianSet? || name.RiskInPausedSet?
    ensures AsSaid(s, target, name, row)
  {
    hide IsWord, IsAddress, WordIn, AddressIn, WordAt, AddressAt, TheWord, TheAddress, HexWord, Appended;
    AddressReads(row, 1, 1);
  }

  lemma RoleAsSaid(s: State, target: string, name: EventName, row: Row)
    requires name.RoleGranted? || name.RoleRevoked? || name.RoleAdminChanged?
    ensures AsSaid(s, target, name, row)
  {
    hide IsWord, IsAddress, WordIn, AddressIn, WordAt, AddressAt, TheWord, TheAddress, HexWord;
    WordReads(row, 3, 1);
    AddressReads(row, 3, 2);
  }

  lemma PoolAsSaid(s: State, target: string, name: EventName, row: Row)
    requires name.PoolRegistered?
    ensures AsSaid(s, target, name, row)
  {
    hide IsWord, IsAddress, WordIn, AddressIn, WordAt, AddressAt, TheWord, TheAddress, HexWord;
    WordReads(row, 3, 1);
    AddressReads(row, 3, 2);
    AddressReads(row, 3, 3);
  }

  lemma ActivityAsSaid(s: State, target: string, name: EventName, row: Row)
    requires name.PoolActiveSet? || name.HubRegistered?
    ensures AsSaid(s, target, name, row)
  {
    hide IsWord, IsAddress, WordIn, AddressIn, WordAt, AddressAt, TheWord, TheAddress, HexWord;
    WordReads(row, 1, 1);
    AddressReads(row, 1, 1);
  }

  lemma RouteAsSaid(s: State, target: string, name: EventName, row: Row)
    requires name.HubAllowedForPoolSet? || name.GameDisabled?
    ensures AsSaid(s, target, name, row)
  {
    hide IsWord, IsAddress, WordIn, AddressIn, WordAt, AddressAt, TheWord, TheAddress, HexWord;
    WordReads(row, 2, 1);
    AddressReads(row, 2, 2);
  }

  lemma GameAsSaid(s: State, target: string, name: EventName, row: Row)
    requires name.GameRegistered? || name.VoidWindowOpened?
    ensures AsSaid(s, target, name, row)
  {
    hide IsWord, IsAddress, WordIn, AddressIn, WordAt, AddressAt, TheWord, TheAddress, HexWord;
    WordReads(row, 2, 1);
    AddressReads(row, 2, 2);
    WordReads(row, 3, 1);
    AddressReads(row, 3, 2);
    AddressReads(row, 3, 3);
  }

  lemma CallAsSaid(s: State, target: string, name: EventName, row: Row)
    requires name.CallScheduled? || name.CallExecuted?
    ensures AsSaid(s, target, name, row)
  {
    hide IsWord, IsAddress, WordIn, AddressIn, WordAt, AddressAt, TheWord, TheAddress, HexWord, Schedule, Execute, WithOperations;
    WordReads(row, 2, 1);
    WordReads(row, 2, 2);
  }

  lemma TimelockAsSaid(s: State, target: string, name: EventName, row: Row)
    requires name.MinDelayChange? || name.Cancelled?
    ensures AsSaid(s, target, name, row)
  {
    hide IsWord, IsAddress, WordIn, AddressIn, WordAt, AddressAt, TheWord, TheAddress, HexWord, Cancel, WithOperations;
    WordReads(row, 1, 1);
  }

  /** A log without the form of its event is rejected; any other is applied as what it says. */
  lemma AppliesAsSaid(s: State, target: string, name: EventName, row: Row)
    ensures AsSaid(s, target, name, row)
  {
    hide AsSaid;
    match name
    case PoolRegistered => PoolAsSaid(s, target, name, row);
    case PoolActiveSet | HubRegistered => ActivityAsSaid(s, target, name, row);
    case HubAllowedForPoolSet | GameDisabled => RouteAsSaid(s, target, name, row);
    case GameRegistered | VoidWindowOpened => GameAsSaid(s, target, name, row);
    case CallScheduled | CallExecuted => CallAsSaid(s, target, name, row);
    case MinDelayChange | Cancelled => TimelockAsSaid(s, target, name, row);
    case GovernanceTransferStarted | GovernanceTransferred => TransferAsSaid(s, target, name, row);
    case SentinelSet | GuardianSet | RiskInPausedSet => NamesAsSaid(s, target, name, row);
    case RoleGranted | RoleRevoked | RoleAdminChanged => RoleAsSaid(s, target, name, row);
  }

  lemma PoolsStep(s: State, e: Event, t: State)
    requires After(s, e) == Some(t)
    ensures forall p :: Get(t.pools, p) == if AddsPool(p)(e).Some? then AddsPool(p)(e) else Get(s.pools, p)
    ensures forall p :: Get(t.poolActive, p) == if SetsActivity(p)(e).Some? then SetsActivity(p)(e) else Get(s.poolActive, p)
  {
    hide Appended, Schedule, Execute, Cancel;
  }

  lemma MapsSame(s: State, e: Event, t: State)
    requires After(s, e) == Some(t)
    ensures t.registered == if e.HubSet? then s.registered[e.hub := e.on] else s.registered
    ensures t.allowed == if e.RouteSet? then s.allowed[(e.pool, e.hub) := e.on] else s.allowed
    ensures t.games == if e.GameAdded? then s.games[e.game := (e.module_, e.count, e.gas)] else s.games
  {
    hide Appended, Schedule, Execute, Cancel;
  }

  lemma HubsStep(s: State, e: Event, t: State)
    requires After(s, e) == Some(t)
    ensures forall h :: Get(t.registered, h) == if SetsHub(h)(e).Some? then SetsHub(h)(e) else Get(s.registered, h)
    ensures forall r :: Get(t.allowed, r) == if SetsRoute(r)(e).Some? then SetsRoute(r)(e) else Get(s.allowed, r)
    ensures forall g :: Get(t.games, g) == if AddsGame(g)(e).Some? then AddsGame(g)(e) else Get(s.games, g)
  {
    hide After;
    MapsSame(s, e, t);
  }

  /** A history gains what the event says of its target, and nothing else. */
  ghost predicate Gains<V(!new)>(m: map<string, seq<V>>, n: map<string, seq<V>>, e: Event, says: string -> (Event -> Option<V>)) {
    && (forall t :: Past(n, t) == if says(t)(e).Some? then Past(m, t) + [says(t)(e).value] else Past(m, t))
    && forall t :: t in n ==> t in m || says(t)(e).Some?
  }

  lemma HistoryNext<V(!new)>(m: map<string, seq<V>>, n: map<string, seq<V>>, es: seq<Event>, e: Event,
                             says: string -> (Event -> Option<V>))
    requires HistoryIs(m, es, says) && Gains(m, n, e, says)
    ensures HistoryIs(n, es + [e], says)
  {
    forall t ensures Past(n, t) == Collected(es + [e], says(t)) && (t in n ==> n[t] != []) {
      CollectedNext(es, e, says(t));
      assert Past(n, t) == if says(t)(e).Some? then Past(m, t) + [says(t)(e).value] else Past(m, t);
    }
  }

  lemma GainsOne<V(!new)>(m: map<string, seq<V>>, target: string, x: V, e: Event, says: string -> (Event -> Option<V>))
    requires forall t :: says(t)(e) == if t == target then Some(x) else None
    ensures Gains(m, Appended(m, target, x), e, says)
  {
  }

  lemma GainsNone<V(!new)>(m: map<string, seq<V>>, e: Event, says: string -> (Event -> Option<V>))
    requires forall t :: says(t)(e).None?
    ensures Gains(m, m, e, says)
  {
  }

  lemma TransfersStep(s: State, e: Event, t: State)
    requires After(s, e) == Some(t)
    ensures Gains(s.transfers, t.transfers, e, Ends) && Gains(s.transfersStarted, t.transfersStarted, e, Begins)
  {
    hide Gains, Appended, After;
    SameUnless(s, e, t);
    if e.TransferDone? {
      GainsOne(s.transfers, e.target, (e.from, e.to), e, Ends);
    } else {
      GainsNone(s.transfers, e, Ends);
    }
    if e.TransferBegun? {
      GainsOne(s.transfersStarted, e.target, (e.from, e.to), e, Begins);
    } else {
      GainsNone(s.transfersStarted, e, Begins);
    }
  }

  lemma NamesStep(s: State, e: Event, t: State)
    requires After(s, e) == Some(t)
    ensures Gains(s.sentinels, t.sentinels, e, NamesSentinel) && Gains(s.guardians, t.guardians, e, NamesGuardian)
    ensures Gains(s.pauses, t.pauses, e, Pauses_)
  {
    hide Gains, Appended, After;
    SameUnless(s, e, t);
    if e.SentinelNamed? {
      GainsOne(s.sentinels, e.target, e.who, e, NamesSentinel);
    } else {
      GainsNone(s.sentinels, e, NamesSentinel);
    }
    if e.GuardianNamed? {
      GainsOne(s.guardians, e.target, e.who, e, NamesGuardian);
    } else {
      GainsNone(s.guardians, e, NamesGuardian);
    }
    if e.PauseSet? {
      GainsOne(s.pauses, e.target, (e.on, e.by_), e, Pauses_);
    } else {
      GainsNone(s.pauses, e, Pauses_);
    }
  }

  lemma SameUnless(s: State, e: Event, t: State)
    requires After(s, e) == Some(t)
    ensures t.transfers == if e.TransferDone? then Appended(s.transfers, e.target, (e.from, e.to)) else s.transfers
    ensures t.transfersStarted == if e.TransferBegun? then Appended(s.transfersStarted, e.target, (e.from, e.to)) else s.transfersStarted
    ensures t.sentinels == if e.SentinelNamed? then Appended(s.sentinels, e.target, e.who) else s.sentinels
    ensures t.guardians == if e.GuardianNamed? then Appended(s.guardians, e.target, e.who) else s.guardians
    ensures t.pauses == if e.PauseSet? then Appended(s.pauses, e.target, (e.on, e.by_)) else s.pauses
  {
    hide Appended, Schedule, Execute, Cancel;
  }

  lemma RolesSame(s: State, e: Event, t: State)
    requires After(s, e) == Some(t)
    ensures t.roles == if e.RoleSet?
                       then s.roles[e.role := (if e.role in s.roles then s.roles[e.role] else map[])[e.member := e.granted]]
                       else s.roles
  {
    hide Appended, Schedule, Execute, Cancel;
  }

  lemma RolesStep(s: State, e: Event, t: State)
    requires After(s, e) == Some(t)
    ensures forall rm :: Flag(t.roles, rm) == if SetsRole(rm)(e).Some? then SetsRole(rm)(e) else Flag(s.roles, rm)
    ensures forall r :: r in t.roles ==> (r in s.roles && t.roles[r] == s.roles[r]) || t.roles[r] != map[]
  {
    hide After;
    RolesSame(s, e, t);
    if e.RoleSet? {
      assert e.member in (if e.role in s.roles then s.roles[e.role] else map[])[e.member := e.granted];
    }
  }

  lemma ListsStep(s: State, e: Event, t: State)
    requires After(s, e) == Some(t)
    ensures t.disabledGames == if Drops()(e).Some? then s.disabledGames + [Drops()(e).value] else s.disabledGames
    ensures t.voidWindows == if AddsWindow()(e).Some? then s.voidWindows + [AddsWindow()(e).value] else s.voidWindows
    ensures t.minDelayChanges == if ChangesDelay()(e).Some? then s.minDelayChanges + [ChangesDelay()(e).value] else s.minDelayChanges
    ensures t.roleAdminChanges == s.roleAdminChanges + if ChangesAdmin()(e).Some? then 1 else 0
  {
  }
  lemma OperationsSame(s: State, e: Event, t: State)
    requires After(s, e) == Some(t) && !e.CallAdded? && !e.CallRun? && !e.OperationDropped?
    ensures t.operations == s.operations
  {
    hide Appended;
  }

  lemma OperationNext(s: State, es: seq<Event>, e: Event, t: State, op: string)
    requires After(s, e) == Some(t) && (e.CallAdded? || e.CallRun? || e.OperationDropped?)
    requires OperationIs(s.operations, es, op)
    ensures OperationIs(t.operations, es + [e], op)
  {
    LatestNext(es, e, Concerns(op));
    LatestNext(es, e, CountsCalls(op));
    hide Latest;
  }

  lemma OperationsNext(s: State, es: seq<Event>, e: Event, t: State)
    requires After(s, e) == Some(t) && OperationsAre(s.operations, es)
    ensures OperationsAre(t.operations, es + [e])
  {
    hide After, OperationIs;
    forall op ensures OperationIs(t.operations, es + [e], op) {
      if e.CallAdded? || e.CallRun? || e.OperationDropped? {
        OperationNext(s, es, e, t, op);
      } else {
        OperationsSame(s, e, t);
        OperationStays(s.operations, es, e, op);
      }
    }
  }

  lemma OperationStays(operations: map<string, Operation>, es: seq<Event>, e: Event, op: string)
    requires OperationIs(operations, es, op) && !e.CallAdded? && !e.CallRun? && !e.OperationDropped?
    ensures OperationIs(operations, es + [e], op)
  {
    LatestNext(es, e, Concerns(op));
    LatestNext(es, e, CountsCalls(op));
    hide Latest;
  }

  lemma RolesNext(roles: map<string, map<string, bool>>, es: seq<Event>, s: State, e: Event, t: State)
    requires After(s, e) == Some(t) && RolesAre(s.roles, es)
    ensures RolesAre(t.roles, es + [e])
  {
    hide After, Latest, SetsRole, Flag;
    RolesStep(s, e, t);
    forall rm ensures Flag(t.roles, rm) == Latest(es + [e], SetsRole(rm)) {
      LatestNext(es, e, SetsRole(rm));
    }
  }

  lemma ListsNext(s: State, es: seq<Event>, e: Event, t: State)
    requires After(s, e) == Some(t) && ListsAre(s, es)
    ensures ListsAre(t, es + [e])
  {
    hide After, Collected, Drops, AddsWindow, ChangesDelay, ChangesAdmin;
    ListsStep(s, e, t);
    CollectedNext(es, e, Drops());
    CollectedNext(es, e, AddsWindow());
    CollectedNext(es, e, ChangesDelay());
    CollectedNext(es, e, ChangesAdmin());
  }

  /** Applying an event keeps the state what the events say. */
  lemma DescribesNext(s: State, es: seq<Event>, e: Event, t: State)
    requires After(s, e) == Some(t) && Describes(s, es)
    ensures Describes(t, es + [e])
  {
    hide After, MapIs, HistoryIs, RolesAre, OperationsAre, ListsAre, Gains, AddsPool, SetsActivity, SetsHub, SetsRoute, AddsGame,
         Get;
    PoolsStep(s, e, t);
    MapNext(s.pools, t.pools, es, e, AddsPool);
    MapNext(s.poolActive, t.poolActive, es, e, SetsActivity);
    HubsStep(s, e, t);
    MapNext(s.registered, t.registered, es, e, SetsHub);
    MapNext(s.allowed, t.allowed, es, e, SetsRoute);
    MapNext(s.games, t.games, es, e, AddsGame);
    HistoriesNext(s, es, e, t);
    RolesNext(s.roles, es, s, e, t);
    OperationsNext(s, es, e, t);
    ListsNext(s, es, e, t);
  }

  ghost predicate HistoriesAre(s: State, es: seq<Event>) {
    && HistoryIs(s.transfers, es, Ends) && HistoryIs(s.transfersStarted, es, Begins)
    && HistoryIs(s.sentinels, es, NamesSentinel) && HistoryIs(s.guardians, es, NamesGuardian) && HistoryIs(s.pauses, es, Pauses_)
  }

  lemma HistoriesNext(s: State, es: seq<Event>, e: Event, t: State)
    requires After(s, e) == Some(t) && HistoriesAre(s, es)
    ensures HistoriesAre(t, es + [e])
  {
    hide After, HistoryIs, Gains;
    TransfersStep(s, e, t);
    NamesStep(s, e, t);
    HistoryNext(s.transfers, t.transfers, es, e, Ends);
    HistoryNext(s.transfersStarted, t.transfersStarted, es, e, Begins);
    HistoryNext(s.sentinels, t.sentinels, es, e, NamesSentinel);
    HistoryNext(s.guardians, t.guardians, es, e, NamesGuardian);
    HistoryNext(s.pauses, t.pauses, es, e, Pauses_);
  }

  lemma {:induction false} LatestConcerns(es: seq<Event>, op: string)
    ensures var last := Latest(es, Concerns(op));
      last.Some? ==> (last.value.CallAdded? || last.value.CallRun? || last.value.OperationDropped?) && last.value.op == op
  {
    if es != [] {
      LatestConcerns(es[..|es| - 1], op);
    }
  }

  lemma OperationAcceptedIff(s: State, es: seq<Event>, e: Event)
    requires (e.CallAdded? || e.CallRun? || e.OperationDropped?) && OperationIs(s.operations, es, e.op)
    ensures After(s, e).Some? <==> Admits(es, e)
  {
    hide Latest;
    LatestConcerns(es, e.op);
  }

  /** An event is accepted exactly when the events before it admit it. */
  lemma AcceptedIff(s: State, es: seq<Event>, e: Event)
    requires Describes(s, es)
    ensures After(s, e).Some? <==> Admits(es, e)
  {
    hide HistoryIs, RolesAre, ListsAre, Latest, Appended, OperationIs, Schedule, Execute, Cancel;
    match e
    case PoolAdded(pool, _, _, _) => assert Get(s.pools, pool) == Latest(es, AddsPool(pool));
    case ActivitySet(pool, _) => assert Get(s.pools, pool) == Latest(es, AddsPool(pool));
    case GameAdded(game, _, _, _) => assert Get(s.games, game) == Latest(es, AddsGame(game));
    case CallAdded(_, _) | CallRun(_, _) | OperationDropped(_) => OperationAcceptedIff(s, es, e);
    case _ =>
  }

  // ---- A whole history ---------------------------------------------------------------------------------------------------------

  /** What each log says; None when one does not have the form of its event. */
  function EventsOf(items: seq<Item>): Option<seq<Event>> {
    if items == [] then Some([])
    else
      var earlier, x := EventsOf(items[..|items| - 1]), items[|items| - 1];
      var e := EventOf(x.target, x.name, x.row);
      if earlier.None? || e.None? then None else Some(earlier.value + [e.value])
  }

  lemma NothingYet()
    ensures Describes(EMPTY, []) && AdmitsAll([])
  {
  }

  lemma AdmitsNext(es: seq<Event>, e: Event)
    ensures AdmitsAll(es + [e]) <==> AdmitsAll(es) && Admits(es, e)
  {
    hide Admits;
    assert (es + [e])[..|es|] == es && (es + [e])[|es|] == e;
    assert forall i :: 0 <= i < |es| ==> (es + [e])[..i] == es[..i] && (es + [e])[i] == es[i];
    if AdmitsAll(es + [e]) {
      forall i | 0 <= i < |es| ensures Admits(es[..i], es[i]) {
        assert Admits((es + [e])[..i], (es + [e])[i]);
      }
      assert Admits((es + [e])[..|es|], (es + [e])[|es|]);
    }
  }

  /**
   * A history is accepted exactly when every log has the form of its event and is admitted by those before it, and the state
   * it ends in is what the events say.
   */
  lemma {:induction false} ReplayMeans(items: seq<Item>)
    ensures var es := EventsOf(items);
      && (AppliedAll(EMPTY, items).Some? <==> es.Some? && AdmitsAll(es.value))
      && (AppliedAll(EMPTY, items).Some? ==> Describes(AppliedAll(EMPTY, items).value, es.value))
  {
    hide Describes, AdmitsAll, After, EventOf, Apply, AsSaid;
    if items == [] {
      NothingYet();
    } else {
      var front, x := items[..|items| - 1], items[|items| - 1];
      ReplayMeans(front);
      var before, es, e := AppliedAll(EMPTY, front), EventsOf(front), EventOf(x.target, x.name, x.row);
      if es.Some? && e.Some? {
        AdmitsNext(es.value, e.value);
      }
      if before.Some? {
        LastMeans(before.value, es.value, x);
      }
    }
  }

  lemma LastMeans(s: State, es: seq<Event>, x: Item)
    requires Describes(s, es)
    ensures var e, t := EventOf(x.target, x.name, x.row), Apply(s, x.target, x.name, x.row);
      && (t.Some? <==> e.Some? && Admits(es, e.value))
      && (t.Some? ==> Describes(t.value, es + [e.value]))
  {
    hide Describes, After, EventOf, Apply, Admits;
    AppliesAsSaid(s, x.target, x.name, x.row);
    var e := EventOf(x.target, x.name, x.row);
    if e.Some? {
      AcceptedIff(s, es, e.value);
      if After(s, e.value).Some? {
        DescribesNext(s, es, e.value, After(s, e.value).value);
      }
    }
  }

  /** The events fix the state: a second one of which they say the same is the same. */
  lemma OneState(s: State, t: State, es: seq<Event>)
    requires Describes(s, es) && Describes(t, es)
    ensures s == t
  {
    hide Latest, Collected, AddsPool, SetsActivity, SetsHub, SetsRoute, AddsGame;
    SameMap(s.pools, t.pools, es, AddsPool);
    SameMap(s.poolActive, t.poolActive, es, SetsActivity);
    SameMap(s.registered, t.registered, es, SetsHub);
    SameMap(s.allowed, t.allowed, es, SetsRoute);
    SameMap(s.games, t.games, es, AddsGame);
    hide MapIs, HistoryIs;
    SameHistory(s.transfers, t.transfers, es, Ends);
    SameHistory(s.transfersStarted, t.transfersStarted, es, Begins);
    SameHistory(s.sentinels, t.sentinels, es, NamesSentinel);
    SameHistory(s.guardians, t.guardians, es, NamesGuardian);
    SameHistory(s.pauses, t.pauses, es, Pauses_);
    SameRoles(s.roles, t.roles, es);
    SameOperations(s.operations, t.operations, es);
  }

  lemma SameMap<K(!new), V(!new)>(m: map<K, V>, n: map<K, V>, es: seq<Event>, says: K -> (Event -> Option<V>))
    requires MapIs(m, es, says) && MapIs(n, es, says)
    ensures m == n
  {
    hide Latest;
    forall k ensures k in m <==> k in n {
      assert Get(m, k) == Latest(es, says(k)) == Get(n, k);
    }
    forall k | k in m ensures m[k] == n[k] {
      assert Get(m, k) == Latest(es, says(k)) == Get(n, k);
    }
  }

  lemma SameHistory<V(!new)>(m: map<string, seq<V>>, n: map<string, seq<V>>, es: seq<Event>, says: string -> (Event -> Option<V>))
    requires HistoryIs(m, es, says) && HistoryIs(n, es, says)
    ensures m == n
  {
    hide Collected;
    forall t ensures t in m <==> t in n {
      assert Past(m, t) == Collected(es, says(t)) == Past(n, t);
    }
    forall t | t in m ensures m[t] == n[t] {
      assert Past(m, t) == Collected(es, says(t)) == Past(n, t);
    }
  }

  lemma SameRoles(m: map<string, map<string, bool>>, n: map<string, map<string, bool>>, es: seq<Event>)
    requires RolesAre(m, es) && RolesAre(n, es)
    ensures m == n
  {
    hide Latest;
    forall r, x ensures Flag(m, (r, x)) == Flag(n, (r, x)) {
      assert Flag(m, (r, x)) == Latest(es, SetsRole((r, x)));
    }
    RolesWithin(m, n);
    RolesWithin(n, m);
    forall r | r in m ensures m[r] == n[r] {
      assert forall x :: Get(m[r], x) == Flag(m, (r, x)) && Get(n[r], x) == Flag(n, (r, x));
      assert forall x :: x in m[r] <==> Get(m[r], x).Some?;
      assert forall x :: x in n[r] <==> Get(n[r], x).Some?;
    }
  }

  lemma RolesWithin(m: map<string, map<string, bool>>, n: map<string, map<string, bool>>)
    requires forall r, x :: Flag(m, (r, x)) == Flag(n, (r, x))
    requires forall r :: r in m ==> m[r] != map[]
    ensures m.Keys <= n.Keys
  {
    forall r | r in m ensures r in n {
      var x :| x in m[r];
      assert Flag(m, (r, x)).Some?;
    }
  }

  lemma SameOperations(m: map<string, Operation>, n: map<string, Operation>, es: seq<Event>)
    requires OperationsAre(m, es) && OperationsAre(n, es)
    ensures m == n
  {
    hide Latest;
    forall op ensures op in m <==> op in n {
      assert OperationIs(m, es, op) && OperationIs(n, es, op);
    }
    forall op | op in m ensures m[op] == n[op] {
      assert OperationIs(m, es, op) && OperationIs(n, es, op);
    }
  }

  /** The replay of a chain to a block, accepted or rejected, is what the chain's logs say. */
  lemma ReplayFollowsTheLog(chain: seq<Item>, start: int, block: int)
    requires start <= block
    ensures var es, r := EventsOf(Between(chain, start, block)), Replayed(chain, start, block, None);
      && (r.Some? <==> es.Some? && AdmitsAll(es.value))
      && (r.Some? ==> Describes(r.value, es.value))
  {
    hide Describes, AdmitsAll, EventsOf;
    ReplayMeans(Between(chain, start, block));
  }
}
