/** The authority state of a release, replayed from its logs (verify_governance.py). */
module Authority {
  import opened Binary
  import opened Numerals

  datatype Phase = PhaseScheduled | PhaseExecuted | PhaseCancelled
  datatype Operation = Operation(calls: int, phase: Phase)

  datatype State = State(
    pools: map<nat, (string, string, int)>, poolActive: map<nat, bool>, registered: map<string, bool>,
    allowed: map<(nat, string), bool>, games: map<nat, (string, int, int)>, disabledGames: seq<nat>,
    voidWindows: seq<(int, string, int, string)>, transfers: map<string, seq<(string, string)>>,
    transfersStarted: map<string, seq<(string, string)>>, sentinels: map<string, seq<string>>,
    guardians: map<string, seq<string>>, pauses: map<string, seq<(bool, string)>>, roles: map<string, map<string, bool>>,
    roleAdminChanges: int, minDelayChanges: seq<(int, int)>, operations: map<string, Operation>)

  const EMPTY: State := State(map[], map[], map[], map[], map[], [], [], map[], map[], map[], map[], map[], map[], 0, [], map[])

  datatype EventName =
    | GovernanceTransferStarted | GovernanceTransferred | SentinelSet | PoolRegistered | PoolActiveSet | HubRegistered
    | HubAllowedForPoolSet | GameRegistered | GameDisabled | VoidWindowOpened | GuardianSet | RiskInPausedSet
    | RoleGranted | RoleRevoked | RoleAdminChanged | MinDelayChange | CallScheduled | CallExecuted | Cancelled

  /** A log: its topics, the first being its signature, and its data as words; None is data that is not whole words. */
  datatype Row = Row(topics: seq<string>, data: Option<seq<nat>>)

  // ---- Reading a row ----------------------------------------------------------------------------------------------------

  /** The address in a topic of a row with exactly `count` topics after the signature. */
  function AddressIn(row: Row, count: nat, i: nat): (r: Option<string>)
    requires 1 <= i <= count
    ensures r.Some? ==> IsAddress(r.value)
  {
    if |row.topics| == count + 1 then TopicAddress(row.topics[i]) else None
  }

  function WordIn(row: Row, count: nat, i: nat): (r: Option<nat>)
    requires 1 <= i <= count
    ensures r.Some? ==> IsWord(r.value)
  {
    if |row.topics| == count + 1 then
      ParsedIsWord(row.topics[i]);
      ParseWord(row.topics[i])
    else None
  }

  function DataWord(row: Row, count: nat, i: nat): Option<nat>
    requires i < count
  {
    if row.data.Some? && |row.data.value| >= count then Some(row.data.value[i]) else None
  }

  function Bool(w: Option<nat>): Option<bool> {
    if w == Some(0) then Some(false) else if w == Some(1) then Some(true) else None
  }

  function Appended<T>(m: map<string, seq<T>>, target: string, x: T): map<string, seq<T>> {
    m[target := (if target in m then m[target] else []) + [x]]
  }

  // ---- One event ------------------------------------------------------------------------------------------------------------

  function ApplyPair(s: State, target: string, started: bool, row: Row): Option<State> {
    var a, b := AddressIn(row, 2, 1), AddressIn(row, 2, 2);
    if a.None? || b.None? then None
    else if started then Some(s.(transfersStarted := Appended(s.transfersStarted, target, (a.value, b.value))))
    else Some(s.(transfers := Appended(s.transfers, target, (a.value, b.value))))
  }

  function ApplyPool(s: State, row: Row): Option<State> {
    var pool, asset, bank, domain := WordIn(row, 3, 1), AddressIn(row, 3, 2), AddressIn(row, 3, 3), DataWord(row, 1, 0);
    if pool.None? || asset.None? || bank.None? || domain.None? || pool.value >= POOL_LIMIT || pool.value in s.pools then None
    else Some(s.(pools := s.pools[pool.value := (asset.value, bank.value, domain.value)],
                 poolActive := s.poolActive[pool.value := true]))
  }

  function ApplyPoolActive(s: State, row: Row): Option<State> {
    var pool, active := WordIn(row, 1, 1), Bool(DataWord(row, 1, 0));
    if pool.None? || active.None? || pool.value !in s.pools then None
    else Some(s.(poolActive := s.poolActive[pool.value := active.value]))
  }

  function ApplyRoute(s: State, row: Row): Option<State> {
    var pool, hub, open := WordIn(row, 2, 1), AddressIn(row, 2, 2), Bool(DataWord(row, 1, 0));
    if pool.None? || hub.None? || open.None? || pool.value >= POOL_LIMIT then None
    else Some(s.(allowed := s.allowed[(pool.value, hub.value) := open.value]))
  }

  function ApplyGame(s: State, row: Row): Option<State> {
    var game, module_, count, gas := WordIn(row, 2, 1), AddressIn(row, 2, 2), DataWord(row, 2, 0), DataWord(row, 2, 1);
    if game.None? || module_.None? || count.None? || gas.None? || game.value in s.games then None
    else Some(s.(games := s.games[game.value := (module_.value, count.value, gas.value)]))
  }

  function ApplyWindow(s: State, row: Row): Option<State> {
    var pool, bank, end, caller := WordIn(row, 3, 1), AddressIn(row, 3, 2), DataWord(row, 1, 0), AddressIn(row, 3, 3);
    if pool.None? || bank.None? || end.None? || caller.None? then None
    else Some(s.(voidWindows := s.voidWindows + [(pool.value, bank.value, end.value, caller.value)]))
  }

  function ApplyRole(s: State, granted: bool, row: Row): Option<State> {
    var r, member := WordIn(row, 3, 1), AddressIn(row, 3, 2);
    if r.None? || member.None? then None
    else
      var key := HexWord(r.value);
      var members := if key in s.roles then s.roles[key] else map[];
      Some(s.(roles := s.roles[key := members[member.value := granted]]))
  }

  /** A call scheduled first starts the operation afresh, if none is open; the next ones must follow in order. */
  function Schedule(operations: map<string, Operation>, key: string, index: nat): Option<map<string, Operation>> {
    var open := key in operations && operations[key].phase.PhaseScheduled?;
    if index == 0 then
      if key in operations && !operations[key].phase.PhaseCancelled? then None else Some(operations[key := Operation(1, PhaseScheduled)])
    else if open && operations[key].calls == index then Some(operations[key := Operation(index + 1, PhaseScheduled)])
    else None
  }

  function Execute(operations: map<string, Operation>, key: string, index: nat): Option<map<string, Operation>> {
    if key in operations && !operations[key].phase.PhaseCancelled? && index < operations[key].calls
    then Some(operations[key := operations[key].(phase := PhaseExecuted)])
    else None
  }

  function Cancel(operations: map<string, Operation>, key: string): Option<map<string, Operation>> {
    if key in operations && operations[key].phase.PhaseScheduled?
    then Some(operations[key := operations[key].(phase := PhaseCancelled)])
    else None
  }

  function WithOperations(s: State, operations: Option<map<string, Operation>>): Option<State> {
    if operations.None? then None else Some(s.(operations := operations.value))
  }

  function ApplyScheduled(s: State, row: Row): Option<State> {
    var op, index := WordIn(row, 2, 1), WordIn(row, 2, 2);
    if op.None? || index.None? then None else WithOperations(s, Schedule(s.operations, HexWord(op.value), index.value))
  }

  function ApplyExecuted(s: State, row: Row): Option<State> {
    var op, index := WordIn(row, 2, 1), WordIn(row, 2, 2);
    if op.None? || index.None? then None else WithOperations(s, Execute(s.operations, HexWord(op.value), index.value))
  }

  function ApplyCancelled(s: State, row: Row): Option<State> {
    var op := WordIn(row, 1, 1);
    if op.None? then None else WithOperations(s, Cancel(s.operations, HexWord(op.value)))
  }

  /** One authority event, in chain order; None is a rejection. */
  function Apply(s: State, target: string, name: EventName, row: Row): Option<State> {
    match name
    case GovernanceTransferStarted => ApplyPair(s, target, true, row)
    case GovernanceTransferred => ApplyPair(s, target, false, row)
    case SentinelSet =>
      var a := AddressIn(row, 1, 1);
      if a.None? then None else Some(s.(sentinels := Appended(s.sentinels, target, a.value)))
    case GuardianSet =>
      var a := AddressIn(row, 1, 1);
      if a.None? then None else Some(s.(guardians := Appended(s.guardians, target, a.value)))
    case RiskInPausedSet =>
      var paused, by_ := Bool(DataWord(row, 1, 0)), AddressIn(row, 1, 1);
      if paused.None? || by_.None? then None else Some(s.(pauses := Appended(s.pauses, target, (paused.value, by_.value))))
    case PoolRegistered => ApplyPool(s, row)
    case PoolActiveSet => ApplyPoolActive(s, row)
    case HubRegistered =>
      var hub, value := AddressIn(row, 1, 1), Bool(DataWord(row, 1, 0));
      if hub.None? || value.None? then None else Some(s.(registered := s.registered[hub.value := value.value]))
    case HubAllowedForPoolSet => ApplyRoute(s, row)
    case GameRegistered => ApplyGame(s, row)
    case GameDisabled =>
      var game := WordIn(row, 2, 1);
      if game.None? then None else Some(s.(disabledGames := s.disabledGames + [game.value]))
    case VoidWindowOpened => ApplyWindow(s, row)
    case RoleGranted => ApplyRole(s, true, row)
    case RoleRevoked => ApplyRole(s, false, row)
    case RoleAdminChanged => if |row.topics| == 4 then Some(s.(roleAdminChanges := s.roleAdminChanges + 1)) else None
    case MinDelayChange =>
      var from, to_ := DataWord(row, 2, 0), DataWord(row, 2, 1);
      if from.None? || to_.None? then None else Some(s.(minDelayChanges := s.minDelayChanges + [(from.value, to_.value)]))
    case CallScheduled => ApplyScheduled(s, row)
    case CallExecuted => ApplyExecuted(s, row)
    case Cancelled => ApplyCancelled(s, row)
  }

  // ---- What every replayed state keeps -------------------------------------------------------------------------------------------

  ghost predicate IsHexWord(s: string) { exists n: nat :: IsWord(n) && s == HexWord(n) }

  ghost predicate Pairs(rows: seq<(string, string)>) { forall i :: 0 <= i < |rows| ==> IsAddress(rows[i].0) && IsAddress(rows[i].1) }
  ghost predicate Addresses(rows: seq<string>) { forall i :: 0 <= i < |rows| ==> IsAddress(rows[i]) }
  ghost predicate Pauses(rows: seq<(bool, string)>) { forall i :: 0 <= i < |rows| ==> IsAddress(rows[i].1) }

  ghost predicate PoolsOk(pools: map<nat, (string, string, int)>) {
    forall p :: p in pools ==> p < POOL_LIMIT && IsAddress(pools[p].0) && IsAddress(pools[p].1)
  }

  ghost predicate RoutesOk(allowed: map<(nat, string), bool>) {
    forall r :: r in allowed ==> r.0 < POOL_LIMIT && IsAddress(r.1)
  }

  ghost predicate HubsOk(registered: map<string, bool>) {
    forall h :: h in registered ==> IsAddress(h)
  }

  ghost predicate GamesOk(games: map<nat, (string, int, int)>) {
    forall g :: g in games ==> IsWord(g) && IsAddress(games[g].0)
  }

  ghost predicate DisabledOk(disabled: seq<nat>) {
    forall i :: 0 <= i < |disabled| ==> IsWord(disabled[i])
  }

  ghost predicate WindowsOk(windows: seq<(int, string, int, string)>) {
    forall i :: 0 <= i < |windows| ==> IsAddress(windows[i].1) && IsAddress(windows[i].3)
  }

  ghost predicate PairHistory(m: map<string, seq<(string, string)>>) {
    forall t :: t in m ==> IsAddress(t) && Pairs(m[t])
  }

  ghost predicate AddressHistory(m: map<string, seq<string>>) {
    forall t :: t in m ==> IsAddress(t) && Addresses(m[t])
  }

  ghost predicate PauseHistory(m: map<string, seq<(bool, string)>>) {
    forall t :: t in m ==> IsAddress(t) && Pauses(m[t])
  }

  ghost predicate MembersOk(members: map<string, bool>) {
    forall m :: m in members ==> IsAddress(m)
  }

  ghost predicate RolesOk(roles: map<string, map<string, bool>>) {
    forall r :: r in roles ==> IsHexWord(r) && MembersOk(roles[r])
  }

  ghost predicate OperationsOk(operations: map<string, Operation>) {
    forall op :: op in operations ==> IsHexWord(op) && operations[op].calls >= 1
  }

  /** Addresses and words are in the one form the codec writes. */
  ghost predicate Canonical(s: State) {
    && PoolsOk(s.pools) && s.poolActive.Keys <= s.pools.Keys && RoutesOk(s.allowed) && HubsOk(s.registered)
    && GamesOk(s.games) && DisabledOk(s.disabledGames) && WindowsOk(s.voidWindows)
    && PairHistory(s.transfers) && PairHistory(s.transfersStarted)
    && AddressHistory(s.sentinels) && AddressHistory(s.guardians) && PauseHistory(s.pauses)
    && RolesOk(s.roles) && s.roleAdminChanges >= 0 && OperationsOk(s.operations)
  }

  lemma PoolKeeps(s: State, row: Row)
    requires Canonical(s) && ApplyPool(s, row).Some?
    ensures Canonical(ApplyPool(s, row).value)
  {
  }

  lemma AppendsPair(m: map<string, seq<(string, string)>>, target: string, x: (string, string))
    requires PairHistory(m) && IsAddress(target) && IsAddress(x.0) && IsAddress(x.1)
    ensures PairHistory(Appended(m, target, x))
  {
  }

  lemma AppendsAddress(m: map<string, seq<string>>, target: string, x: string)
    requires AddressHistory(m) && IsAddress(target) && IsAddress(x)
    ensures AddressHistory(Appended(m, target, x))
  {
  }

  lemma AppendsPause(m: map<string, seq<(bool, string)>>, target: string, x: (bool, string))
    requires PauseHistory(m) && IsAddress(target) && IsAddress(x.1)
    ensures PauseHistory(Appended(m, target, x))
  {
  }

  lemma PairKeeps(s: State, target: string, started: bool, row: Row)
    requires Canonical(s) && IsAddress(target) && ApplyPair(s, target, started, row).Some?
    ensures Canonical(ApplyPair(s, target, started, row).value)
  {
    var x := (AddressIn(row, 2, 1).value, AddressIn(row, 2, 2).value);
    AppendsPair(s.transfers, target, x);
    AppendsPair(s.transfersStarted, target, x);
  }

  lemma WindowKeeps(s: State, row: Row)
    requires Canonical(s) && ApplyWindow(s, row).Some?
    ensures Canonical(ApplyWindow(s, row).value)
  {
  }

  lemma RoleKeeps(s: State, granted: bool, row: Row)
    requires Canonical(s) && ApplyRole(s, granted, row).Some?
    ensures Canonical(ApplyRole(s, granted, row).value)
  {
    var r := WordIn(row, 3, 1).value;
    assert IsHexWord(HexWord(r));
  }

  lemma OperationsKeep(operations: map<string, Operation>, key: string, index: nat)
    requires OperationsOk(operations) && IsHexWord(key)
    ensures Schedule(operations, key, index).Some? ==> OperationsOk(Schedule(operations, key, index).value)
    ensures Execute(operations, key, index).Some? ==> OperationsOk(Execute(operations, key, index).value)
    ensures Cancel(operations, key).Some? ==> OperationsOk(Cancel(operations, key).value)
  {
  }

  lemma ScheduledKeeps(s: State, row: Row)
    requires Canonical(s) && ApplyScheduled(s, row).Some?
    ensures Canonical(ApplyScheduled(s, row).value)
  {
    var op, index := WordIn(row, 2, 1).value, WordIn(row, 2, 2).value;
    assert IsHexWord(HexWord(op));
    OperationsKeep(s.operations, HexWord(op), index);
  }

  lemma ExecutedKeeps(s: State, row: Row)
    requires Canonical(s) && ApplyExecuted(s, row).Some?
    ensures Canonical(ApplyExecuted(s, row).value)
  {
    var op, index := WordIn(row, 2, 1).value, WordIn(row, 2, 2).value;
    assert IsHexWord(HexWord(op));
    OperationsKeep(s.operations, HexWord(op), index);
  }

  lemma CancelledKeeps(s: State, row: Row)
    requires Canonical(s) && ApplyCancelled(s, row).Some?
    ensures Canonical(ApplyCancelled(s, row).value)
  {
    var op := WordIn(row, 1, 1).value;
    assert IsHexWord(HexWord(op));
    OperationsKeep(s.operations, HexWord(op), 0);
  }

  lemma GameKeeps(s: State, name: EventName, row: Row)
    requires name.GameRegistered? || name.GameDisabled?
    requires Canonical(s) && Apply(s, [], name, row).Some?
    ensures Canonical(Apply(s, [], name, row).value)
  {
  }

  lemma HistoryKeeps(s: State, target: string, name: EventName, row: Row)
    requires name.SentinelSet? || name.GuardianSet? || name.RiskInPausedSet?
    requires Canonical(s) && IsAddress(target) && Apply(s, target, name, row).Some?
    ensures Canonical(Apply(s, target, name, row).value)
  {
    var a := AddressIn(row, 1, 1).value;
    if name.RiskInPausedSet? {
      AppendsPause(s.pauses, target, (Bool(DataWord(row, 1, 0)).value, a));
    } else {
      AppendsAddress(s.sentinels, target, a);
      AppendsAddress(s.guardians, target, a);
    }
  }

  /** Every accepted event leaves the state in canonical form. */
  lemma ApplyKeepsCanonical(s: State, target: string, name: EventName, row: Row)
    requires Canonical(s) && IsAddress(target) && Apply(s, target, name, row).Some?
    ensures Canonical(Apply(s, target, name, row).value)
  {
    match name
    case GovernanceTransferStarted => PairKeeps(s, target, true, row);
    case GovernanceTransferred => PairKeeps(s, target, false, row);
    case SentinelSet => HistoryKeeps(s, target, name, row);
    case GuardianSet => HistoryKeeps(s, target, name, row);
    case RiskInPausedSet => HistoryKeeps(s, target, name, row);
    case PoolRegistered => PoolKeeps(s, row);
    case GameRegistered => GameKeeps(s, name, row);
    case GameDisabled => GameKeeps(s, name, row);
    case VoidWindowOpened => WindowKeeps(s, row);
    case RoleGranted => RoleKeeps(s, true, row);
    case RoleRevoked => RoleKeeps(s, false, row);
    case CallScheduled => ScheduledKeeps(s, row);
    case CallExecuted => ExecutedKeeps(s, row);
    case Cancelled => CancelledKeeps(s, row);
    case _ =>
  }
}
