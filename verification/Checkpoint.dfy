/**
 * The checkpoint form of the authority state (verify_governance.py): JSON values with numbers and addresses as texts.
 * Reading a written state gives it back, unless it names pool zero, which the reader refuses.
 */
module Checkpoint {
  import opened Binary
  import opened Numerals
  import opened Authority

  /** A JSON value; an object's entries are in the order they were written. */
  datatype Json = Num(n: int) | Flag(b: bool) | Text(s: string) | List(items: seq<Json>) | Obj(entries: seq<(string, Json)>)

  datatype Encoded = Encoded(
    pools: Json, poolActive: Json, registeredHubs: Json, allowedRoutes: Json, games: Json, disabledGames: Json,
    voidWindows: Json, transfers: Json, transfersStarted: Json, sentinels: Json, guardians: Json, pauses: Json, roles: Json,
    roleAdminChanges: Json, minDelayChanges: Json, operations: Json)

  // ---- Objects and lists -----------------------------------------------------------------------------------------------

  /** Each entry sets its key, a later one over an earlier; one entry that cannot be read rejects the whole. */
  function ReadEntries<K, V>(entries: seq<(string, Json)>, key: string -> Option<K>, value: Json -> Option<V>): Option<map<K, V>> {
    if entries == [] then Some(map[])
    else
      var rest := ReadEntries(entries[..|entries| - 1], key, value);
      var last := entries[|entries| - 1];
      var k, v := key(last.0), value(last.1);
      if rest.None? || k.None? || v.None? then None else Some(rest.value[k.value := v.value])
  }

  function ReadObj<K, V>(j: Json, key: string -> Option<K>, value: Json -> Option<V>): Option<map<K, V>> {
    if j.Obj? then ReadEntries(j.entries, key, value) else None
  }

  function ReadItems<V>(items: seq<Json>, value: Json -> Option<V>): Option<seq<V>> {
    if items == [] then Some([])
    else
      var rest, v := ReadItems(items[..|items| - 1], value), value(items[|items| - 1]);
      if rest.None? || v.None? then None else Some(rest.value + [v.value])
  }

  function ReadList<V>(j: Json, value: Json -> Option<V>): Option<seq<V>> {
    if j.List? then ReadItems(j.items, value) else None
  }

  /** Every key of the map once, in some order. */
  ghost predicate IsOrder<K(!new), V>(order: seq<K>, m: map<K, V>) {
    && (forall i, j :: 0 <= i < j < |order| ==> order[i] != order[j])
    && (forall k :: k in order <==> k in m)
  }

  ghost predicate ListsInOrder<K, V>(entries: seq<(string, Json)>, m: map<K, V>, order: seq<K>, text: K -> string,
                                     writes: (V, Json) -> bool) {
    && |entries| == |order|
    && forall i :: 0 <= i < |order| ==> order[i] in m && entries[i].0 == text(order[i]) && writes(m[order[i]], entries[i].1)
  }

  /** The object lists the map, each entry once, in whatever order. */
  ghost predicate WritesObj<K(!new), V(!new)>(j: Json, m: map<K, V>, text: K -> string, writes: (V, Json) -> bool) {
    j.Obj? && exists order: seq<K> :: IsOrder(order, m) && ListsInOrder(j.entries, m, order, text, writes)
  }

  ghost predicate WritesList<V(!new)>(j: Json, values: seq<V>, writes: (V, Json) -> bool) {
    j.List? && |j.items| == |values| && forall i :: 0 <= i < |values| ==> writes(values[i], j.items[i])
  }

  ghost function Restricted<K, V>(m: map<K, V>, order: seq<K>): map<K, V> {
    map k | k in m && k in order :: m[k]
  }

  lemma {:induction false} ReadsPrefix<K(!new), V(!new)>(entries: seq<(string, Json)>, m: map<K, V>, order: seq<K>, text: K -> string,
                                       writes: (V, Json) -> bool, key: string -> Option<K>, value: Json -> Option<V>, n: nat)
    requires ListsInOrder(entries, m, order, text, writes) && n <= |order|
    requires forall k :: k in m ==> key(text(k)) == Some(k)
    requires forall k, j :: k in m && writes(m[k], j) ==> value(j) == Some(m[k])
    ensures ReadEntries(entries[..n], key, value) == Some(Restricted(m, order[..n]))
  {
    if n > 0 {
      ReadsPrefix(entries, m, order, text, writes, key, value, n - 1);
      assert entries[..n][..n - 1] == entries[..n - 1] && entries[..n][n - 1] == entries[n - 1];
      assert order[..n] == order[..n - 1] + [order[n - 1]];
      var k := order[n - 1];
      assert k in m && key(entries[n - 1].0) == Some(k) && value(entries[n - 1].1) == Some(m[k]);
      assert Restricted(m, order[..n]) == Restricted(m, order[..n - 1])[k := m[k]];
    }
  }

  /** Reading back a listed map gives the map, when keys and values read back. */
  lemma ReadsObj<K(!new), V(!new)>(j: Json, m: map<K, V>, text: K -> string, writes: (V, Json) -> bool,
                                   key: string -> Option<K>, value: Json -> Option<V>)
    requires WritesObj(j, m, text, writes)
    requires forall k :: k in m ==> key(text(k)) == Some(k)
    requires forall k, v :: k in m && writes(m[k], v) ==> value(v) == Some(m[k])
    ensures ReadObj(j, key, value) == Some(m)
  {
    var order :| IsOrder(order, m) && ListsInOrder(j.entries, m, order, text, writes);
    ReadsPrefix(j.entries, m, order, text, writes, key, value, |order|);
    assert j.entries[..|order|] == j.entries && order[..|order|] == order;
    assert Restricted(m, order) == m;
  }

  /** One key that cannot be read rejects the object. */
  lemma RejectsObj<K(!new), V(!new)>(j: Json, m: map<K, V>, text: K -> string, writes: (V, Json) -> bool,
                                     key: string -> Option<K>, value: Json -> Option<V>, k: K)
    requires WritesObj(j, m, text, writes) && k in m && key(text(k)).None?
    ensures ReadObj(j, key, value).None?
  {
    var order :| IsOrder(order, m) && ListsInOrder(j.entries, m, order, text, writes);
    var i :| 0 <= i < |order| && order[i] == k;
    RejectsEntry(j.entries, key, value, i);
  }

  lemma {:induction false} RejectsEntry<K, V>(entries: seq<(string, Json)>, key: string -> Option<K>, value: Json -> Option<V>, i: nat)
    requires i < |entries| && key(entries[i].0).None?
    ensures ReadEntries(entries, key, value).None?
  {
    if i < |entries| - 1 {
      RejectsEntry(entries[..|entries| - 1], key, value, i);
    }
  }

  lemma {:induction false} ReadsItems<V(!new)>(items: seq<Json>, values: seq<V>, writes: (V, Json) -> bool, value: Json -> Option<V>)
    requires |items| == |values| && forall i :: 0 <= i < |values| ==> writes(values[i], items[i])
    requires forall i, j :: 0 <= i < |values| && writes(values[i], j) ==> value(j) == Some(values[i])
    ensures ReadItems(items, value) == Some(values)
  {
    if items != [] {
      var n := |items| - 1;
      ReadsItems(items[..n], values[..n], writes, value);
      assert values == values[..n] + [values[n]];
    }
  }

  // ---- Values -----------------------------------------------------------------------------------------------------------

  function ReadFlag(j: Json): Option<bool> { if j.Flag? then Some(j.b) else None }
  function ReadNum(j: Json): Option<int> { if j.Num? then Some(j.n) else None }
  function ReadAddress(j: Json): Option<string> { if j.Text? then ParseAddress(j.s) else None }
  function ReadWord(j: Json): Option<nat> { if j.Text? then ParseWord(j.s) else None }

  function ReadPool(j: Json): Option<(string, string, int)> {
    if !j.List? || |j.items| != 3 then None
    else
      var a, b, c := ReadAddress(j.items[0]), ReadAddress(j.items[1]), ReadNum(j.items[2]);
      if a.None? || b.None? || c.None? then None else Some((a.value, b.value, c.value))
  }

  function ReadGame(j: Json): Option<(string, int, int)> {
    if !j.List? || |j.items| != 3 then None
    else
      var a, b, c := ReadAddress(j.items[0]), ReadNum(j.items[1]), ReadNum(j.items[2]);
      if a.None? || b.None? || c.None? then None else Some((a.value, b.value, c.value))
  }

  function ReadWindow(j: Json): Option<(int, string, int, string)> {
    if !j.List? || |j.items| != 4 then None
    else
      var a, b, c, d := ReadNum(j.items[0]), ReadAddress(j.items[1]), ReadNum(j.items[2]), ReadAddress(j.items[3]);
      if a.None? || b.None? || c.None? || d.None? then None else Some((a.value, b.value, c.value, d.value))
  }

  function ReadTwo<A, B>(j: Json, first: Json -> Option<A>, second: Json -> Option<B>): Option<(A, B)> {
    if !j.List? || |j.items| != 2 then None
    else
      var a, b := first(j.items[0]), second(j.items[1]);
      if a.None? || b.None? then None else Some((a.value, b.value))
  }

  function ReadPair(j: Json): Option<(string, string)> { ReadTwo(j, ReadAddress, ReadAddress) }
  function ReadPause(j: Json): Option<(bool, string)> { ReadTwo(j, ReadFlag, ReadAddress) }
  function ReadDelay(j: Json): Option<(int, int)> { ReadTwo(j, ReadNum, ReadNum) }

  function ReadPairs(j: Json): Option<seq<(string, string)>> { ReadList(j, ReadPair) }
  function ReadAddresses(j: Json): Option<seq<string>> { ReadList(j, ReadAddress) }
  function ReadPauses(j: Json): Option<seq<(bool, string)>> { ReadList(j, ReadPause) }

  function ReadMembers(j: Json): Option<map<string, bool>> { ReadObj(j, ParseAddress, ReadFlag) }

  function PhaseText(p: Phase): string {
    match p
    case PhaseScheduled => "scheduled"
    case PhaseExecuted => "executed"
    case PhaseCancelled => "cancelled"
  }

  function ReadPhase(j: Json): Option<Phase> {
    if j == Text("scheduled") then Some(PhaseScheduled)
    else if j == Text("executed") then Some(PhaseExecuted)
    else if j == Text("cancelled") then Some(PhaseCancelled)
    else None
  }

  /** Exactly the two keys, in either order. */
  function ReadOperation(j: Json): Option<Operation> {
    if !j.Obj? || |j.entries| != 2 then None
    else
      var (c, p) := if j.entries[0].0 == "calls" then (j.entries[0], j.entries[1]) else (j.entries[1], j.entries[0]);
      var calls, phase := ReadNum(c.1), ReadPhase(p.1);
      if c.0 != "calls" || p.0 != "state" || calls.None? || phase.None? then None else Some(Operation(calls.value, phase.value))
  }

  /** A role or operation key: a word, in its one text. */
  function ParseKey(s: string): Option<string> {
    var w := ParseWord(s);
    if w.None? then None else Some(HexWord(w.value))
  }

  function RouteText(r: (nat, string)): string { Decimal(r.0) + ":" + r.1 }

  function ParseRoute(s: string): Option<(nat, string)> {
    var (head, tail) := Partition(s);
    var pool, hub := ParsePool(head), ParseAddress(tail);
    if pool.None? || hub.None? then None else Some((pool.value, hub.value))
  }

  function KeyText(s: string): string { s }

  // ---- The state ------------------------------------------------------------------------------------------------------------

  function ReadCount(j: Json): Option<int> { if j.Num? && j.n >= 0 then Some(j.n) else None }

  function DecodeRoutes(e: Encoded, s: State): Option<State> {
    var pools, active := ReadObj(e.pools, ParsePool, ReadPool), ReadObj(e.poolActive, ParsePool, ReadFlag);
    var hubs, routes := ReadObj(e.registeredHubs, ParseAddress, ReadFlag), ReadObj(e.allowedRoutes, ParseRoute, ReadFlag);
    if pools.None? || active.None? || hubs.None? || routes.None? then None
    else Some(s.(pools := pools.value, poolActive := active.value, registered := hubs.value, allowed := routes.value))
  }

  function DecodeGames(e: Encoded, s: State): Option<State> {
    var games, disabled := ReadObj(e.games, ParseWord, ReadGame), ReadList(e.disabledGames, ReadWord);
    var windows := ReadList(e.voidWindows, ReadWindow);
    if games.None? || disabled.None? || windows.None? then None
    else Some(s.(games := games.value, disabledGames := disabled.value, voidWindows := windows.value))
  }

  function DecodeHistories(e: Encoded, s: State): Option<State> {
    var transfers, started := ReadObj(e.transfers, ParseAddress, ReadPairs), ReadObj(e.transfersStarted, ParseAddress, ReadPairs);
    var sentinels, guardians := ReadObj(e.sentinels, ParseAddress, ReadAddresses), ReadObj(e.guardians, ParseAddress, ReadAddresses);
    var pauses := ReadObj(e.pauses, ParseAddress, ReadPauses);
    if transfers.None? || started.None? || sentinels.None? || guardians.None? || pauses.None? then None
    else Some(s.(transfers := transfers.value, transfersStarted := started.value, sentinels := sentinels.value,
                 guardians := guardians.value, pauses := pauses.value))
  }

  function DecodeTimelock(e: Encoded, s: State): Option<State> {
    var roles, admin := ReadObj(e.roles, ParseKey, ReadMembers), ReadCount(e.roleAdminChanges);
    var delays, operations := ReadList(e.minDelayChanges, ReadDelay), ReadObj(e.operations, ParseKey, ReadOperation);
    if roles.None? || admin.None? || delays.None? || operations.None? then None
    else Some(s.(roles := roles.value, roleAdminChanges := admin.value, minDelayChanges := delays.value,
                 operations := operations.value))
  }

  function DecodeRest(e: Encoded, s: State): Option<State> {
    var t := DecodeGames(e, s);
    if t.None? then None
    else
      var u := DecodeHistories(e, t.value);
      if u.None? then None else DecodeTimelock(e, u.value)
  }

  /** Fills a fresh state part by part; None is a rejection. */
  function Decode(e: Encoded): Option<State> {
    var s := DecodeRoutes(e, EMPTY);
    if s.None? then None else DecodeRest(e, s.value)
  }

  // ---- What a written state looks like ---------------------------------------------------------------------------------------

  function FlagJson(b: bool): Json { Flag(b) }
  function TextJson(s: string): Json { Text(s) }
  function WordJson(n: nat): Json { Text(HexWord(n)) }
  function PoolJson(c: (string, string, int)): Json { List([Text(c.0), Text(c.1), Num(c.2)]) }
  function GameJson(c: (string, int, int)): Json { List([Text(c.0), Num(c.1), Num(c.2)]) }
  function WindowJson(w: (int, string, int, string)): Json { List([Num(w.0), Text(w.1), Num(w.2), Text(w.3)]) }
  function PairJson(p: (string, string)): Json { List([Text(p.0), Text(p.1)]) }
  function PauseJson(p: (bool, string)): Json { List([Flag(p.0), Text(p.1)]) }
  function DelayJson(d: (int, int)): Json { List([Num(d.0), Num(d.1)]) }
  function OperationJson(o: Operation): Json { Obj([("calls", Num(o.calls)), ("state", Text(PhaseText(o.phase)))]) }
  function ListJson<V>(rows: seq<V>, value: V -> Json): Json { List(seq(|rows|, i requires 0 <= i < |rows| => value(rows[i]))) }
  function PairsJson(rows: seq<(string, string)>): Json { ListJson(rows, PairJson) }
  function AddressesJson(rows: seq<string>): Json { ListJson(rows, TextJson) }
  function PausesJson(rows: seq<(bool, string)>): Json { ListJson(rows, PauseJson) }

  ghost predicate WritesFlag(b: bool, j: Json) { j == FlagJson(b) }
  ghost predicate WritesText(s: string, j: Json) { j == TextJson(s) }
  ghost predicate WritesWord(n: nat, j: Json) { j == WordJson(n) }
  ghost predicate WritesPool(c: (string, string, int), j: Json) { j == PoolJson(c) }
  ghost predicate WritesGame(c: (string, int, int), j: Json) { j == GameJson(c) }
  ghost predicate WritesWindow(w: (int, string, int, string), j: Json) { j == WindowJson(w) }
  ghost predicate WritesPair(p: (string, string), j: Json) { j == PairJson(p) }
  ghost predicate WritesPause(p: (bool, string), j: Json) { j == PauseJson(p) }
  ghost predicate WritesDelay(d: (int, int), j: Json) { j == DelayJson(d) }
  ghost predicate WritesOperation(o: Operation, j: Json) { j == OperationJson(o) }
  ghost predicate WritesPairs(rows: seq<(string, string)>, j: Json) { WritesList(j, rows, WritesPair) }
  ghost predicate WritesAddresses(rows: seq<string>, j: Json) { WritesList(j, rows, WritesText) }
  ghost predicate WritesPauses(rows: seq<(bool, string)>, j: Json) { WritesList(j, rows, WritesPause) }
  ghost predicate WritesMembers(m: map<string, bool>, j: Json) { WritesObj(j, m, KeyText, WritesFlag) }

  ghost predicate EncodesRoutes(s: State, e: Encoded) {
    && WritesObj(e.pools, s.pools, Decimal, WritesPool)
    && WritesObj(e.poolActive, s.poolActive, Decimal, WritesFlag)
    && WritesObj(e.registeredHubs, s.registered, KeyText, WritesFlag)
    && WritesObj(e.allowedRoutes, s.allowed, RouteText, WritesFlag)
  }

  ghost predicate EncodesGames(s: State, e: Encoded) {
    && WritesObj(e.games, s.games, HexWord, WritesGame)
    && WritesList(e.disabledGames, s.disabledGames, WritesWord)
    && WritesList(e.voidWindows, s.voidWindows, WritesWindow)
  }

  ghost predicate EncodesHistories(s: State, e: Encoded) {
    && WritesObj(e.transfers, s.transfers, KeyText, WritesPairs)
    && WritesObj(e.transfersStarted, s.transfersStarted, KeyText, WritesPairs)
    && WritesObj(e.sentinels, s.sentinels, KeyText, WritesAddresses)
    && WritesObj(e.guardians, s.guardians, KeyText, WritesAddresses)
    && WritesObj(e.pauses, s.pauses, KeyText, WritesPauses)
  }

  ghost predicate EncodesTimelock(s: State, e: Encoded) {
    && WritesObj(e.roles, s.roles, KeyText, WritesMembers)
    && e.roleAdminChanges == Num(s.roleAdminChanges)
    && WritesList(e.minDelayChanges, s.minDelayChanges, WritesDelay)
    && WritesObj(e.operations, s.operations, KeyText, WritesOperation)
  }

  ghost predicate Encodes(s: State, e: Encoded) {
    EncodesRoutes(s, e) && EncodesGames(s, e) && EncodesHistories(s, e) && EncodesTimelock(s, e)
  }

  // ---- Writing -------------------------------------------------------------------------------------------------------------------

  /** Lists a map, entry by entry. */
  method WriteObj<K(==, !new), V(!new)>(m: map<K, V>, text: K -> string, value: V -> Json, ghost writes: (V, Json) -> bool)
    returns (j: Json)
    requires forall k :: k in m ==> writes(m[k], value(m[k]))
    ensures WritesObj(j, m, text, writes)
  {
    var keys, entries := m.Keys, [];
    ghost var order: seq<K> := [];
    while keys != {}
      invariant keys <= m.Keys && forall k :: k in m <==> k in keys || k in order
      invariant forall k :: k in order ==> k !in keys
      invariant forall i, j :: 0 <= i < j < |order| ==> order[i] != order[j]
      invariant ListsInOrder(entries, m, order, text, writes)
      decreases |keys|
    {
      var k :| k in keys;
      keys := keys - {k};
      entries := entries + [(text(k), value(m[k]))];
      order := order + [k];
    }
    j := Obj(entries);
    assert IsOrder(order, m) && ListsInOrder(j.entries, m, order, text, writes);
  }

  method WriteRoles(m: map<string, map<string, bool>>) returns (j: Json)
    ensures WritesObj(j, m, KeyText, WritesMembers)
  {
    var keys, entries := m.Keys, [];
    ghost var order: seq<string> := [];
    while keys != {}
      invariant keys <= m.Keys && forall k :: k in m <==> k in keys || k in order
      invariant forall k :: k in order ==> k !in keys
      invariant forall i, j :: 0 <= i < j < |order| ==> order[i] != order[j]
      invariant ListsInOrder(entries, m, order, KeyText, WritesMembers)
      decreases |keys|
    {
      var k :| k in keys;
      var members := WriteObj(m[k], KeyText, FlagJson, WritesFlag);
      keys := keys - {k};
      entries := entries + [(KeyText(k), members)];
      order := order + [k];
    }
    j := Obj(entries);
    assert IsOrder(order, m) && ListsInOrder(j.entries, m, order, KeyText, WritesMembers);
  }

  method EncodeRoutes(s: State, base: Encoded) returns (e: Encoded)
    ensures EncodesRoutes(s, e)
  {
    var pools := WriteObj(s.pools, Decimal, PoolJson, WritesPool);
    var active := WriteObj(s.poolActive, Decimal, FlagJson, WritesFlag);
    var hubs := WriteObj(s.registered, KeyText, FlagJson, WritesFlag);
    var routes := WriteObj(s.allowed, RouteText, FlagJson, WritesFlag);
    e := base.(pools := pools, poolActive := active, registeredHubs := hubs, allowedRoutes := routes);
  }

  method EncodeGames(s: State, base: Encoded) returns (e: Encoded)
    ensures EncodesGames(s, e)
    ensures e == base.(games := e.games, disabledGames := e.disabledGames, voidWindows := e.voidWindows)
  {
    var games := WriteObj(s.games, HexWord, GameJson, WritesGame);
    e := base.(games := games, disabledGames := ListJson(s.disabledGames, WordJson), voidWindows := ListJson(s.voidWindows, WindowJson));
  }

  method EncodeHistories(s: State, base: Encoded) returns (e: Encoded)
    ensures EncodesHistories(s, e)
    ensures e == base.(transfers := e.transfers, transfersStarted := e.transfersStarted, sentinels := e.sentinels,
                       guardians := e.guardians, pauses := e.pauses)
  {
    var transfers := WriteObj(s.transfers, KeyText, PairsJson, WritesPairs);
    var started := WriteObj(s.transfersStarted, KeyText, PairsJson, WritesPairs);
    var sentinels := WriteObj(s.sentinels, KeyText, AddressesJson, WritesAddresses);
    var guardians := WriteObj(s.guardians, KeyText, AddressesJson, WritesAddresses);
    var pauses := WriteObj(s.pauses, KeyText, PausesJson, WritesPauses);
    e := base.(transfers := transfers, transfersStarted := started, sentinels := sentinels, guardians := guardians, pauses := pauses);
  }

  method EncodeTimelock(s: State, base: Encoded) returns (e: Encoded)
    ensures EncodesTimelock(s, e)
    ensures e == base.(roles := e.roles, roleAdminChanges := e.roleAdminChanges, minDelayChanges := e.minDelayChanges,
                       operations := e.operations)
  {
    var roles := WriteRoles(s.roles);
    var operations := WriteObj(s.operations, KeyText, OperationJson, WritesOperation);
    e := base.(roles := roles, roleAdminChanges := Num(s.roleAdminChanges), minDelayChanges := ListJson(s.minDelayChanges, DelayJson),
               operations := operations);
  }

  method Encode(s: State) returns (e: Encoded)
    ensures Encodes(s, e)
  {
    var none := Obj([]);
    var e0 := EncodeRoutes(s, Encoded(none, none, none, none, none, none, none, none, none, none, none, none, none, none, none, none));
    var e1 := EncodeGames(s, e0);
    var e2 := EncodeHistories(s, e1);
    e := EncodeTimelock(s, e2);
    assert EncodesRoutes(s, e) && EncodesGames(s, e) && EncodesHistories(s, e);
  }

  // ---- Reading a written state --------------------------------------------------------------------------------------------------

  /** An object keyed by pool reads back, unless it has pool zero. */
  lemma ReadsByPool<V(!new)>(j: Json, m: map<nat, V>, writes: (V, Json) -> bool, value: Json -> Option<V>)
    requires WritesObj(j, m, Decimal, writes) && forall p :: p in m ==> p < POOL_LIMIT
    requires forall p, v :: p in m && writes(m[p], v) ==> value(v) == Some(m[p])
    ensures ReadObj(j, ParsePool, value) == if 0 in m then None else Some(m)
  {
    forall p | p in m ensures ParsePool(Decimal(p)) == if p == 0 then None else Some(p) {
      PoolReadsBack(p);
    }
    if 0 in m {
      RejectsObj(j, m, Decimal, writes, ParsePool, value, 0);
    } else {
      ReadsObj(j, m, Decimal, writes, ParsePool, value);
    }
  }

  lemma PoolReadsValue(c: (string, string, int), j: Json)
    requires WritesPool(c, j) && IsAddress(c.0) && IsAddress(c.1)
    ensures ReadPool(j) == Some(c)
  {
    AddressReadsBack(c.0);
    AddressReadsBack(c.1);
  }

  lemma ReadsPools(j: Json, m: map<nat, (string, string, int)>)
    requires WritesObj(j, m, Decimal, WritesPool) && PoolsOk(m)
    ensures ReadObj(j, ParsePool, ReadPool) == if 0 in m then None else Some(m)
  {
    forall p, v | p in m && WritesPool(m[p], v) ensures ReadPool(v) == Some(m[p]) {
      PoolReadsValue(m[p], v);
    }
    ReadsByPool(j, m, WritesPool, ReadPool);
  }

  lemma RouteReadsBack(r: (nat, string))
    requires r.0 < POOL_LIMIT && IsAddress(r.1)
    ensures ParseRoute(RouteText(r)) == if r.0 == 0 then None else Some(r)
  {
    DecimalReadsBack(r.0);
    PartitionUndoes(Decimal(r.0), r.1);
    PoolReadsBack(r.0);
    AddressReadsBack(r.1);
  }

  ghost predicate ZeroRoute(m: map<(nat, string), bool>) { exists r :: r in m && r.0 == 0 }

  lemma ReadsRoutes(j: Json, m: map<(nat, string), bool>)
    requires WritesObj(j, m, RouteText, WritesFlag) && RoutesOk(m)
    ensures ReadObj(j, ParseRoute, ReadFlag) == if ZeroRoute(m) then None else Some(m)
  {
    forall r | r in m ensures ParseRoute(RouteText(r)) == if r.0 == 0 then None else Some(r) {
      RouteReadsBack(r);
    }
    if ZeroRoute(m) {
      var r :| r in m && r.0 == 0;
      RejectsObj(j, m, RouteText, WritesFlag, ParseRoute, ReadFlag, r);
    } else {
      ReadsObj(j, m, RouteText, WritesFlag, ParseRoute, ReadFlag);
    }
  }

  lemma ReadsHubs(j: Json, m: map<string, bool>)
    requires WritesObj(j, m, KeyText, WritesFlag) && forall h :: h in m ==> IsAddress(h)
    ensures ReadObj(j, ParseAddress, ReadFlag) == Some(m)
  {
    forall h | h in m ensures ParseAddress(KeyText(h)) == Some(h) {
      AddressReadsBack(h);
    }
    ReadsObj(j, m, KeyText, WritesFlag, ParseAddress, ReadFlag);
  }

  lemma ReadsGames(j: Json, m: map<nat, (string, int, int)>)
    requires WritesObj(j, m, HexWord, WritesGame) && GamesOk(m)
    ensures ReadObj(j, ParseWord, ReadGame) == Some(m)
  {
    forall g | g in m ensures ParseWord(HexWord(g)) == Some(g) {
      WordReadsBack(g);
    }
    forall g, v | g in m && WritesGame(m[g], v) ensures ReadGame(v) == Some(m[g]) {
      AddressReadsBack(m[g].0);
    }
    ReadsObj(j, m, HexWord, WritesGame, ParseWord, ReadGame);
  }

  lemma ReadsDisabled(j: Json, s: seq<nat>)
    requires WritesList(j, s, WritesWord) && DisabledOk(s)
    ensures ReadList(j, ReadWord) == Some(s)
  {
    forall i, v | 0 <= i < |s| && WritesWord(s[i], v) ensures ReadWord(v) == Some(s[i]) {
      WordReadsBack(s[i]);
    }
    ReadsItems(j.items, s, WritesWord, ReadWord);
  }

  lemma ReadsWindows(j: Json, s: seq<(int, string, int, string)>)
    requires WritesList(j, s, WritesWindow) && WindowsOk(s)
    ensures ReadList(j, ReadWindow) == Some(s)
  {
    forall i, v | 0 <= i < |s| && WritesWindow(s[i], v) ensures ReadWindow(v) == Some(s[i]) {
      AddressReadsBack(s[i].1);
      AddressReadsBack(s[i].3);
    }
    ReadsItems(j.items, s, WritesWindow, ReadWindow);
  }

  lemma ReadsPairRows(j: Json, s: seq<(string, string)>)
    requires WritesPairs(s, j) && Pairs(s)
    ensures ReadPairs(j) == Some(s)
  {
    forall i, v | 0 <= i < |s| && WritesPair(s[i], v) ensures ReadPair(v) == Some(s[i]) {
      AddressReadsBack(s[i].0);
      AddressReadsBack(s[i].1);
    }
    ReadsItems(j.items, s, WritesPair, ReadPair);
  }

  lemma ReadsAddressRows(j: Json, s: seq<string>)
    requires WritesAddresses(s, j) && Addresses(s)
    ensures ReadAddresses(j) == Some(s)
  {
    forall i, v | 0 <= i < |s| && WritesText(s[i], v) ensures ReadAddress(v) == Some(s[i]) {
      AddressReadsBack(s[i]);
    }
    ReadsItems(j.items, s, WritesText, ReadAddress);
  }

  lemma ReadsPauseRows(j: Json, s: seq<(bool, string)>)
    requires WritesPauses(s, j) && Pauses(s)
    ensures ReadPauses(j) == Some(s)
  {
    forall i, v | 0 <= i < |s| && WritesPause(s[i], v) ensures ReadPause(v) == Some(s[i]) {
      AddressReadsBack(s[i].1);
    }
    ReadsItems(j.items, s, WritesPause, ReadPause);
  }

  /** A history keyed by contract. */
  lemma ReadsHistory<V(!new)>(j: Json, m: map<string, V>, writes: (V, Json) -> bool, value: Json -> Option<V>)
    requires WritesObj(j, m, KeyText, writes) && forall t :: t in m ==> IsAddress(t)
    requires forall t, v :: t in m && writes(m[t], v) ==> value(v) == Some(m[t])
    ensures ReadObj(j, ParseAddress, value) == Some(m)
  {
    forall t | t in m ensures ParseAddress(KeyText(t)) == Some(t) {
      AddressReadsBack(t);
    }
    ReadsObj(j, m, KeyText, writes, ParseAddress, value);
  }

  lemma ReadsPairHistory(j: Json, m: map<string, seq<(string, string)>>)
    requires WritesObj(j, m, KeyText, WritesPairs) && PairHistory(m)
    ensures ReadObj(j, ParseAddress, ReadPairs) == Some(m)
  {
    forall t, v | t in m && WritesPairs(m[t], v) ensures ReadPairs(v) == Some(m[t]) {
      ReadsPairRows(v, m[t]);
    }
    ReadsHistory(j, m, WritesPairs, ReadPairs);
  }

  lemma ReadsAddressHistory(j: Json, m: map<string, seq<string>>)
    requires WritesObj(j, m, KeyText, WritesAddresses) && AddressHistory(m)
    ensures ReadObj(j, ParseAddress, ReadAddresses) == Some(m)
  {
    forall t, v | t in m && WritesAddresses(m[t], v) ensures ReadAddresses(v) == Some(m[t]) {
      ReadsAddressRows(v, m[t]);
    }
    ReadsHistory(j, m, WritesAddresses, ReadAddresses);
  }

  lemma ReadsPauseHistory(j: Json, m: map<string, seq<(bool, string)>>)
    requires WritesObj(j, m, KeyText, WritesPauses) && PauseHistory(m)
    ensures ReadObj(j, ParseAddress, ReadPauses) == Some(m)
  {
    forall t, v | t in m && WritesPauses(m[t], v) ensures ReadPauses(v) == Some(m[t]) {
      ReadsPauseRows(v, m[t]);
    }
    ReadsHistory(j, m, WritesPauses, ReadPauses);
  }

  lemma KeyReadsBack(k: string)
    requires IsHexWord(k)
    ensures ParseKey(KeyText(k)) == Some(k)
  {
    var n: nat :| IsWord(n) && k == HexWord(n);
    WordReadsBack(n);
  }

  lemma ReadsRoles(j: Json, m: map<string, map<string, bool>>)
    requires WritesObj(j, m, KeyText, WritesMembers) && RolesOk(m)
    ensures ReadObj(j, ParseKey, ReadMembers) == Some(m)
  {
    forall r | r in m ensures ParseKey(KeyText(r)) == Some(r) {
      KeyReadsBack(r);
    }
    forall r, v | r in m && WritesMembers(m[r], v) ensures ReadMembers(v) == Some(m[r]) {
      ReadsHubs(v, m[r]);
    }
    ReadsObj(j, m, KeyText, WritesMembers, ParseKey, ReadMembers);
  }

  lemma ReadsDelays(j: Json, s: seq<(int, int)>)
    requires WritesList(j, s, WritesDelay)
    ensures ReadList(j, ReadDelay) == Some(s)
  {
    ReadsItems(j.items, s, WritesDelay, ReadDelay);
  }

  lemma ReadsOperations(j: Json, m: map<string, Operation>)
    requires WritesObj(j, m, KeyText, WritesOperation) && OperationsOk(m)
    ensures ReadObj(j, ParseKey, ReadOperation) == Some(m)
  {
    forall op | op in m ensures ParseKey(KeyText(op)) == Some(op) {
      KeyReadsBack(op);
    }
    forall op, v | op in m && WritesOperation(m[op], v) ensures ReadOperation(v) == Some(m[op]) {
      OperationReadsBack(m[op], v);
    }
    ReadsObj(j, m, KeyText, WritesOperation, ParseKey, ReadOperation);
  }

  lemma OperationReadsBack(o: Operation, j: Json)
    requires WritesOperation(o, j)
    ensures ReadOperation(j) == Some(o)
  {
    assert ReadPhase(Text(PhaseText(o.phase))) == Some(o.phase);
  }

  /** The state names pool zero, which no registered release has but a log may. */
  ghost predicate NamesPoolZero(s: State) { 0 in s.pools || 0 in s.poolActive || ZeroRoute(s.allowed) }

  lemma ReadsActive(j: Json, m: map<nat, bool>, pools: map<nat, (string, string, int)>)
    requires WritesObj(j, m, Decimal, WritesFlag) && PoolsOk(pools) && m.Keys <= pools.Keys
    ensures ReadObj(j, ParsePool, ReadFlag) == if 0 in m then None else Some(m)
  {
    assert forall p :: p in m ==> p in pools;
    ReadsByPool(j, m, WritesFlag, ReadFlag);
  }

  lemma RoutesReadBack(s: State, e: Encoded, base: State)
    requires PoolsOk(s.pools) && s.poolActive.Keys <= s.pools.Keys && RoutesOk(s.allowed) && HubsOk(s.registered)
    requires EncodesRoutes(s, e)
    ensures DecodeRoutes(e, base) == if NamesPoolZero(s) then None else
      Some(base.(pools := s.pools, poolActive := s.poolActive, registered := s.registered, allowed := s.allowed))
  {
    ReadsPools(e.pools, s.pools);
    ReadsActive(e.poolActive, s.poolActive, s.pools);
    ReadsHubs(e.registeredHubs, s.registered);
    ReadsRoutes(e.allowedRoutes, s.allowed);
  }

  lemma GamesReadBack(s: State, e: Encoded, base: State)
    requires Canonical(s) && EncodesGames(s, e)
    ensures DecodeGames(e, base) == Some(base.(games := s.games, disabledGames := s.disabledGames, voidWindows := s.voidWindows))
  {
    ReadsGames(e.games, s.games);
    ReadsDisabled(e.disabledGames, s.disabledGames);
    ReadsWindows(e.voidWindows, s.voidWindows);
  }

  lemma HistoriesReadBack(s: State, e: Encoded, base: State)
    requires Canonical(s) && EncodesHistories(s, e)
    ensures DecodeHistories(e, base) == Some(base.(transfers := s.transfers, transfersStarted := s.transfersStarted,
                                                   sentinels := s.sentinels, guardians := s.guardians, pauses := s.pauses))
  {
    ReadsPairHistory(e.transfers, s.transfers);
    ReadsPairHistory(e.transfersStarted, s.transfersStarted);
    ReadsAddressHistory(e.sentinels, s.sentinels);
    ReadsAddressHistory(e.guardians, s.guardians);
    ReadsPauseHistory(e.pauses, s.pauses);
  }

  lemma TimelockReadsBack(s: State, e: Encoded, base: State)
    requires Canonical(s) && EncodesTimelock(s, e)
    ensures DecodeTimelock(e, base) == Some(base.(roles := s.roles, roleAdminChanges := s.roleAdminChanges,
                                                  minDelayChanges := s.minDelayChanges, operations := s.operations))
  {
    ReadsRoles(e.roles, s.roles);
    ReadsDelays(e.minDelayChanges, s.minDelayChanges);
    ReadsOperations(e.operations, s.operations);
  }

  /** The parts after the routes read back onto any start, leaving its routes. */
  lemma RestReadsBack(s: State, e: Encoded, base: State)
    requires Canonical(s) && Encodes(s, e)
    requires base.pools == s.pools && base.poolActive == s.poolActive && base.registered == s.registered && base.allowed == s.allowed
    ensures DecodeRest(e, base) == Some(s)
  {
    GamesReadBack(s, e, base);
    var t := base.(games := s.games, disabledGames := s.disabledGames, voidWindows := s.voidWindows);
    HistoriesReadBack(s, e, t);
    var u := t.(transfers := s.transfers, transfersStarted := s.transfersStarted, sentinels := s.sentinels,
                guardians := s.guardians, pauses := s.pauses);
    TimelockReadsBack(s, e, u);
  }

  /** A written state reads back as itself, unless it names pool zero: then the reader refuses it. */
  lemma DecodeUndoesEncode(s: State, e: Encoded)
    requires Canonical(s) && Encodes(s, e)
    ensures Decode(e) == if NamesPoolZero(s) then None else Some(s)
  {
    RoutesReadBack(s, e, EMPTY);
    if !NamesPoolZero(s) {
      RestReadsBack(s, e, DecodeRoutes(e, EMPTY).value);
    }
  }
}
