/**
 * Reading the authority logs page by page and replaying them, from the start or from a checkpoint
 * (verify_governance.py). A replay resumed from a checkpoint ends as one from the start does, whatever the page size.
 */
module AuthorityReplay {
  import opened Binary
  import opened Numerals
  import opened Authority
  import opened Checkpoint

  // ---- Logs ---------------------------------------------------------------------------------------------------------------

  datatype LogKey = LogKey(block: int, txIndex: nat, logIndex: nat)

  predicate Less(a: LogKey, b: LogKey) {
    || a.block < b.block
    || (a.block == b.block && (a.txIndex < b.txIndex || (a.txIndex == b.txIndex && a.logIndex < b.logIndex)))
  }

  datatype Log = Log(address: string, key: LogKey, removed: bool, topics: seq<string>, data: Option<seq<nat>>)
  datatype Item = Item(key: LogKey, target: string, name: EventName, row: Row)

  /** The contracts watched and, for each, the signatures asked for. */
  type Watch = map<string, map<string, EventName>>

  /** A log its contract was asked for, in the requested range; None is a rejection. */
  function Checked(watch: Watch, log: Log, first: int, last: int): (r: Option<Item>)
    ensures r.Some? ==> r.value.key == log.key && first <= log.key.block <= last && IsAddress(r.value.target)
  {
    var target := ParseAddress(log.address);
    if log.removed || target.None? || target.value !in watch || log.topics == [] || log.topics[0] !in watch[target.value]
       || !(first <= log.key.block <= last)
    then None
    else Some(Item(log.key, target.value, watch[target.value][log.topics[0]], Row(log.topics, log.data)))
  }

  function CheckedAll(watch: Watch, page: seq<Log>, first: int, last: int): Option<seq<Item>> {
    if page == [] then Some([])
    else
      var rest := CheckedAll(watch, page[..|page| - 1], first, last);
      var x := Checked(watch, page[|page| - 1], first, last);
      if rest.None? || x.None? then None else Some(rest.value + [x.value])
  }

  ghost predicate Distinct(items: seq<Item>) {
    forall i, j :: 0 <= i < j < |items| ==> items[i].key != items[j].key
  }

  ghost predicate InOrder(items: seq<Item>) {
    forall i, j :: 0 <= i < j < |items| ==> Less(items[i].key, items[j].key)
  }

  ghost predicate SameItems(a: seq<Item>, b: seq<Item>) { forall x :: x in a <==> x in b }

  // ---- Sorting by position ---------------------------------------------------------------------------------------------------

  method Insert(s: seq<Item>, x: Item) returns (r: seq<Item>)
    requires InOrder(s) && forall i :: 0 <= i < |s| ==> s[i].key != x.key
    ensures InOrder(r) && SameItems(r, s + [x])
  {
    var i := |s|;
    while i > 0 && Less(x.key, s[i - 1].key)
      invariant 0 <= i <= |s| && forall j :: i <= j < |s| ==> Less(x.key, s[j].key)
    {
      i := i - 1;
    }
    Inserted(s, x, i);
    r := s[..i] + [x] + s[i..];
  }

  lemma Inserted(s: seq<Item>, x: Item, i: nat)
    requires InOrder(s) && i <= |s| && (i > 0 ==> Less(s[i - 1].key, x.key)) && forall j :: i <= j < |s| ==> Less(x.key, s[j].key)
    ensures InOrder(s[..i] + [x] + s[i..]) && SameItems(s[..i] + [x] + s[i..], s + [x])
  {
    var head, tail := s[..i] + [x], s[i..];
    assert InOrder(head) by {
      forall j | 0 <= j < i ensures Less(s[j].key, x.key) {
        assert j == i - 1 || Less(s[j].key, s[i - 1].key);
      }
    }
    forall a, b | a in head && b in tail ensures Less(a.key, b.key) {
    }
    JoinsInOrder(head, tail);
    assert s == s[..i] + s[i..];
  }

  lemma JoinsInOrder(a: seq<Item>, b: seq<Item>)
    requires InOrder(a) && InOrder(b) && forall x, y :: x in a && y in b ==> Less(x.key, y.key)
    ensures InOrder(a + b)
  {
  }

  method Sorted(items: seq<Item>) returns (r: seq<Item>)
    requires Distinct(items)
    ensures InOrder(r) && SameItems(r, items)
  {
    r := [];
    for n := 0 to |items|
      invariant InOrder(r) && SameItems(r, items[..n])
    {
      assert forall i :: 0 <= i < |r| ==> r[i] in items[..n];
      r := Insert(r, items[n]);
      assert items[..n + 1] == items[..n] + [items[n]];
    }
    assert items[..|items|] == items;
  }

  lemma LastIsGreatest(a: seq<Item>, x: Item)
    requires InOrder(a) && x in a
    ensures x == a[|a| - 1] || Less(x.key, a[|a| - 1].key)
  {
  }

  lemma FrontWithoutLast(a: seq<Item>, x: Item)
    requires InOrder(a) && a != []
    ensures x in a[..|a| - 1] <==> x in a && x != a[|a| - 1]
  {
  }

  lemma SharesAnItem(a: seq<Item>, b: seq<Item>)
    requires SameItems(a, b) && a != []
    ensures b != []
  {
    assert a[0] in b;
  }

  /** The same items in order are the same list. */
  lemma {:induction false} OneOrder(a: seq<Item>, b: seq<Item>)
    requires InOrder(a) && InOrder(b) && SameItems(a, b)
    ensures a == b
  {
    if a != [] {
      SharesAnItem(a, b);
      var fa, fb, x, y := a[..|a| - 1], b[..|b| - 1], a[|a| - 1], b[|b| - 1];
      LastIsGreatest(a, y);
      LastIsGreatest(b, x);
      forall z ensures z in fa <==> z in fb {
        FrontWithoutLast(a, z);
        FrontWithoutLast(b, z);
      }
      OneOrder(fa, fb);
      assert a == fa + [x] && b == fb + [y];
    } else if b != [] {
      SharesAnItem(b, a);
    }
  }

  // ---- The chain and its node ---------------------------------------------------------------------------------------------------

  /** The chain's watched logs in a block range. */
  ghost function Between(chain: seq<Item>, first: int, last: int): (r: seq<Item>)
    ensures forall x :: x in r <==> x in chain && first <= x.key.block <= last
  {
    if chain == [] then []
    else
      var rest, x := Between(chain[..|chain| - 1], first, last), chain[|chain| - 1];
      assert chain == chain[..|chain| - 1] + [x];
      if first <= x.key.block <= last then rest + [x] else rest
  }

  lemma {:induction false} BetweenInOrder(chain: seq<Item>, first: int, last: int)
    requires InOrder(chain)
    ensures InOrder(Between(chain, first, last))
  {
    if chain != [] {
      BetweenInOrder(chain[..|chain| - 1], first, last);
    }
  }

  ghost predicate IsChain(chain: seq<Item>) {
    InOrder(chain) && forall i :: 0 <= i < |chain| ==> IsAddress(chain[i].target)
  }

  /** A page holds the chain's logs in its range, each once, in any order. */
  ghost predicate Answers(watch: Watch, page: Option<seq<Log>>, chain: seq<Item>, first: int, last: int) {
    && page.Some? && CheckedAll(watch, page.value, first, last).Some?
    && Distinct(CheckedAll(watch, page.value, first, last).value)
    && SameItems(CheckedAll(watch, page.value, first, last).value, Between(chain, first, last))
  }

  ghost predicate Honest(watch: Watch, node: (int, int) -> Option<seq<Log>>, chain: seq<Item>) {
    forall first, last :: first <= last ==> Answers(watch, node(first, last), chain, first, last)
  }

  /** A log that stands for a chain's item: not removed, from a watched contract, of a kind asked of it. */
  predicate Stands(watch: Watch, log: Log, x: Item) {
    && !log.removed && ParseAddress(log.address) == Some(x.target) && log.key == x.key && x.row == Row(log.topics, log.data)
    && x.target in watch && log.topics != [] && log.topics[0] in watch[x.target] && x.name == watch[x.target][log.topics[0]]
  }

  lemma CheckedStands(watch: Watch, log: Log, first: int, last: int, x: Item)
    ensures Checked(watch, log, first, last) == Some(x) <==> Stands(watch, log, x) && first <= x.key.block <= last
  {
  }

  /** Log by log, in the order of the page. */
  ghost predicate Listed(watch: Watch, page: seq<Log>, first: int, last: int, items: seq<Item>) {
    |items| == |page| && forall i :: 0 <= i < |page| ==> Stands(watch, page[i], items[i]) && first <= items[i].key.block <= last
  }

  lemma ListedNext(watch: Watch, page: seq<Log>, first: int, last: int, items: seq<Item>, x: Item)
    requires page != [] && Listed(watch, page[..|page| - 1], first, last, items)
    requires Stands(watch, page[|page| - 1], x) && first <= x.key.block <= last
    ensures Listed(watch, page, first, last, items + [x])
  {
    hide Stands;
    var front, all := page[..|page| - 1], items + [x];
    forall i | 0 <= i < |page| ensures Stands(watch, page[i], all[i]) && first <= all[i].key.block <= last {
      if i < |front| {
        assert Stands(watch, front[i], items[i]);
      }
    }
  }

  lemma {:induction false} CheckedAllListed(watch: Watch, page: seq<Log>, first: int, last: int)
    ensures var r := CheckedAll(watch, page, first, last); r.Some? ==> Listed(watch, page, first, last, r.value)
  {
    hide Stands, Checked, Listed;
    var r := CheckedAll(watch, page, first, last);
    if page == [] {
      assert Listed(watch, [], first, last, []) by { NoneListed(watch, first, last); }
    } else if r.Some? {
      var front, log := page[..|page| - 1], page[|page| - 1];
      var x := Checked(watch, log, first, last).value;
      CheckedAllListed(watch, front, first, last);
      CheckedStands(watch, log, first, last, x);
      ListedNext(watch, page, first, last, CheckedAll(watch, front, first, last).value, x);
    }
  }

  lemma NoneListed(watch: Watch, first: int, last: int)
    ensures Listed(watch, [], first, last, [])
  {
  }

  lemma {:induction false} AllChecked(watch: Watch, page: seq<Log>, first: int, last: int)
    requires forall i :: 0 <= i < |page| ==> Checked(watch, page[i], first, last).Some?
    ensures CheckedAll(watch, page, first, last).Some?
  {
    hide Checked;
    if page != [] {
      var front := page[..|page| - 1];
      assert forall i :: 0 <= i < |front| ==> front[i] == page[i];
      AllChecked(watch, front, first, last);
    }
  }

  ghost predicate StandsForOne(watch: Watch, log: Log, wanted: seq<Item>) { exists x :: x in wanted && Stands(watch, log, x) }

  ghost predicate IsThere(watch: Watch, page: seq<Log>, x: Item) { exists i :: 0 <= i < |page| && Stands(watch, page[i], x) }

  /** Each log of the page stands for one of the wanted items, each of them is there, and no position twice. */
  ghost predicate HoldsExactly(watch: Watch, page: seq<Log>, wanted: seq<Item>) {
    && (forall i :: 0 <= i < |page| ==> StandsForOne(watch, page[i], wanted))
    && (forall x :: x in wanted ==> IsThere(watch, page, x))
    && (forall i, j :: 0 <= i < j < |page| ==> page[i].key != page[j].key)
  }

  lemma OneItem(watch: Watch, log: Log, x: Item, y: Item)
    requires Stands(watch, log, x) && Stands(watch, log, y)
    ensures x == y && x.key == log.key
  {
  }

  lemma SamePositions(watch: Watch, page: seq<Log>, first: int, last: int, items: seq<Item>)
    requires Listed(watch, page, first, last, items)
    ensures forall i :: 0 <= i < |page| ==> page[i].key == items[i].key
  {
  }

  lemma AnswerHolds(watch: Watch, page: seq<Log>, wanted: seq<Item>, first: int, last: int, items: seq<Item>)
    requires Listed(watch, page, first, last, items) && Distinct(items) && SameItems(items, wanted)
    ensures HoldsExactly(watch, page, wanted)
  {
    hide Stands, StandsForOne, IsThere;
    SamePositions(watch, page, first, last, items);
    forall i | 0 <= i < |page| ensures StandsForOne(watch, page[i], wanted) {
      assert items[i] in items;
      ForOne(watch, page[i], wanted, items[i]);
    }
    forall x | x in wanted ensures IsThere(watch, page, x) {
      assert x in items;
      var i :| 0 <= i < |items| && items[i] == x;
      At(watch, page, i, x);
    }
    forall i, j | 0 <= i < j < |page| ensures page[i].key != page[j].key {
      assert items[i].key != items[j].key;
    }
  }

  lemma ForOne(watch: Watch, log: Log, wanted: seq<Item>, x: Item)
    requires x in wanted && Stands(watch, log, x)
    ensures StandsForOne(watch, log, wanted)
  {
  }

  lemma At(watch: Watch, page: seq<Log>, i: nat, x: Item)
    requires i < |page| && Stands(watch, page[i], x)
    ensures IsThere(watch, page, x)
  {
  }

  lemma HoldingAnswers(watch: Watch, page: seq<Log>, wanted: seq<Item>, first: int, last: int, items: seq<Item>)
    requires Listed(watch, page, first, last, items) && HoldsExactly(watch, page, wanted)
    ensures Distinct(items) && SameItems(items, wanted)
  {
    hide Stands;
    SamePositions(watch, page, first, last, items);
    forall i | 0 <= i < |items| ensures items[i] in wanted {
      assert StandsForOne(watch, page[i], wanted);
      var y :| y in wanted && Stands(watch, page[i], y);
      OneItem(watch, page[i], items[i], y);
    }
    forall x | x in wanted ensures x in items {
      assert IsThere(watch, page, x);
      var i :| 0 <= i < |page| && Stands(watch, page[i], x);
      OneItem(watch, page[i], items[i], x);
    }
  }

  lemma WantedWithin(watch: Watch, log: Log, chain: seq<Item>, first: int, last: int, x: Item)
    requires x in Between(chain, first, last) && Stands(watch, log, x)
    ensures Checked(watch, log, first, last) == Some(x)
  {
  }

  /** An honest page, read off its logs: the chain's in its range, each once, in any order. */
  lemma AnswersIff(watch: Watch, page: seq<Log>, chain: seq<Item>, first: int, last: int)
    ensures Answers(watch, Some(page), chain, first, last) <==> HoldsExactly(watch, page, Between(chain, first, last))
  {
    hide Stands, Checked, Distinct, SameItems, Listed, Between;
    var wanted := Between(chain, first, last);
    if Answers(watch, Some(page), chain, first, last) {
      CheckedAllListed(watch, page, first, last);
      AnswerHolds(watch, page, wanted, first, last, CheckedAll(watch, page, first, last).value);
    }
    if HoldsExactly(watch, page, wanted) {
      forall i | 0 <= i < |page| ensures Checked(watch, page[i], first, last).Some? {
        assert StandsForOne(watch, page[i], wanted);
        var x :| x in wanted && Stands(watch, page[i], x);
        WantedWithin(watch, page[i], chain, first, last, x);
      }
      AllChecked(watch, page, first, last);
      CheckedAllListed(watch, page, first, last);
      HoldingAnswers(watch, page, wanted, first, last, CheckedAll(watch, page, first, last).value);
    }
  }

  // ---- Events ---------------------------------------------------------------------------------------------------------------------

  ghost predicate WithinBlocks(items: seq<Item>, first: int, last: int) {
    forall x :: x in items ==> first <= x.key.block <= last
  }

  predicate HasKey(items: seq<Item>, k: LogKey) { exists i :: 0 <= i < |items| && items[i].key == k }

  /** Adds one page; None when a log is rejected or repeated. */
  method AddPage(watch: Watch, rows: seq<Item>, page: seq<Log>, first: int, last: int) returns (r: Option<seq<Item>>)
    requires Distinct(rows) && forall x :: x in rows ==> x.key.block < first
    ensures r.Some? ==> CheckedAll(watch, page, first, last).Some? && Distinct(r.value)
    ensures r.Some? ==> r.value == rows + CheckedAll(watch, page, first, last).value
    ensures r.None? ==> Rejected(watch, page, first, last)
  {
    var all := rows;
    ghost var items: seq<Item> := [];
    for n := 0 to |page|
      invariant CheckedAll(watch, page[..n], first, last) == Some(items) && all == rows + items && Distinct(all)
    {
      var x := Checked(watch, page[n], first, last);
      assert page[..n + 1][..n] == page[..n];
      if x.None? {
        RejectsPrefix(watch, page, first, last, n + 1);
        return None;
      }
      if HasKey(all, x.value.key) {
        RepeatedInPage(rows, items, x.value, first);
        RejectsPrefix(watch, page, first, last, n + 1);
        return None;
      }
      all := all + [x.value];
      items := items + [x.value];
    }
    assert page[..|page|] == page;
    r := Some(all);
  }

  ghost predicate Rejected(watch: Watch, page: seq<Log>, first: int, last: int) {
    CheckedAll(watch, page, first, last).None? || !Distinct(CheckedAll(watch, page, first, last).value)
  }

  /** A repeated log can only repeat one of its own page. */
  lemma RepeatedInPage(rows: seq<Item>, items: seq<Item>, x: Item, first: int)
    requires HasKey(rows + items, x.key) && x.key.block >= first && forall y :: y in rows ==> y.key.block < first
    ensures !Distinct(items + [x])
  {
    assert forall k :: 0 <= k < |rows| ==> rows[k] in rows && rows[k].key != x.key;
    var i :| 0 <= i < |rows + items| && (rows + items)[i].key == x.key;
    var j := i - |rows|;
    assert (items + [x])[j].key == (items + [x])[|items|].key;
  }

  /** A prefix that is rejected, or repeats a log, makes the whole page so. */
  lemma {:induction false} RejectsPrefix(watch: Watch, page: seq<Log>, first: int, last: int, n: nat)
    requires n <= |page| && Rejected(watch, page[..n], first, last)
    ensures Rejected(watch, page, first, last)
  {
    if n == |page| {
      assert page[..n] == page;
    } else {
      var front := page[..|page| - 1];
      assert front[..n] == page[..n];
      RejectsPrefix(watch, front, first, last, n);
      var items, x := CheckedAll(watch, front, first, last), Checked(watch, page[|page| - 1], first, last);
      if items.Some? && x.Some? {
        assert forall i :: 0 <= i < |items.value| ==> (items.value + [x.value])[i] == items.value[i];
      }
    }
  }

  /**
   * Every watched log from `start` to `end`, in chain order. From a node that answers honestly these are exactly the
   * chain's, whatever the page size; what is returned is always in order, once each, and in the range.
   */
  method Events(watch: Watch, node: (int, int) -> Option<seq<Log>>, ghost chain: seq<Item>, start: int, end: int, size: int)
    returns (r: Option<seq<Item>>)
    requires size > 0 && IsChain(chain)
    ensures r.Some? ==> InOrder(r.value) && WithinBlocks(r.value, start, end)
    ensures Honest(watch, node, chain) ==> r == Some(Between(chain, start, end))
  {
    var rows: seq<Item> := [];
    var first := start;
    while first <= end
      invariant start <= first && Distinct(rows) && forall x :: x in rows ==> start <= x.key.block < first && x.key.block <= end
      invariant Honest(watch, node, chain) ==> forall x :: x in rows <==> x in chain && start <= x.key.block < first && x.key.block <= end
      decreases end - first
    {
      var last := Min(first + size - 1, end);
      var page := node(first, last);
      if page.None? {
        assert Honest(watch, node, chain) ==> Answers(watch, page, chain, first, last);
        return None;
      }
      var more := AddPage(watch, rows, page.value, first, last);
      if Honest(watch, node, chain) {
        assert Answers(watch, page, chain, first, last);
      }
      if more.None? {
        return None;
      }
      CheckedWithin(watch, page.value, first, last);
      rows := more.value;
      first := last + 1;
    }
    var sorted := Sorted(rows);
    if Honest(watch, node, chain) {
      BetweenInOrder(chain, start, end);
      OneOrder(sorted, Between(chain, start, end));
    }
    r := Some(sorted);
  }

  lemma {:induction false} CheckedWithin(watch: Watch, page: seq<Log>, first: int, last: int)
    requires CheckedAll(watch, page, first, last).Some?
    ensures WithinBlocks(CheckedAll(watch, page, first, last).value, first, last)
  {
    if page != [] {
      CheckedWithin(watch, page[..|page| - 1], first, last);
    }
  }

  // ---- Replay ----------------------------------------------------------------------------------------------------------------------

  function AppliedAll(s: State, items: seq<Item>): Option<State> {
    if items == [] then Some(s)
    else
      var before, x := AppliedAll(s, items[..|items| - 1]), items[|items| - 1];
      if before.None? then None else Apply(before.value, x.target, x.name, x.row)
  }

  /** A saved state and the block it was replayed through. */
  datatype Saved = Saved(through: int, state: Encoded)

  /** The state a replay to `block` starts from, and its first block; None is a refused checkpoint. */
  function Origin(start: int, block: int, checkpoint: Option<Saved>): Option<(State, int)> {
    if checkpoint.None? then Some((EMPTY, start))
    else if !(start <= checkpoint.value.through <= block) then None
    else
      var s := Decode(checkpoint.value.state);
      if s.None? then None else Some((s.value, checkpoint.value.through + 1))
  }

  /** What a replay to `block` yields on a chain; None is a rejection. */
  ghost function Replayed(chain: seq<Item>, start: int, block: int, checkpoint: Option<Saved>): Option<State> {
    if start > block then None else ReplayedFrom(chain, block, Origin(start, block, checkpoint))
  }

  ghost function ReplayedFrom(chain: seq<Item>, block: int, origin: Option<(State, int)>): Option<State> {
    if origin.None? then None else AppliedAll(origin.value.0, Between(chain, origin.value.1, block))
  }

  method ApplyRows(s: State, rows: seq<Item>) returns (r: Option<State>)
    ensures r == AppliedAll(s, rows)
  {
    var state := s;
    for n := 0 to |rows|
      invariant AppliedAll(s, rows[..n]) == Some(state)
    {
      assert rows[..n + 1][..n] == rows[..n];
      var next := Apply(state, rows[n].target, rows[n].name, rows[n].row);
      if next.None? {
        RejectsFrom(s, rows, n + 1);
        return None;
      }
      state := next.value;
    }
    assert rows[..|rows|] == rows;
    r := Some(state);
  }

  /** The replay of what a node answers: the chain's, when the node is honest. */
  method Replay(watch: Watch, node: (int, int) -> Option<seq<Log>>, ghost chain: seq<Item>, start: int, block: int,
                checkpoint: Option<Saved>, size: int)
    returns (r: Option<State>)
    requires size > 0 && IsChain(chain)
    ensures Honest(watch, node, chain) ==> r == Replayed(chain, start, block, checkpoint)
  {
    if start > block {
      return None;
    }
    var origin := Origin(start, block, checkpoint);
    if origin.None? {
      return None;
    }
    var rows := Events(watch, node, chain, origin.value.1, block, size);
    if rows.None? {
      return None;
    }
    r := ApplyRows(origin.value.0, rows.value);
  }

  lemma {:induction false} RejectsFrom(s: State, items: seq<Item>, n: nat)
    requires n <= |items| && AppliedAll(s, items[..n]).None?
    ensures AppliedAll(s, items).None?
  {
    if n == |items| {
      assert items[..n] == items;
    } else {
      assert items[..|items| - 1][..n] == items[..n];
      RejectsFrom(s, items[..|items| - 1], n);
    }
  }

  lemma {:induction false} AppliedInTwo(s: State, first: seq<Item>, second: seq<Item>)
    ensures AppliedAll(s, first + second)
      == if AppliedAll(s, first).None? then None else AppliedAll(AppliedAll(s, first).value, second)
  {
    if second == [] {
      assert first + second == first;
    } else {
      var front := second[..|second| - 1];
      AppliedInTwo(s, first, front);
      assert (first + second)[..|first + second| - 1] == first + front;
    }
  }

  lemma BetweenInTwo(chain: seq<Item>, first: int, middle: int, last: int)
    requires InOrder(chain) && first <= middle + 1 && middle <= last
    ensures Between(chain, first, last) == Between(chain, first, middle) + Between(chain, middle + 1, last)
  {
    var a, b := Between(chain, first, middle), Between(chain, middle + 1, last);
    BetweenInOrder(chain, first, middle);
    BetweenInOrder(chain, middle + 1, last);
    BetweenInOrder(chain, first, last);
    forall x, y | x in a && y in b ensures Less(x.key, y.key) {
    }
    JoinsInOrder(a, b);
    OneOrder(Between(chain, first, last), a + b);
  }

  lemma {:induction false} ReplayKeepsCanonical(s: State, items: seq<Item>)
    requires Canonical(s) && forall x :: x in items ==> IsAddress(x.target)
    requires AppliedAll(s, items).Some?
    ensures Canonical(AppliedAll(s, items).value)
  {
    if items != [] {
      var front, x := items[..|items| - 1], items[|items| - 1];
      assert x in items && forall y :: y in front ==> y in items;
      ReplayKeepsCanonical(s, front);
      ApplyKeepsCanonical(AppliedAll(s, front).value, x.target, x.name, x.row);
    }
  }

  /** What a replay accepted at `through` reads back from its own checkpoint: itself, unless it names pool zero. */
  lemma CheckpointReadsBack(chain: seq<Item>, start: int, through: int, s: State, e: Encoded)
    requires IsChain(chain) && Replayed(chain, start, through, None) == Some(s) && Encodes(s, e)
    ensures Decode(e) == if NamesPoolZero(s) then None else Some(s)
  {
    forall x | x in Between(chain, start, through) ensures IsAddress(x.target) {
    }
    ReplayKeepsCanonical(EMPTY, Between(chain, start, through));
    DecodeUndoesEncode(s, e);
  }

  lemma ResumesFrom(start: int, through: int, block: int, e: Encoded, decoded: Option<State>)
    requires start <= through <= block && Decode(e) == decoded
    ensures Origin(start, block, Some(Saved(through, e))) == if decoded.None? then None else Some((decoded.value, through + 1))
  {
    assert Saved(through, e).state == e;
  }

  lemma ReplayContinues(chain: seq<Item>, start: int, through: int, block: int, s: State)
    requires IsChain(chain) && start <= through <= block && Replayed(chain, start, through, None) == Some(s)
    ensures Replayed(chain, start, block, None) == AppliedAll(s, Between(chain, through + 1, block))
  {
    BetweenInTwo(chain, start, through, block);
    AppliedInTwo(EMPTY, Between(chain, start, through), Between(chain, through + 1, block));
  }

  /**
   * Resuming from the checkpoint of an earlier replay gives what one replay from the start gives, state or rejection,
   * exactly when the checkpointed state does not name pool zero or the whole history is rejected anyway.
   */
  lemma ResumedReplayIsExact(chain: seq<Item>, start: int, through: int, block: int, s: State, e: Encoded)
    requires IsChain(chain) && start <= through <= block
    requires Replayed(chain, start, through, None) == Some(s) && Encodes(s, e)
    ensures Replayed(chain, start, block, Some(Saved(through, e))) == Replayed(chain, start, block, None)
        <==> !NamesPoolZero(s) || Replayed(chain, start, block, None).None?
  {
    CheckpointReadsBack(chain, start, through, s, e);
    ResumesFrom(start, through, block, e, if NamesPoolZero(s) then None else Some(s));
    ReplayContinues(chain, start, through, block, s);
  }

  /** A registration of pool zero is accepted. */
  lemma PoolZeroIsApplied(topic: string) returns (row: Row, s: State)
    requires ParseWord(topic) == Some(0)
    ensures ApplyPool(EMPTY, row) == Some(s) && NamesPoolZero(s)
  {
    row := Row(["", topic, topic, topic], Some([1]));
    assert TopicAddress(topic).Some?;
    s := ApplyPool(EMPTY, row).value;
  }

  lemma ReplaysOne(x: Item, s: State, block: nat)
    requires x.key.block == 0 && Apply(EMPTY, x.target, x.name, x.row) == Some(s)
    ensures Replayed([x], 0, block, None) == Some(s)
  {
    BetweenOne(x, block);
    OnlyOne(EMPTY, x, s);
  }

  lemma ZeroIsRefused(x: Item, s: State, block: nat, e: Encoded)
    requires IsChain([x]) && Replayed([x], 0, 0, None) == Some(s) && NamesPoolZero(s) && Encodes(s, e)
    ensures Replayed([x], 0, block, Some(Saved(0, e))) == None
  {
    CheckpointReadsBack([x], 0, 0, s, e);
    ResumesFrom(0, 0, block, e, None);
  }

  /** The refusal is reachable: a log that registers pool zero replays, and its checkpoint is then refused. */
  lemma PoolZeroReplaysButDoesNotResume(registry: string, zero: string, block: nat, e: Encoded) returns (x: Item, s: State)
    requires IsAddress(registry) && ParseWord(zero) == Some(0)
    ensures IsChain([x]) && Replayed([x], 0, block, None) == Some(s)
    ensures Encodes(s, e) ==> Replayed([x], 0, block, Some(Saved(0, e))) == None
  {
    var row: Row;
    row, s := PoolZeroIsApplied(zero);
    x := Item(LogKey(0, 0, 0), registry, PoolRegistered, row);
    assert IsChain([x]);
    ReplaysOne(x, s, 0);
    ReplaysOne(x, s, block);
    hide Replayed, IsChain, Encodes, IsAddress, ParseWord;
    if Encodes(s, e) {
      ZeroIsRefused(x, s, block, e);
    }
  }

  lemma BetweenOne(x: Item, last: int)
    requires x.key.block == 0 && last >= 0
    ensures Between([x], 0, last) == [x]
  {
    assert [x][..0] == [];
    assert Between([], 0, last) == [];
  }

  lemma OnlyOne(s: State, x: Item, after: State)
    requires Apply(s, x.target, x.name, x.row) == Some(after)
    ensures AppliedAll(s, [x]) == Some(after)
  {
    assert [x][..0] == [];
    assert AppliedAll(s, []) == Some(s);
  }

  /** A history rejected by an earlier block stays rejected: there is no checkpoint to resume from. */
  lemma RejectionStands(chain: seq<Item>, start: int, through: int, block: int)
    requires IsChain(chain) && start <= through <= block && Replayed(chain, start, through, None).None?
    ensures Replayed(chain, start, block, None).None?
  {
    BetweenInTwo(chain, start, through, block);
    AppliedInTwo(EMPTY, Between(chain, start, through), Between(chain, through + 1, block));
  }

  // ---- The last block at or before a time -----------------------------------------------------------------------------------------------

  ghost predicate NeverDecreases(timeOf: int -> int, low: int, high: int) {
    forall a, b :: low <= a <= b <= high ==> timeOf(a) <= timeOf(b)
  }

  /**
   * The highest block of the range whose time is at most `timestamp`, or the block below the range: steps back from the
   * end by doubling strides, then halves. The guess only changes the strides.
   */
  method LastBlockAtOrBefore(timeOf: int -> int, timestamp: int, high: int, low: int, guess: int) returns (r: int)
    requires low <= high && NeverDecreases(timeOf, low, high)
    ensures low - 1 <= r <= high
    ensures forall b :: low <= b <= high ==> (timeOf(b) <= timestamp <==> b <= r)
  {
    if timeOf(high) <= timestamp {
      return high;
    }
    var hi, step := high, Max(guess, 1);
    var lo := Max(hi - step, low);
    while timeOf(lo) > timestamp
      invariant low <= lo <= hi <= high && step >= 1 && lo == Max(hi - step, low) && timeOf(hi) > timestamp
      decreases lo - low, hi - lo
    {
      if lo == low {
        return low - 1;
      }
      hi, step := lo, step * 2;
      lo := Max(hi - step, low);
    }
    while hi - lo > 1
      invariant low <= lo <= hi <= high && timeOf(lo) <= timestamp < timeOf(hi)
      decreases hi - lo
    {
      var middle := (lo + hi) / 2;
      if timeOf(middle) <= timestamp {
        lo := middle;
      } else {
        hi := middle;
      }
    }
    r := lo;
  }
}
