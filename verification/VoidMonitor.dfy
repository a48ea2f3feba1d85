/**
 * Which settlements the monitor reports (track_results in config-drift-monitor.py). One scan first takes in every window
 * and then judges the settlements; that is the same as following the chain log by log, however it is cut into scans.
 */
module VoidMonitor {
  import opened Binary
  import opened VoidEligibility

  type Bank = nat
  type Request = nat
  type Tx = nat

  datatype Log =
    | Opened(bank: Bank, at: Position, cohortEnd: nat)
    | Received(bank: Bank, at: Position, request: Request, tx: Tx)
    | Acknowledged(bank: Bank, at: Position, request: Request, tx: Tx)
    | Voided(bank: Bank, at: Position, request: Request, tx: Tx)

  /** What the contracts answer: the VRF request time of a bet of the release hub (None for another hub), block times. */
  datatype Facts = Facts(requestedAt: Request -> Option<nat>, time: int -> nat)

  datatype Entry = Entry(bank: Bank, at: Position, tx: Tx)
  datatype VoidMark = VoidMark(at: Position, request: Request)
  datatype Settlement = Settlement(log: Log, entry: Entry)

  /** A settlement of a bet that was eligible on a path on which another was already voided. */
  datatype Line = Line(log: Log, path: Path, after: VoidMark)

  datatype State = State(unbooked: map<Request, Entry>, windows: map<Bank, seq<Window>>, voided: map<(Bank, Path), VoidMark>)

  function WindowsOf(windows: map<Bank, seq<Window>>, bank: Bank): seq<Window> {
    if bank in windows then windows[bank] else []
  }

  // ---- One log ------------------------------------------------------------------------------------------------------------

  predicate Settles(log: Log) { log.Acknowledged? || log.Voided? }

  function Entered(s: State, log: Log): State {
    match log
    case Opened(bank, at, cohortEnd) =>
      s.(windows := s.windows[bank := WindowsOf(s.windows, bank) + [Window(cohortEnd, Some(at))]])
    case Received(bank, at, request, tx) => s.(unbooked := s.unbooked[request := Entry(bank, at, tx)])
    case _ => s.(unbooked := s.unbooked - {log.request})
  }

  /** The tracked result this log settles; one acknowledged in its own transaction was never unbooked. */
  function SettledBy(s: State, log: Log): Option<Settlement> {
    if !Settles(log) || log.request !in s.unbooked then None
    else
      var entry := s.unbooked[log.request];
      if log.Acknowledged? && entry.tx == log.tx then None else Some(Settlement(log, entry))
  }

  function VerdictAt(f: Facts, windows: map<Bank, seq<Window>>, x: Settlement): Option<Verdict>
    requires Settles(x.log)
  {
    var requested := f.requestedAt(x.log.request);
    if requested.None? then None
    else Some(Judge(requested.value, f.time(x.entry.at.block), WindowsOf(windows, x.entry.bank), Some(x.log.at)))
  }

  datatype Judgement = Judgement(voided: map<(Bank, Path), VoidMark>, lines: seq<Line>)

  function Judged(f: Facts, windows: map<Bank, seq<Window>>, j: Judgement, x: Settlement): Judgement
    requires Settles(x.log)
  {
    var v := VerdictAt(f, windows, x);
    if v.None? then j
    else
      var key := (x.entry.bank, v.value.path);
      if x.log.Voided? then
        if key in j.voided then j else j.(voided := j.voided[key := VoidMark(x.log.at, x.log.request)])
      else if key in j.voided && v.value.since <= f.time(x.log.at.block) then
        j.(lines := j.lines + [Line(x.log, v.value.path, j.voided[key])])
      else j
  }

  /** One log: the next state and what it reports. */
  function Following(f: Facts, s: State, row: Log): (State, seq<Line>) {
    var after, x := Entered(s, row), SettledBy(s, row);
    if x.None? then (after, [])
    else
      var j := Judged(f, after.windows, Judgement(after.voided, []), x.value);
      (after.(voided := j.voided), j.lines)
  }

  /** One log after another. */
  function Followed(f: Facts, s: State, rows: seq<Log>): (State, seq<Line>) {
    if rows == [] then (s, [])
    else
      var (before, lines) := Followed(f, s, rows[..|rows| - 1]);
      var (after, new_) := Following(f, before, rows[|rows| - 1]);
      (after, lines + new_)
  }

  // ---- One scan ---------------------------------------------------------------------------------------------------------------

  function EnteredAll(s: State, rows: seq<Log>): State {
    if rows == [] then s else Entered(EnteredAll(s, rows[..|rows| - 1]), rows[|rows| - 1])
  }

  function Settlements(s: State, rows: seq<Log>): (r: seq<Settlement>)
    ensures forall i :: 0 <= i < |r| ==> Settles(r[i].log) && r[i].log in rows
  {
    if rows == [] then []
    else
      var x, earlier := SettledBy(EnteredAll(s, rows[..|rows| - 1]), rows[|rows| - 1]), Settlements(s, rows[..|rows| - 1]);
      if x.Some? then earlier + [x.value] else earlier
  }

  function JudgedAll(f: Facts, windows: map<Bank, seq<Window>>, j: Judgement, xs: seq<Settlement>): Judgement
    requires forall i :: 0 <= i < |xs| ==> Settles(xs[i].log)
  {
    if xs == [] then j else Judged(f, windows, JudgedAll(f, windows, j, xs[..|xs| - 1]), xs[|xs| - 1])
  }

  class Tracker {
    var unbooked: map<Request, Entry>
    var windows: map<Bank, seq<Window>>
    var voided: map<(Bank, Path), VoidMark>

    function Current(): State
      reads this
    {
      State(unbooked, windows, voided)
    }

    constructor ()
      ensures Current() == State(map[], map[], map[])
    {
      unbooked, windows, voided := map[], map[], map[];
    }

    /** Takes in results and windows, and sets the settlements aside. */
    method Enter(rows: seq<Log>) returns (later: seq<Settlement>)
      modifies this`unbooked, this`windows
      ensures Current() == EnteredAll(old(Current()), rows)
      ensures later == Settlements(old(Current()), rows)
    {
      later := [];
      for n := 0 to |rows|
        invariant Current() == EnteredAll(old(Current()), rows[..n])
        invariant later == Settlements(old(Current()), rows[..n])
      {
        assert rows[..n + 1][..n] == rows[..n];
        match rows[n]
        case Opened(bank, at, cohortEnd) =>
          windows := windows[bank := WindowsOf(windows, bank) + [Window(cohortEnd, Some(at))]];
        case Received(bank, at, request, tx) =>
          unbooked := unbooked[request := Entry(bank, at, tx)];
        case _ =>
          var request := rows[n].request;
          if request in unbooked {
            var entry := unbooked[request];
            if !(rows[n].Acknowledged? && entry.tx == rows[n].tx) {
              later := later + [Settlement(rows[n], entry)];
            }
          }
          unbooked := unbooked - {request};
      }
      assert rows[..|rows|] == rows;
    }

    /** Judges one settlement with every window of the scan in place. */
    method JudgeOne(f: Facts, x: Settlement, lines: seq<Line>) returns (r: seq<Line>)
      requires Settles(x.log)
      modifies this`voided
      ensures Judgement(voided, r) == Judged(f, windows, Judgement(old(voided), lines), x)
    {
      r := lines;
      if x.log.Acknowledged? && !(exists k :: k in voided && k.0 == x.entry.bank) {
        return;
      }
      var requested := f.requestedAt(x.log.request);
      if requested.None? {
        return;
      }
      var v := Eligibility(requested.value, f.time(x.entry.at.block), WindowsOf(windows, x.entry.bank), Some(x.log.at));
      var key := (x.entry.bank, v.path);
      if x.log.Voided? {
        if key !in voided {
          voided := voided[key := VoidMark(x.log.at, x.log.request)];
        }
      } else if key in voided && v.since <= f.time(x.log.at.block) {
        r := r + [Line(x.log, v.path, voided[key])];
      }
    }

    /** A whole scan reports, and leaves, what following its logs one by one would. */
    method TrackResults(f: Facts, rows: seq<Log>) returns (lines: seq<Line>)
      requires InChainOrder(rows)
      modifies this
      ensures (Current(), lines) == Followed(f, old(Current()), rows)
    {
      var later := Enter(rows);
      lines := [];
      for n := 0 to |later|
        invariant unbooked == EnteredAll(old(Current()), rows).unbooked && windows == EnteredAll(old(Current()), rows).windows
        invariant Judgement(voided, lines) == JudgedAll(f, windows, Judgement(old(voided), []), later[..n])
      {
        assert later[..n + 1][..n] == later[..n];
        lines := JudgeOne(f, later[n], lines);
      }
      assert later[..|later|] == later;
      ScanIsFollowing(f, old(Current()), rows);
    }
  }

  // ---- A scan is the chain, log by log -------------------------------------------------------------------------------------------

  ghost predicate InChainOrder(rows: seq<Log>) {
    forall i, j :: 0 <= i < j < |rows| ==> Before(rows[i].at, rows[j].at)
  }

  /** A window opened later does not change a verdict. */
  lemma LaterWindowIgnored(requested: nat, received: nat, windows: seq<Window>, w: Window, before: Position)
    requires !OpenedBefore(w, Some(before))
    ensures Judge(requested, received, windows + [w], Some(before)) == Judge(requested, received, windows, Some(before))
  {
    assert (windows + [w])[..|windows|] == windows;
  }

  lemma VerdictStands(f: Facts, s: State, row: Log, x: Settlement)
    requires Settles(x.log) && Before(x.log.at, row.at)
    ensures VerdictAt(f, Entered(s, row).windows, x) == VerdictAt(f, s.windows, x)
  {
    if row.Opened? && x.entry.bank == row.bank && f.requestedAt(x.log.request).Some? {
      var w := Window(row.cohortEnd, Some(row.at));
      LaterWindowIgnored(f.requestedAt(x.log.request).value, f.time(x.entry.at.block), WindowsOf(s.windows, row.bank), w, x.log.at);
    }
  }

  lemma {:induction false} JudgementStands(f: Facts, s: State, row: Log, j: Judgement, xs: seq<Settlement>)
    requires forall i :: 0 <= i < |xs| ==> Settles(xs[i].log) && Before(xs[i].log.at, row.at)
    ensures JudgedAll(f, Entered(s, row).windows, j, xs) == JudgedAll(f, s.windows, j, xs)
  {
    if xs != [] {
      JudgementStands(f, s, row, j, xs[..|xs| - 1]);
      VerdictStands(f, s, row, xs[|xs| - 1]);
    }
  }

  lemma FollowedNext(f: Facts, s: State, front: seq<Log>, row: Log)
    ensures var (before, lines) := Followed(f, s, front); var (after, new_) := Following(f, before, row);
      Followed(f, s, front + [row]) == (after, lines + new_)
  {
    assert (front + [row])[..|front|] == front;
  }

  /** A log moves the scan's set-aside settlements and its windows as it moves the followed state. */
  lemma ScanStep(f: Facts, e: State, j: Judgement, row: Log)
    ensures var x := SettledBy(e, row);
      var j' := if x.Some? then Judged(f, Entered(e, row).windows, j, x.value) else j;
      var (after, new_) := Following(f, e.(voided := j.voided), row);
      after == Entered(e, row).(voided := j'.voided) && j.lines + new_ == j'.lines
  {
    var before := e.(voided := j.voided);
    assert SettledBy(before, row) == SettledBy(e, row);
    assert Entered(before, row) == Entered(e, row).(voided := j.voided);
  }

  lemma SettlementsNext(s: State, front: seq<Log>, row: Log)
    ensures EnteredAll(s, front + [row]) == Entered(EnteredAll(s, front), row)
    ensures var x := SettledBy(EnteredAll(s, front), row);
      Settlements(s, front + [row]) == if x.Some? then Settlements(s, front) + [x.value] else Settlements(s, front)
  {
    assert (front + [row])[..|front|] == front;
  }

  lemma JudgedNext(f: Facts, windows: map<Bank, seq<Window>>, j: Judgement, xs: seq<Settlement>, x: Settlement)
    requires forall i :: 0 <= i < |xs| ==> Settles(xs[i].log)
    requires Settles(x.log)
    ensures JudgedAll(f, windows, j, xs + [x]) == Judged(f, windows, JudgedAll(f, windows, j, xs), x)
  {
    assert (xs + [x])[..|xs|] == xs;
  }

  lemma EarlierSettlements(s: State, front: seq<Log>, row: Log, i: nat)
    requires InChainOrder(front + [row]) && i < |Settlements(s, front)|
    ensures Before(Settlements(s, front)[i].log.at, row.at)
  {
    var m :| 0 <= m < |front| && front[m] == Settlements(s, front)[i].log;
    assert (front + [row])[m] == front[m] && (front + [row])[|front|] == row;
  }

  function JudgedScan(f: Facts, s: State, rows: seq<Log>): Judgement {
    JudgedAll(f, EnteredAll(s, rows).windows, Judgement(s.voided, []), Settlements(s, rows))
  }

  lemma JudgedScanNext(f: Facts, s: State, front: seq<Log>, row: Log)
    requires InChainOrder(front + [row])
    ensures var e := EnteredAll(s, front); var x := SettledBy(e, row);
      JudgedScan(f, s, front + [row])
      == if x.Some? then Judged(f, Entered(e, row).windows, JudgedScan(f, s, front), x.value) else JudgedScan(f, s, front)
  {
    var e, xs := EnteredAll(s, front), Settlements(s, front);
    forall i | 0 <= i < |xs| ensures Before(xs[i].log.at, row.at) {
      EarlierSettlements(s, front, row, i);
    }
    var before := Judgement(s.voided, []);
    JudgementStands(f, e, row, before, xs);
    SettlementsNext(s, front, row);
    assert EnteredAll(s, front + [row]) == Entered(e, row);
    if SettledBy(e, row).Some? {
      JudgedNext(f, Entered(e, row).windows, before, xs, SettledBy(e, row).value);
    }
  }

  /** The two phases of a scan against one log at a time: the window filter is what makes them agree. */
  lemma {:induction false} ScanIsFollowing(f: Facts, s: State, rows: seq<Log>)
    requires InChainOrder(rows)
    ensures Followed(f, s, rows) == (EnteredAll(s, rows).(voided := JudgedScan(f, s, rows).voided), JudgedScan(f, s, rows).lines)
  {
    if rows == [] {
    } else {
      var front, row := rows[..|rows| - 1], rows[|rows| - 1];
      assert rows == front + [row];
      ScanIsFollowing(f, s, front);
      JudgedScanNext(f, s, front, row);
      ScanStep(f, EnteredAll(s, front), JudgedScan(f, s, front), row);
      FollowedNext(f, s, front, row);
      SettlementsNext(s, front, row);
    }
  }

  /** The same logs in any cut into scans give the same state and the same reports. */
  lemma {:induction false} CutsDoNotMatter(f: Facts, s: State, first: seq<Log>, second: seq<Log>)
    ensures var (middle, l1) := Followed(f, s, first); var (end, l2) := Followed(f, middle, second);
      Followed(f, s, first + second) == (end, l1 + l2)
  {
    if second == [] {
      assert first + second == first;
      assert Followed(f, s, first).1 + [] == Followed(f, s, first).1;
    } else {
      var front, row := second[..|second| - 1], second[|second| - 1];
      assert second == front + [row] && first + second == (first + front) + [row];
      CutsDoNotMatter(f, s, first, front);
      FollowedNext(f, s, first + front, row);
      var (middle, l1) := Followed(f, s, first);
      FollowedNext(f, middle, front, row);
      var (before, l2) := Followed(f, middle, front);
      var new_ := Following(f, before, row).1;
      assert (l1 + l2) + new_ == l1 + (l2 + new_);
    }
  }

  // ---- What is tracked, read off the log ---------------------------------------------------------------------------------------

  predicate Names(log: Log, request: Request) { !log.Opened? && log.request == request }

  /** The last log that names the request. */
  ghost predicate IsLatest(rows: seq<Log>, i: nat, request: Request) {
    i < |rows| && Names(rows[i], request) && forall j :: i < j < |rows| ==> !Names(rows[j], request)
  }

  /** The latest log of the request is its receipt, or none names it and the tracker held it before. */
  ghost predicate Awaits(s: State, rows: seq<Log>, request: Request, entry: Entry) {
    || (exists i: nat :: IsLatest(rows, i, request) && rows[i].Received? && entry == Entry(rows[i].bank, rows[i].at, rows[i].tx))
    || ((forall j :: 0 <= j < |rows| ==> !Names(rows[j], request)) && request in s.unbooked && s.unbooked[request] == entry)
  }

  /** The log settles a result that waits, unless it is acknowledged in the transaction that received it. */
  ghost predicate Judges(s: State, rows: seq<Log>, log: Log, entry: Entry) {
    && (log.Acknowledged? || log.Voided?) && Awaits(s, rows, log.request, entry)
    && !(log.Acknowledged? && log.tx == entry.tx)
  }

  lemma LatestStays(front: seq<Log>, row: Log, i: nat, request: Request)
    requires !Names(row, request)
    ensures IsLatest(front + [row], i, request) <==> IsLatest(front, i, request)
  {
    var rows := front + [row];
    assert forall j :: 0 <= j < |front| ==> rows[j] == front[j];
    assert rows[|front|] == row;
  }

  lemma LatestIs(front: seq<Log>, row: Log, i: nat, request: Request)
    requires Names(row, request)
    ensures IsLatest(front + [row], i, request) <==> i == |front|
  {
    var rows := front + [row];
    assert rows[|front|] == row;
  }

  lemma NamedNext(front: seq<Log>, row: Log, request: Request)
    ensures (forall j :: 0 <= j < |front + [row]| ==> !Names((front + [row])[j], request))
            <==> !Names(row, request) && forall j :: 0 <= j < |front| ==> !Names(front[j], request)
  {
    var rows := front + [row];
    assert rows[|front|] == row && forall j :: 0 <= j < |front| ==> rows[j] == front[j];
  }

  lemma AwaitsNext(s: State, front: seq<Log>, row: Log, request: Request, entry: Entry)
    ensures Awaits(s, front + [row], request, entry)
         == if Names(row, request) then row.Received? && entry == Entry(row.bank, row.at, row.tx) else Awaits(s, front, request, entry)
  {
    hide IsLatest;
    var rows := front + [row];
    NamedNext(front, row, request);
    assert rows[|front|] == row && forall j :: 0 <= j < |front| ==> rows[j] == front[j];
    forall i: nat ensures IsLatest(rows, i, request) <==> if Names(row, request) then i == |front| else IsLatest(front, i, request) {
      if Names(row, request) {
        LatestIs(front, row, i, request);
      } else {
        LatestStays(front, row, i, request);
      }
    }
    forall i: nat | IsLatest(front, i, request) ensures i < |front| {
      LatestInRange(front, i, request);
    }
  }

  lemma LatestInRange(rows: seq<Log>, i: nat, request: Request)
    requires IsLatest(rows, i, request)
    ensures i < |rows|
  {
  }

  lemma HeldNext(s: State, row: Log, request: Request, entry: Entry)
    ensures var held := Entered(s, row).unbooked;
      (request in held && held[request] == entry)
      == if Names(row, request) then row.Received? && entry == Entry(row.bank, row.at, row.tx)
         else request in s.unbooked && s.unbooked[request] == entry
  {
  }

  /** The tracker holds exactly the results whose latest log is a receipt. */
  lemma {:induction false} HeldIff(s: State, rows: seq<Log>, request: Request, entry: Entry)
    ensures var held := EnteredAll(s, rows).unbooked;
      request in held && held[request] == entry <==> Awaits(s, rows, request, entry)
  {
    if rows != [] {
      hide Entered, Awaits;
      var front, row := rows[..|rows| - 1], rows[|rows| - 1];
      assert rows == front + [row];
      HeldIff(s, front, request, entry);
      HeldNext(EnteredAll(s, front), row, request, entry);
      AwaitsNext(s, front, row, request, entry);
    } else {
      assert forall i: nat :: !IsLatest(rows, i, request);
    }
  }

  lemma SettledIff(s: State, rows: seq<Log>, log: Log, x: Settlement)
    ensures SettledBy(EnteredAll(s, rows), log) == Some(x) <==> x.log == log && Judges(s, rows, log, x.entry)
  {
    hide EnteredAll, Awaits;
    if log.Acknowledged? || log.Voided? {
      HeldIff(s, rows, log.request, x.entry);
    }
  }

  /** The windows opened on a bank, in order. */
  function OpenedOn(rows: seq<Log>, bank: Bank): (r: seq<Window>)
  {
    if rows == [] then []
    else
      var earlier, row := OpenedOn(rows[..|rows| - 1], bank), rows[|rows| - 1];
      if row.Opened? && row.bank == bank then earlier + [Window(row.cohortEnd, Some(row.at))] else earlier
  }

  function WindowsSoFar(s: State, rows: seq<Log>, bank: Bank): seq<Window> {
    WindowsOf(s.windows, bank) + OpenedOn(rows, bank)
  }

  lemma {:induction false} WindowsAre(s: State, rows: seq<Log>, bank: Bank)
    ensures WindowsOf(EnteredAll(s, rows).windows, bank) == WindowsSoFar(s, rows, bank)
  {
    if rows != [] {
      WindowsAre(s, rows[..|rows| - 1], bank);
    }
  }

  lemma {:induction false} FollowedEnters(f: Facts, s: State, rows: seq<Log>)
    ensures var now := Followed(f, s, rows).0;
      now.unbooked == EnteredAll(s, rows).unbooked && now.windows == EnteredAll(s, rows).windows
  {
    if rows != [] {
      FollowedEnters(f, s, rows[..|rows| - 1]);
    }
  }

  // ---- What is reported --------------------------------------------------------------------------------------------------------

  /** After `rows`, the log settles a result of this entry and request time whose path is `path`. */
  ghost predicate SettlesOn(f: Facts, s: State, rows: seq<Log>, log: Log, entry: Entry, requested: nat, path: Path) {
    && Judges(s, rows, log, entry) && f.requestedAt(log.request) == Some(requested)
    && Judge(requested, f.time(entry.at.block), WindowsSoFar(s, rows, entry.bank), Some(log.at)).path == path
  }

  /** After `rows`, the log voids a tracked bet whose first eligible path is `key`. */
  ghost predicate VoidsOn(f: Facts, s: State, rows: seq<Log>, log: Log, key: (Bank, Path)) {
    log.Voided? && exists entry, requested :: SettlesOn(f, s, rows, log, entry, requested, key.1) && entry.bank == key.0
  }

  /** The first void on a path, one from before the scans first of all. */
  ghost function FirstVoid(f: Facts, s: State, rows: seq<Log>, key: (Bank, Path)): Option<VoidMark> {
    if rows == [] then (if key in s.voided then Some(s.voided[key]) else None)
    else
      var front, row := rows[..|rows| - 1], rows[|rows| - 1];
      var earlier := FirstVoid(f, s, front, key);
      if earlier.Some? then earlier
      else if VoidsOn(f, s, front, row, key) then Some(VoidMark(row.at, row.request))
      else None
  }

  /** The line reports an acknowledgement of a tracked bet that voidBet would have accepted then, and the first void on its path. */
  ghost predicate Reports(f: Facts, s: State, rows: seq<Log>, log: Log, line: Line) {
    && log.Acknowledged? && line.log == log
    && exists entry, requested ::
         && SettlesOn(f, s, rows, log, entry, requested, line.path)
         && FirstVoid(f, s, rows, (entry.bank, line.path)) == Some(line.after)
         && MayVoid(requested, f.time(entry.at.block), WindowsSoFar(s, rows, entry.bank), Some(log.at), f.time(log.at.block))
  }

  /** What the followed state settles with a log is what the log itself says it settles. */
  lemma SettlementIs(f: Facts, s: State, rows: seq<Log>, log: Log)
    ensures var x := SettledBy(Followed(f, s, rows).0, log);
      && (x.Some? ==> Settles(log) && x.value.log == log && Judges(s, rows, log, x.value.entry))
      && forall entry :: Judges(s, rows, log, entry) ==> x == Some(Settlement(log, entry))
  {
    hide EnteredAll, Followed, Judges;
    FollowedEnters(f, s, rows);
    var x := SettledBy(Followed(f, s, rows).0, log);
    if x.Some? {
      SettledIff(s, rows, log, x.value);
    }
    forall entry | Judges(s, rows, log, entry) ensures x == Some(Settlement(log, entry)) {
      SettledIff(s, rows, log, Settlement(log, entry));
    }
  }

  lemma VerdictIs(f: Facts, s: State, rows: seq<Log>, log: Log, entry: Entry)
    requires Settles(log)
    ensures var requested, v := f.requestedAt(log.request), VerdictAt(f, Entered(Followed(f, s, rows).0, log).windows, Settlement(log, entry));
      if requested.None? then v.None?
      else v == Some(Judge(requested.value, f.time(entry.at.block), WindowsSoFar(s, rows, entry.bank), Some(log.at)))
  {
    hide EnteredAll, Followed, Judge;
    FollowedEnters(f, s, rows);
    WindowsAre(s, rows, entry.bank);
  }

  /** A log records a path exactly when it voids on it and none has before. */
  lemma RecordedStep(f: Facts, s: State, rows: seq<Log>, row: Log, key: (Bank, Path))
    ensures var now := Followed(f, s, rows).0; var after := Following(f, now, row).0;
      && (key in now.voided ==> key in after.voided && after.voided[key] == now.voided[key])
      && (key !in now.voided ==> (key in after.voided <==> VoidsOn(f, s, rows, row, key)))
      && (key !in now.voided && key in after.voided ==> after.voided[key] == VoidMark(row.at, row.request))
  {
    hide Followed, Judges, Judge, WindowsSoFar;
    var now := Followed(f, s, rows).0;
    var x := SettledBy(now, row);
    SettlementIs(f, s, rows, row);
    if x.Some? {
      VerdictIs(f, s, rows, row, x.value.entry);
      if f.requestedAt(row.request).Some? {
        var requested := f.requestedAt(row.request).value;
        var path := VerdictAt(f, Entered(now, row).windows, x.value).value.path;
        assert SettlesOn(f, s, rows, row, x.value.entry, requested, path);
      }
    }
  }

  /** What is recorded for a path is the first void of a tracked bet on it. */
  lemma {:induction false} RecordedIs(f: Facts, s: State, rows: seq<Log>, key: (Bank, Path))
    ensures var voided := Followed(f, s, rows).0.voided;
      FirstVoid(f, s, rows, key) == if key in voided then Some(voided[key]) else None
  {
    hide VoidsOn, Following;
    if rows != [] {
      var front, row := rows[..|rows| - 1], rows[|rows| - 1];
      assert rows == front + [row];
      FollowedNext(f, s, front, row);
      RecordedStep(f, s, front, row, key);
      RecordedIs(f, s, front, key);
    }
  }

  /** A judged acknowledgement adds its line when its path was voided and the bet was eligible, and nothing else adds any. */
  lemma NewLine(f: Facts, s: State, rows: seq<Log>, log: Log, entry: Entry, requested: nat, path: Path)
    requires log.Acknowledged? && SettlesOn(f, s, rows, log, entry, requested, path) && requested > 0
    ensures var first := FirstVoid(f, s, rows, (entry.bank, path));
      Following(f, Followed(f, s, rows).0, log).1
      == if first.Some? && MayVoid(requested, f.time(entry.at.block), WindowsSoFar(s, rows, entry.bank), Some(log.at), f.time(log.at.block))
         then [Line(log, path, first.value)] else []
  {
    hide Followed, Judges, Judge, WindowsSoFar, MayVoid, FirstVoid;
    SettlementIs(f, s, rows, log);
    VerdictIs(f, s, rows, log, entry);
    RecordedIs(f, s, rows, (entry.bank, path));
    FirstInstant(requested, f.time(entry.at.block), WindowsSoFar(s, rows, entry.bank), Some(log.at), f.time(log.at.block));
  }

  lemma NoNewLine(f: Facts, s: State, rows: seq<Log>, log: Log)
    ensures || Following(f, Followed(f, s, rows).0, log).1 == []
            || (log.Acknowledged? && exists entry, requested, path :: SettlesOn(f, s, rows, log, entry, requested, path))
  {
    hide Followed, Judges, Judge, WindowsSoFar;
    SettlementIs(f, s, rows, log);
    var x := SettledBy(Followed(f, s, rows).0, log);
    if x.Some? && log.Acknowledged? && f.requestedAt(log.request).Some? {
      var entry, requested := x.value.entry, f.requestedAt(log.request).value;
      assert SettlesOn(f, s, rows, log, entry, requested,
                       Judge(requested, f.time(entry.at.block), WindowsSoFar(s, rows, entry.bank), Some(log.at)).path);
    }
  }

  lemma SameAppended<T>(a: seq<T>, b: seq<T>, c: seq<T>)
    ensures a + b == a + c <==> b == c
  {
    assert (a + b)[|a|..] == b && (a + c)[|a|..] == c;
  }

  /** A log adds at most one line to the report, and exactly the one that reports it. */
  lemma ReportedIff(f: Facts, s: State, rows: seq<Log>, log: Log)
    requires !log.Opened? ==> f.requestedAt(log.request) != Some(0)
    ensures var before, after := Followed(f, s, rows).1, Followed(f, s, rows + [log]).1;
      && (after == before || exists line :: after == before + [line])
      && forall line :: after == before + [line] <==> Reports(f, s, rows, log, line)
  {
    hide Followed, SettlesOn, FirstVoid, WindowsSoFar, MayVoid;
    FollowedNext(f, s, rows, log);
    var before, new_ := Followed(f, s, rows).1, Following(f, Followed(f, s, rows).0, log).1;
    forall line ensures before + new_ == before + [line] <==> new_ == [line] {
      SameAppended(before, new_, [line]);
    }
    if log.Acknowledged? && exists entry, requested, path :: SettlesOn(f, s, rows, log, entry, requested, path) {
      var entry, requested, path :| SettlesOn(f, s, rows, log, entry, requested, path);
      SettlesAlone(f, s, rows, log, entry, requested, path);
      NewLine(f, s, rows, log, entry, requested, path);
    } else {
      NoNewLine(f, s, rows, log);
      assert before + [] == before;
    }
  }

  /** A log settles at most one result, in one way. */
  lemma SettlesAlone(f: Facts, s: State, rows: seq<Log>, log: Log, entry: Entry, requested: nat, path: Path)
    requires SettlesOn(f, s, rows, log, entry, requested, path)
    ensures f.requestedAt(log.request) == Some(requested)
    ensures forall e, r, p :: SettlesOn(f, s, rows, log, e, r, p) ==> e == entry && r == requested && p == path
  {
    hide Judges, Judge, WindowsSoFar;
    SettlementIs(f, s, rows, log);
  }
}
