/**
 * The nested gas budget (composition.py): the all-but-one-64th rule of EIP-150 (section "Specification") with
 * explicit reserves, for one call and for arbitrarily nested frames.
 */
module Composition {
  import opened Binary

  /** What a caller must hold back at a call whose callee needs `u`. */
  function Ret(u: nat): nat {
    if u == 0 then 0 else (u - 1) / 63
  }

  /** Gas a caller needs at a call so that all but one 64th of it is at least `u`. */
  function Inv(u: nat): nat { u + Ret(u) }

  /**
   * Gas needed at a call whose callee needs `u`: access cost `o` before the split, reserve `r` the caller
   * withholds, and `q` still needed after the call.
   */
  function Need(u: nat, o: nat, r: nat, q: nat): nat {
    Max(Max(u + r, o + Inv(u)), Max(o + u + q, if r > 0 then r + 1 else 0))
  }

  // ---- One call -----------------------------------------------------------------------------------------------------

  /** What the EVM and the caller's reserve let the callee have. */
  function CalleeGas(g: nat, o: nat, r: nat): (c: nat)
    requires o <= g && r <= g
    ensures c <= g - o
  {
    Min(g - r, (g - o) - (g - o) / 64)
  }

  /** A nonzero reserve must be exceeded before the call; access cost is paid first. */
  predicate CanCall(g: nat, o: nat, r: nat) {
    o <= g && (if r > 0 then r < g else true)
  }

  lemma InvIsLeast(g: nat, u: nat)
    ensures g - g / 64 >= u <==> g >= Inv(u)
  {
    if u > 0 {
      var a, b := g / 64, g % 64;
      var c, d := (u - 1) / 63, (u - 1) % 63;
      assert g == 64 * a + b && u == 63 * c + d + 1;
      if a < c {
        assert a + 1 <= c;
      } else if a > c {
        assert c + 1 <= a;
      }
    }
  }

  /** The same when the callee, which needs `u` to run, spends only `s` of it. */
  function NeedSpending(u: nat, s: nat, o: nat, r: nat, q: nat): nat {
    Max(Max(u + r, o + Inv(u)), Max(o + s + q, if r > 0 then r + 1 else 0))
  }

  lemma NeedSpendingIsLeast(g: nat, u: nat, s: nat, o: nat, r: nat, q: nat)
    ensures g >= NeedSpending(u, s, o, r, q) <==> CanCall(g, o, r) && CalleeGas(g, o, r) >= u && g - o - s >= q
  {
    if g >= o {
      InvIsLeast(g - o, u);
    }
  }

  /** `Need` is exactly the least gas that gives the callee `u`, keeps `q` for later and exceeds the reserve. */
  lemma NeedIsLeast(g: nat, u: nat, o: nat, r: nat, q: nat)
    ensures g >= Need(u, o, r, q) <==> CanCall(g, o, r) && CalleeGas(g, o, r) >= u && g - o - u >= q
  {
    if g >= o {
      InvIsLeast(g - o, u);
    }
  }

  // ---- Nested frames ----------------------------------------------------------------------------------------------------

  /** An SSTORE with no more than the call stipend left fails (EIP-2200, section "Specification"). */
  const STIPEND: nat := 2_300

  /** So the gas it must find, beside what it spends. */
  const SENTRY: nat := 2_301

  /**
   * A frame: its own work, its storage writes and its calls, in order; each call runs a frame of its own. The price of a
   * write is work; `Store` is the check that its sentry is left.
   */
  datatype Frame =
    | End
    | Work(w: nat, rest: Frame)
    | Store(rest: Frame)
    | Call(o: nat, r: nat, body: Frame, rest: Frame)

  /** Gas left at the end of the frame, or None when this frame or one below it runs out. */
  function Exec(f: Frame, g: nat): Option<nat> {
    match f
    case End => Some(g)
    case Work(w, rest) => if g < w then None else Exec(rest, g - w)
    case Store(rest) => if g <= STIPEND then None else Exec(rest, g)
    case Call(o, r, body, rest) =>
      if !CanCall(g, o, r) then None
      else
        var given := CalleeGas(g, o, r);
        match Exec(body, given)
        case None => None
        case Some(left) => Exec(rest, g - o - given + left)
  }

  /** The requirement at entry, composed call by call from the inside out. */
  function Requirement(f: Frame): nat {
    match f
    case End => 0
    case Work(w, rest) => w + Requirement(rest)
    case Store(rest) => Max(SENTRY, Requirement(rest))
    case Call(o, r, body, rest) => Need(Requirement(body), o, r, Requirement(rest))
  }

  /** What the frame and everything below it really spends. */
  function Spent(f: Frame): nat {
    match f
    case End => 0
    case Work(w, rest) => w + Spent(rest)
    case Store(rest) => Spent(rest)
    case Call(o, r, body, rest) => o + Spent(body) + Spent(rest)
  }

  /** The requirement when what a callee does not spend counts as coming back. */
  function Least(f: Frame): nat {
    match f
    case End => 0
    case Work(w, rest) => w + Least(rest)
    case Store(rest) => Max(SENTRY, Least(rest))
    case Call(o, r, body, rest) => NeedSpending(Least(body), Spent(body), o, r, Least(rest))
  }

  /** Spending never depends on the gas supplied. */
  lemma {:induction false} ExecSpends(f: Frame, g: nat)
    requires Exec(f, g).Some?
    ensures g >= Spent(f) && Exec(f, g).value == g - Spent(f)
    decreases f
  {
    match f {
      case End =>
      case Work(w, rest) => ExecSpends(rest, g - w);
      case Store(rest) => ExecSpends(rest, g);
      case Call(o, r, body, rest) =>
        ExecSpends(body, CalleeGas(g, o, r));
        ExecSpends(rest, g - o - Spent(body));
    }
  }

  lemma {:induction false} LeastCoversSpent(f: Frame)
    ensures Least(f) >= Spent(f)
  {
    match f {
      case End =>
      case Work(_, rest) => LeastCoversSpent(rest);
      case Store(rest) => LeastCoversSpent(rest);
      case Call(_, _, _, rest) => LeastCoversSpent(rest);
    }
  }

  /** One call: it runs exactly when its body runs on what it is given and the rest on what is left. */
  lemma CallRuns(f: Frame, g: nat)
    requires f.Call?
    requires CanCall(g, f.o, f.r) ==> (Exec(f.body, CalleeGas(g, f.o, f.r)).Some? <==> CalleeGas(g, f.o, f.r) >= Least(f.body))
    ensures Exec(f, g).Some? <==>
      && CanCall(g, f.o, f.r) && CalleeGas(g, f.o, f.r) >= Least(f.body) && g >= f.o + Spent(f.body)
      && Exec(f.rest, g - f.o - Spent(f.body)).Some?
  {
    if CanCall(g, f.o, f.r) {
      LeastCoversSpent(f.body);
      if Exec(f.body, CalleeGas(g, f.o, f.r)).Some? {
        ExecSpends(f.body, CalleeGas(g, f.o, f.r));
      }
    }
  }

  lemma OwnStepRuns(f: Frame, g: nat)
    requires !f.Call?
    ensures f.End? ==> Exec(f, g).Some? && Least(f) == 0
    ensures f.Work? ==> Least(f) == f.w + Least(f.rest) && (g < f.w ==> Exec(f, g).None?)
    ensures f.Work? && g >= f.w ==> Exec(f, g) == Exec(f.rest, g - f.w)
    ensures f.Store? ==> Least(f) == Max(SENTRY, Least(f.rest)) && Exec(f, g) == if g < SENTRY then None else Exec(f.rest, g)
  {
  }

  lemma CallLeast(f: Frame, g: nat)
    requires f.Call?
    ensures g >= Least(f) <==>
      && CanCall(g, f.o, f.r) && CalleeGas(g, f.o, f.r) >= Least(f.body) && g >= f.o + Spent(f.body) + Least(f.rest)
  {
    NeedSpendingIsLeast(g, Least(f.body), Spent(f.body), f.o, f.r, Least(f.rest));
  }

  /** A frame runs exactly on `Least` gas or more: no frame of it, at any depth, runs out or misses a sentry. */
  lemma {:induction false} LeastIsExact(f: Frame, g: nat)
    ensures Exec(f, g).Some? <==> g >= Least(f)
    decreases f
  {
    hide Exec, Least, Spent, CalleeGas;
    if !f.Call? {
      OwnStepRuns(f, g);
      if f.Work? && g >= f.w {
        LeastIsExact(f.rest, g - f.w);
      } else if f.Store? {
        LeastIsExact(f.rest, g);
      }
    } else {
      CallLeast(f, g);
      if CanCall(g, f.o, f.r) {
        LeastIsExact(f.body, CalleeGas(g, f.o, f.r));
      }
      CallRuns(f, g);
      if g >= f.o + Spent(f.body) {
        LeastIsExact(f.rest, g - f.o - Spent(f.body));
      }
    }
  }

  lemma NeedCovers(u: nat, v: nat, s: nat, o: nat, r: nat, q: nat, p: nat)
    requires u <= v && s <= v && q <= p
    ensures NeedSpending(u, s, o, r, q) <= Need(v, o, r, p)
  {
    RetMonotone(u, v);
  }

  lemma RetMonotone(u: nat, v: nat)
    requires u <= v
    ensures Ret(u) <= Ret(v)
  {
  }

  lemma {:induction false} RequirementCoversLeast(f: Frame)
    ensures Least(f) <= Requirement(f)
  {
    match f {
      case End =>
      case Work(_, rest) => RequirementCoversLeast(rest);
      case Store(rest) => RequirementCoversLeast(rest);
      case Call(o, r, body, rest) =>
        RequirementCoversLeast(body);
        RequirementCoversLeast(rest);
        LeastCoversSpent(body);
        NeedCovers(Least(body), Requirement(body), Spent(body), o, r, Least(rest), Requirement(rest));
    }
  }

  /** With the composed requirement at entry no frame runs out, at any depth, and exactly the work is spent. */
  lemma RequirementSuffices(f: Frame, g: nat)
    requires g >= Requirement(f)
    ensures Requirement(f) >= Spent(f)
    ensures Exec(f, g) == Some(g - Spent(f))
  {
    RequirementCoversLeast(f);
    LeastCoversSpent(f);
    LeastIsExact(f, g);
    ExecSpends(f, g);
  }

  /** Frames whose callees spend all they require: what the stage bounds describe for leaf callees. */
  ghost predicate NoSlack(f: Frame) {
    match f
    case End => true
    case Work(w, rest) => NoSlack(rest)
    case Store(rest) => NoSlack(rest)
    case Call(o, r, body, rest) => NoSlack(body) && NoSlack(rest) && Requirement(body) == Spent(body)
  }

  lemma {:induction false} NoSlackIsLeast(f: Frame)
    requires NoSlack(f)
    ensures Requirement(f) == Least(f)
  {
    match f {
      case End =>
      case Work(_, rest) => NoSlackIsLeast(rest);
      case Store(rest) => NoSlackIsLeast(rest);
      case Call(_, _, body, rest) =>
        NoSlackIsLeast(body);
        NoSlackIsLeast(rest);
    }
  }

  /** For them the composed requirement is also necessary. */
  lemma RequirementExact(f: Frame, g: nat)
    requires NoSlack(f)
    ensures Exec(f, g).Some? <==> g >= Requirement(f)
  {
    NoSlackIsLeast(f);
    LeastIsExact(f, g);
  }

  /** The frame's own last step is a storage write. */
  predicate EndsStored(f: Frame) {
    match f
    case End => false
    case Work(_, rest) => EndsStored(rest)
    case Store(rest) => rest.End? || EndsStored(rest)
    case Call(_, _, _, rest) => EndsStored(rest)
  }

  /**
   * A run with the same calls that costs no more at any point. It may leave writes out, and may write anywhere before a
   * last write of the bound.
   */
  ghost predicate AtMost(a: Frame, b: Frame)
    decreases a, b
  {
    if a.Store? then (b.Store? && AtMost(a.rest, b.rest)) || (EndsStored(b) && AtMost(a.rest, b))
    else if b.Store? then AtMost(a, b.rest)
    else match (a, b)
         case (End, End) => true
         case (Work(v, ra), Work(w, rb)) => v <= w && AtMost(ra, rb)
         case (Call(p, r, ba, ra), Call(o, s, bb, rb)) => p <= o && r == s && AtMost(ba, bb) && AtMost(ra, rb)
         case _ => false
  }

  lemma {:induction false} LastWriteNeedsSentry(f: Frame)
    requires EndsStored(f)
    ensures Least(f) >= SENTRY
  {
    match f {
      case Work(_, rest) => LastWriteNeedsSentry(rest);
      case Store(rest) =>
      case Call(_, _, _, rest) => LastWriteNeedsSentry(rest);
    }
  }

  lemma NeedSpendingMonotone(u: nat, u': nat, s: nat, s': nat, o: nat, o': nat, r: nat, q: nat, q': nat)
    requires u <= u' && s <= s' && o <= o' && q <= q'
    ensures NeedSpending(u, s, o, r, q) <= NeedSpending(u', s', o', r, q')
  {
    RetMonotone(u, u');
  }

  lemma {:induction false} LeastMonotone(a: Frame, b: Frame)
    requires AtMost(a, b)
    ensures Least(a) <= Least(b) && Spent(a) <= Spent(b)
    decreases a, b
  {
    if a.Store? {
      if b.Store? && AtMost(a.rest, b.rest) {
        LeastMonotone(a.rest, b.rest);
      } else {
        LeastMonotone(a.rest, b);
        LastWriteNeedsSentry(b);
      }
    } else if b.Store? {
      LeastMonotone(a, b.rest);
    } else if a.Work? {
      LeastMonotone(a.rest, b.rest);
    } else if a.Call? {
      LeastMonotone(a.body, b.body);
      LeastMonotone(a.rest, b.rest);
      NeedSpendingMonotone(Least(a.body), Least(b.body), Spent(a.body), Spent(b.body), a.o, b.o, a.r, Least(a.rest), Least(b.rest));
    }
  }

  /** A budget for the bounds covers every real run below them. */
  lemma BudgetCoversRuns(run: Frame, bound: Frame, g: nat)
    requires AtMost(run, bound) && g >= Least(bound)
    ensures Exec(run, g).Some? && g >= Spent(run) && Exec(run, g) == Some(g - Spent(run))
  {
    LeastMonotone(run, bound);
    LeastIsExact(run, g);
    ExecSpends(run, g);
  }

  // ---- Folding calls into one total ----------------------------------------------------------------------------------------

  /** No call of the frame itself withholds a reserve. */
  ghost predicate Unreserved(f: Frame) {
    match f
    case End => true
    case Work(_, rest) => Unreserved(rest)
    case Store(rest) => Unreserved(rest)
    case Call(_, r, _, rest) => r == 0 && Unreserved(rest)
  }

  /** The frame itself writes. */
  predicate Writes(f: Frame) {
    match f
    case End => false
    case Work(_, rest) => Writes(rest)
    case Store(_) => true
    case Call(_, _, _, rest) => Writes(rest)
  }

  /** Own work plus the inverted requirement of each call. */
  function FoldedTotal(f: Frame): nat {
    match f
    case End => 0
    case Work(w, rest) => w + FoldedTotal(rest)
    case Store(rest) => FoldedTotal(rest)
    case Call(o, _, body, rest) => o + Inv(Requirement(body)) + FoldedTotal(rest)
  }

  /** One total per caller, and one sentry if it writes, is enough for any sequence of calls, however they interleave. */
  lemma {:induction false} FoldSuffices(f: Frame)
    requires Unreserved(f)
    ensures Requirement(f) <= FoldedTotal(f) + if Writes(f) then SENTRY else 0
  {
    match f {
      case End =>
      case Work(_, rest) => FoldSuffices(rest);
      case Store(rest) => FoldSuffices(rest);
      case Call(_, _, _, rest) => FoldSuffices(rest);
    }
  }

  /** A call folds in at its bare requirement exactly when what follows covers the withheld 64th. */
  lemma FoldFree(u: nat, o: nat, q: nat)
    requires u > 0
    ensures Need(u, o, 0, q) == o + u + q <==> (u - 1) / 63 <= q
  {
  }

  /** Each call of the frame leaves enough afterwards for its own withheld 64th, and each write a sentry. */
  ghost predicate RetentionFits(f: Frame) {
    match f
    case End => true
    case Work(_, rest) => RetentionFits(rest)
    case Store(rest) => RetentionFits(rest) && SENTRY <= Requirement(rest)
    case Call(_, r, body, rest) => r == 0 && RetentionFits(rest) && Ret(Requirement(body)) <= Requirement(rest)
  }

  /** The plain sum of work, access and callee requirements. */
  function PlainTotal(f: Frame): nat {
    match f
    case End => 0
    case Work(w, rest) => w + PlainTotal(rest)
    case Store(rest) => PlainTotal(rest)
    case Call(o, _, body, rest) => o + Requirement(body) + PlainTotal(rest)
  }

  lemma {:induction false} PlainTotalIsExact(f: Frame)
    requires RetentionFits(f)
    ensures Requirement(f) == PlainTotal(f)
  {
    match f {
      case End =>
      case Work(_, rest) => PlainTotalIsExact(rest);
      case Store(rest) => PlainTotalIsExact(rest);
      case Call(o, _, body, rest) =>
        PlainTotalIsExact(rest);
        if Requirement(body) > 0 {
          FoldFree(Requirement(body), o, Requirement(rest));
        }
    }
  }

  function Sum(us: seq<nat>): nat {
    if us == [] then 0 else us[0] + Sum(us[1..])
  }

  function Retained(us: seq<nat>): nat {
    if us == [] then 0 else Ret(us[0]) + Retained(us[1..])
  }

  /** One 63rd of the total covers what all the calls withhold: the token-body charge. */
  lemma {:induction false} RetainedAtMost(us: seq<nat>)
    ensures Retained(us) <= Sum(us) / 63
  {
    if us != [] {
      RetainedAtMost(us[1..]);
    }
  }

  // ---- What is outstanding ---------------------------------------------------------------------------------------------------

  /** The bodies of the frame's own calls, in order. */
  function Bodies(f: Frame): seq<Frame> {
    match f
    case End => []
    case Work(_, rest) => Bodies(rest)
    case Store(rest) => Bodies(rest)
    case Call(_, _, body, rest) => [body] + Bodies(rest)
  }

  /** Own work and access of a frame, its calls' bodies left out. */
  function Own(f: Frame): nat {
    match f
    case End => 0
    case Work(w, rest) => w + Own(rest)
    case Store(rest) => Own(rest)
    case Call(o, _, _, rest) => o + Own(rest)
  }

  /** What a frame needs beyond what it spends. */
  function Slack(f: Frame): nat {
    LeastCoversSpent(f);
    Least(f) - Spent(f)
  }

  /** What a call adds to its caller's slack while its callee runs: the callee's own, and what is withheld for it. */
  function Held(body: Frame): nat { Slack(body) + Ret(Least(body)) }

  /** Only one sentry or one withheld 64th of a frame is outstanding at a time, so the largest of them is its slack. */
  lemma {:induction false} SlackAtMost(f: Frame, m: nat)
    requires Unreserved(f) && SENTRY <= m && forall body :: body in Bodies(f) ==> Held(body) <= m
    ensures Slack(f) <= m
  {
    match f {
      case End =>
      case Work(_, rest) => SlackAtMost(rest, m);
      case Store(rest) => SlackAtMost(rest, m);
      case Call(_, _, body, rest) =>
        assert body in Bodies(f) && forall x :: x in Bodies(rest) ==> x in Bodies(f);
        SlackAtMost(rest, m);
        LeastCoversSpent(rest);
    }
  }

  function TotalSpent(fs: seq<Frame>): nat {
    if fs == [] then 0 else Spent(fs[0]) + TotalSpent(fs[1..])
  }

  lemma {:induction false} SpentSplits(f: Frame)
    ensures Spent(f) == Own(f) + TotalSpent(Bodies(f))
  {
    match f {
      case End =>
      case Work(_, rest) => SpentSplits(rest);
      case Store(rest) => SpentSplits(rest);
      case Call(_, _, body, rest) =>
        SpentSplits(rest);
        assert Bodies(f)[1..] == Bodies(rest);
    }
  }

  lemma {:induction false} TotalSpentConcat(a: seq<Frame>, b: seq<Frame>)
    ensures TotalSpent(a + b) == TotalSpent(a) + TotalSpent(b)
  {
    if a == [] {
      assert a + b == b;
    } else {
      assert (a + b)[1..] == a[1..] + b;
      TotalSpentConcat(a[1..], b);
    }
  }

  lemma {:induction false} OneOfTotal(fs: seq<Frame>, f: Frame)
    requires f in fs
    ensures Spent(f) <= TotalSpent(fs)
  {
    if f != fs[0] {
      OneOfTotal(fs[1..], f);
    }
  }

  lemma {:induction false} OneOfRetained(us: seq<nat>, i: nat)
    requires i < |us|
    ensures Ret(us[i]) <= Retained(us)
  {
    if i > 0 {
      OneOfRetained(us[1..], i - 1);
    }
  }

  /** A frame that calls nothing. */
  predicate Leaf(f: Frame) {
    match f
    case End => true
    case Work(_, rest) => Leaf(rest)
    case Store(rest) => Leaf(rest)
    case Call(_, _, _, _) => false
  }

  lemma {:induction false} LeafBodies(f: Frame)
    requires Leaf(f)
    ensures Bodies(f) == [] && Unreserved(f)
  {
    match f {
      case End =>
      case Work(_, rest) => LeafBodies(rest);
      case Store(rest) => LeafBodies(rest);
    }
  }

  lemma LeafSlack(f: Frame)
    requires Leaf(f)
    ensures Slack(f) <= SENTRY
  {
    LeafBodies(f);
    SlackAtMost(f, SENTRY);
  }

  lemma {:induction false} ReaderSlack(f: Frame)
    requires Leaf(f) && !Writes(f)
    ensures Slack(f) == 0
  {
    match f {
      case End =>
      case Work(_, rest) => ReaderSlack(rest);
    }
  }

  // ---- The Bank frame with explicit charges -------------------------------------------------------------------------------

  datatype Kind = Getter | Token | Settlement

  /** The callees of one kind, in order. */
  function OfKind(fs: seq<Frame>, kinds: seq<Kind>, kind: Kind): seq<Frame>
    requires |fs| == |kinds|
  {
    if fs == [] then []
    else (if kinds[0] == kind then [fs[0]] else []) + OfKind(fs[1..], kinds[1..], kind)
  }

  lemma {:induction false} InItsKind(fs: seq<Frame>, kinds: seq<Kind>, i: nat)
    requires |fs| == |kinds| && i < |fs|
    ensures fs[i] in OfKind(fs, kinds, kinds[i])
  {
    if i > 0 {
      InItsKind(fs[1..], kinds[1..], i - 1);
    }
  }

  lemma OfKindCons(fs: seq<Frame>, kinds: seq<Kind>, kind: Kind)
    requires fs != [] && |fs| == |kinds|
    ensures TotalSpent(OfKind(fs, kinds, kind))
         == TotalSpent(OfKind(fs[1..], kinds[1..], kind)) + if kinds[0] == kind then Spent(fs[0]) else 0
  {
    var later := OfKind(fs[1..], kinds[1..], kind);
    if kinds[0] == kind {
      assert ([fs[0]] + later)[1..] == later;
    } else {
      assert [] + later == later;
    }
  }

  lemma {:induction false} SpentByKind(fs: seq<Frame>, kinds: seq<Kind>)
    requires |fs| == |kinds|
    ensures TotalSpent(fs) == TotalSpent(OfKind(fs, kinds, Getter)) + TotalSpent(OfKind(fs, kinds, Token))
                              + TotalSpent(OfKind(fs, kinds, Settlement))
  {
    if fs != [] {
      SpentByKind(fs[1..], kinds[1..]);
      OfKindCons(fs, kinds, Getter);
      OfKindCons(fs, kinds, Token);
      OfKindCons(fs, kinds, Settlement);
      hide OfKind;
    }
  }

  const TOKEN_TRANSFERS: nat := 2

  /** The terms of the Bank frame; its sentry terms are constants. */
  datatype BankTerms = BankTerms(own: nat, storage: nat, firstTouch: nat, events: nat, accessRest: nat, vaultFrame: nat,
                                 tree: nat, tokenBodies: nat, getters: seq<nat>)

  function BankOwn(b: BankTerms): nat { b.own + b.storage + b.firstTouch + b.events }

  function VaultOwn(b: BankTerms): nat { b.tree + b.vaultFrame + b.accessRest }

  function VaultNeed(b: BankTerms): nat { b.tree + b.vaultFrame + b.tokenBodies + b.accessRest + SENTRY }

  /** The explicit boundary charges: what is withheld at the Vault call, at the token calls and at the getter calls. */
  function ExplicitCharges(b: BankTerms): nat {
    Ret(VaultNeed(b)) + SENTRY + b.tokenBodies / 63 + Retained(b.getters)
  }

  function BankNeed(b: BankTerms): nat {
    BankOwn(b) + b.accessRest + b.tokenBodies + b.vaultFrame + b.tree + SENTRY + TOKEN_TRANSFERS * SENTRY + Sum(b.getters)
    + ExplicitCharges(b)
  }

  ghost predicate GettersWithin(fs: seq<Frame>, bounds: seq<nat>) {
    |fs| == |bounds| && forall i :: 0 <= i < |fs| ==> Leaf(fs[i]) && !Writes(fs[i]) && Spent(fs[i]) <= bounds[i]
  }

  ghost predicate AllLeaves(fs: seq<Frame>) {
    forall f :: f in fs ==> Leaf(f)
  }

  /**
   * A Bank frame that calls the Vault once, getters and tokens, in any order and interleaved with its work and its writes,
   * the Vault calling tokens alone, all within the terms. Any of them but the getters may write.
   */
  ghost predicate Settles(bank: Frame, vault: Frame, kinds: seq<Kind>, b: BankTerms) {
    && Unreserved(bank) && Unreserved(vault) && |kinds| == |Bodies(bank)|
    && OfKind(Bodies(bank), kinds, Settlement) == [vault]
    && GettersWithin(OfKind(Bodies(bank), kinds, Getter), b.getters)
    && AllLeaves(OfKind(Bodies(bank), kinds, Token)) && AllLeaves(Bodies(vault))
    && TotalSpent(OfKind(Bodies(bank), kinds, Token)) + TotalSpent(Bodies(vault)) <= b.tokenBodies
    && Own(vault) <= VaultOwn(b) && Own(bank) + Own(vault) <= BankOwn(b) + VaultOwn(b)
  }

  /** The most a token call holds back: its sentry, and what is withheld for a token that spends the whole term. */
  function TokenHeld(b: BankTerms): nat { SENTRY + Ret(b.tokenBodies + SENTRY) }

  /** The most the Vault call holds back: what a token call in it does, and what is withheld for that Vault. */
  function VaultHeld(b: BankTerms): nat { TokenHeld(b) + Ret(VaultNeed(b) + Ret(b.tokenBodies + SENTRY)) }

  lemma TokenHolds(f: Frame, b: BankTerms)
    requires Leaf(f) && Spent(f) <= b.tokenBodies
    ensures Held(f) <= TokenHeld(b)
  {
    LeafSlack(f);
    RetMonotone(Least(f), b.tokenBodies + SENTRY);
  }

  lemma TokensHold(fs: seq<Frame>, b: BankTerms)
    requires AllLeaves(fs) && TotalSpent(fs) <= b.tokenBodies
    ensures forall f :: f in fs ==> Held(f) <= TokenHeld(b)
  {
    forall f | f in fs ensures Held(f) <= TokenHeld(b) {
      OneOfTotal(fs, f);
      TokenHolds(f, b);
    }
  }

  lemma VaultHolds(vault: Frame, b: BankTerms)
    requires Unreserved(vault) && AllLeaves(Bodies(vault)) && TotalSpent(Bodies(vault)) <= b.tokenBodies
    requires Own(vault) <= VaultOwn(b)
    ensures Held(vault) <= VaultHeld(b)
  {
    TokensHold(Bodies(vault), b);
    SlackAtMost(vault, TokenHeld(b));
    SpentSplits(vault);
    RetMonotone(Least(vault), VaultNeed(b) + Ret(b.tokenBodies + SENTRY));
  }

  lemma GetterHolds(fs: seq<Frame>, bounds: seq<nat>, f: Frame)
    requires GettersWithin(fs, bounds) && f in fs
    ensures Held(f) <= Retained(bounds)
  {
    var i :| 0 <= i < |fs| && fs[i] == f;
    ReaderSlack(f);
    RetMonotone(Least(f), bounds[i]);
    OneOfRetained(bounds, i);
  }

  lemma {:induction false} GettersSpend(fs: seq<Frame>, bounds: seq<nat>)
    requires GettersWithin(fs, bounds)
    ensures TotalSpent(fs) <= Sum(bounds)
  {
    if fs != [] {
      GettersSpend(fs[1..], bounds[1..]);
    }
  }

  /** Any call of the Bank holds back at most what the Vault call may, or what the getter charges cover. */
  lemma BankHolds(bank: Frame, vault: Frame, kinds: seq<Kind>, b: BankTerms, body: Frame)
    requires Settles(bank, vault, kinds, b) && body in Bodies(bank)
    ensures Held(body) <= Max(VaultHeld(b), Retained(b.getters))
  {
    hide OfKind, Held;
    var fs := Bodies(bank);
    var i :| 0 <= i < |fs| && fs[i] == body;
    InItsKind(fs, kinds, i);
    match kinds[i] {
      case Getter => GetterHolds(OfKind(fs, kinds, Getter), b.getters, body);
      case Token => TokensHold(OfKind(fs, kinds, Token), b);
      case Settlement => VaultHolds(vault, b);
    }
  }

  lemma OneSpent(f: Frame)
    ensures TotalSpent([f]) == Spent(f)
  {
    assert [f][1..] == [];
  }

  lemma BankSpends(bank: Frame, vault: Frame, kinds: seq<Kind>, b: BankTerms)
    requires Settles(bank, vault, kinds, b)
    ensures Spent(bank) <= BankOwn(b) + VaultOwn(b) + b.tokenBodies + Sum(b.getters)
  {
    hide OfKind, TotalSpent, Spent, Own;
    SpentSplits(bank);
    SpentSplits(vault);
    SpentByKind(Bodies(bank), kinds);
    GettersSpend(OfKind(Bodies(bank), kinds, Getter), b.getters);
    OneSpent(vault);
  }

  /** What no settlement within the terms needs more than. */
  function WorstBank(b: BankTerms): nat {
    BankOwn(b) + VaultOwn(b) + b.tokenBodies + Sum(b.getters) + Max(VaultHeld(b), Retained(b.getters))
  }

  lemma SettlementNeeds(bank: Frame, vault: Frame, kinds: seq<Kind>, b: BankTerms)
    requires Settles(bank, vault, kinds, b)
    ensures Least(bank) <= WorstBank(b)
  {
    forall body | body in Bodies(bank) ensures Held(body) <= Max(VaultHeld(b), Retained(b.getters)) {
      BankHolds(bank, vault, kinds, b, body);
    }
    SlackAtMost(bank, Max(VaultHeld(b), Retained(b.getters)));
    BankSpends(bank, vault, kinds, b);
  }

  // ---- The dearest settlement ---------------------------------------------------------------------------------------------

  /** Calls to getters that spend their bounds, and then `rest`. */
  function CallGetters(bounds: seq<nat>, rest: Frame): Frame {
    if bounds == [] then rest else Call(0, 0, Work(bounds[0], End), CallGetters(bounds[1..], rest))
  }

  /** All tokens' gas in one token, called last by the Vault, which is called last by the Bank; the token ends with a write. */
  function DearestVault(b: BankTerms): Frame {
    Work(VaultOwn(b), Call(0, 0, Work(b.tokenBodies, Store(End)), End))
  }

  function DearestBank(b: BankTerms): Frame {
    Work(BankOwn(b), CallGetters(b.getters, Call(0, 0, DearestVault(b), End)))
  }

  function DearestKinds(bounds: seq<nat>): seq<Kind> {
    if bounds == [] then [Settlement] else [Getter] + DearestKinds(bounds[1..])
  }

  lemma DearestVaultNeeds(b: BankTerms)
    ensures Least(DearestVault(b)) == VaultNeed(b) + Ret(b.tokenBodies + SENTRY)
    ensures Own(DearestVault(b)) == VaultOwn(b) && Unreserved(DearestVault(b))
    ensures Bodies(DearestVault(b)) == [Work(b.tokenBodies, Store(End))]
  {
    var token := Work(b.tokenBodies, Store(End));
    var call := Call(0, 0, token, End);
    assert Least(token) == b.tokenBodies + SENTRY && Spent(token) == b.tokenBodies;
    assert Least(call) == Inv(b.tokenBodies + SENTRY);
    assert Own(call) == 0 && Unreserved(call);
    assert Bodies(call) == [token] + [];
  }

  lemma GetterFrame(n: nat)
    ensures var f := Work(n, End); Leaf(f) && !Writes(f) && Spent(f) == n && Least(f) == n
  {
    assert Leaf(End) && !Writes(End) && Spent(End) == 0 && Least(End) == 0;
  }

  lemma GetterCall(n: nat, rest: Frame)
    ensures var f := Call(0, 0, Work(n, End), rest);
      Least(f) >= n + Least(rest) && Own(f) == Own(rest) && (Unreserved(f) <==> Unreserved(rest))
  {
    GetterFrame(n);
  }

  lemma VaultCall(vault: Frame)
    ensures var f := Call(0, 0, vault, End); Least(f) >= Inv(Least(vault)) && Own(f) == 0 && Unreserved(f)
  {
    assert Own(End) == 0 && Unreserved(End);
  }

  lemma {:induction false} CallGettersNeed(bounds: seq<nat>, vault: Frame)
    ensures var f := CallGetters(bounds, Call(0, 0, vault, End));
      Least(f) >= Sum(bounds) + Inv(Least(vault)) && Own(f) == 0 && Unreserved(f)
  {
    hide Least, Own, Unreserved, Inv;
    if bounds == [] {
      VaultCall(vault);
    } else {
      CallGettersNeed(bounds[1..], vault);
      GetterCall(bounds[0], CallGetters(bounds[1..], Call(0, 0, vault, End)));
    }
  }

  lemma {:induction false} CallGettersBodies(bounds: seq<nat>, vault: Frame)
    ensures var fs, kinds := Bodies(CallGetters(bounds, Call(0, 0, vault, End))), DearestKinds(bounds);
      && |fs| == |kinds| && OfKind(fs, kinds, Settlement) == [vault] && OfKind(fs, kinds, Token) == []
      && GettersWithin(OfKind(fs, kinds, Getter), bounds)
  {
    var rest := Call(0, 0, vault, End);
    if bounds == [] {
      assert Bodies(rest) == [vault] + [];
      assert [vault][1..] == [] && [Settlement][1..] == [];
    } else {
      var fs, kinds := Bodies(CallGetters(bounds[1..], rest)), DearestKinds(bounds[1..]);
      var getter := Work(bounds[0], End);
      CallGettersBodies(bounds[1..], vault);
      assert ([getter] + fs)[1..] == fs && ([Getter] + kinds)[1..] == kinds;
      assert OfKind([getter] + fs, [Getter] + kinds, Getter) == [getter] + OfKind(fs, kinds, Getter);
      GetterAdds(getter, OfKind(fs, kinds, Getter), bounds);
    }
  }

  lemma GetterAdds(getter: Frame, fs: seq<Frame>, bounds: seq<nat>)
    requires bounds != [] && getter == Work(bounds[0], End) && GettersWithin(fs, bounds[1..])
    ensures GettersWithin([getter] + fs, bounds)
  {
    GetterFrame(bounds[0]);
    forall i | 0 <= i < |[getter] + fs|
      ensures var f := ([getter] + fs)[i]; Leaf(f) && !Writes(f) && Spent(f) <= bounds[i]
    {
      assert i > 0 ==> ([getter] + fs)[i] == fs[i - 1] && bounds[i] == bounds[1..][i - 1];
    }
  }

  lemma DearestSettles(b: BankTerms)
    ensures Settles(DearestBank(b), DearestVault(b), DearestKinds(b.getters), b)
    ensures Least(DearestBank(b)) >= BankOwn(b) + Sum(b.getters) + Inv(Least(DearestVault(b)))
  {
    var vault, token := DearestVault(b), Work(b.tokenBodies, Store(End));
    DearestVaultNeeds(b);
    CallGettersNeed(b.getters, vault);
    CallGettersBodies(b.getters, vault);
    OneSpent(token);
    assert Spent(token) == b.tokenBodies && Leaf(token);
    hide OfKind, CallGetters, DearestVault, Least;
  }

  /** The condition on the terms under which the explicit sum is enough. */
  predicate ExplicitRule(b: BankTerms) {
    Ret(b.tokenBodies + SENTRY) + Ret(VaultNeed(b) + Ret(b.tokenBodies + SENTRY))
    <= Ret(VaultNeed(b)) + b.tokenBodies / 63 + Retained(b.getters) + 3 * SENTRY
  }

  lemma WorstWithin(b: BankTerms)
    ensures ExplicitRule(b) <==> WorstBank(b) <= BankNeed(b)
  {
  }

  /** No settlement within the terms runs out, or misses a sentry, on the explicit sum if and only if the rule holds. */
  lemma ExplicitChargesSufficeIff(b: BankTerms)
    ensures (forall bank, vault, kinds :: Settles(bank, vault, kinds, b) ==> Exec(bank, BankNeed(b)).Some?) <==> ExplicitRule(b)
  {
    WorstWithin(b);
    hide Exec, Settles, BankNeed, WorstBank, ExplicitRule;
    if ExplicitRule(b) {
      forall bank, vault, kinds | Settles(bank, vault, kinds, b) ensures Exec(bank, BankNeed(b)).Some? {
        SettlementNeeds(bank, vault, kinds, b);
        LeastIsExact(bank, BankNeed(b));
      }
    } else {
      DearestSettles(b);
      DearestRunsOut(b);
    }
  }

  lemma DearestRunsOut(b: BankTerms)
    requires !ExplicitRule(b)
    ensures Exec(DearestBank(b), BankNeed(b)).None?
  {
    DearestSettles(b);
    DearestVaultNeeds(b);
    LeastIsExact(DearestBank(b), BankNeed(b));
    hide Exec, Least, Settles, DearestBank, DearestVault, Sum, Retained;
  }

  /** The rule can fail, though only far above what a callback has: with 30 million gas of tokens and no other term. */
  lemma LargeTokensRunOut()
    ensures var b := BankTerms(0, 0, 0, 0, 0, 0, 0, 30_000_000, []);
      Settles(DearestBank(b), DearestVault(b), DearestKinds(b.getters), b) && Exec(DearestBank(b), BankNeed(b)).None?
  {
    hide Exec, Settles, DearestBank, DearestVault;
    var b := BankTerms(0, 0, 0, 0, 0, 0, 0, 30_000_000, []);
    DearestSettles(b);
    DearestRunsOut(b);
  }

  /** Every token term of up to 27 million gas meets the rule, more than ten times the gas of a whole callback. */
  lemma RuleHolds(b: BankTerms)
    requires b.tokenBodies <= 27_000_000
    ensures ExplicitRule(b)
  {
    RuleArithmetic(b.tokenBodies, VaultNeed(b));
  }

  lemma RuleArithmetic(t: nat, v: nat)
    requires t <= 27_000_000 && v > 0
    ensures Ret(t + SENTRY) + Ret(v + Ret(t + SENTRY)) <= Ret(v) + t / 63 + 3 * SENTRY
  {
    var x := Ret(t + SENTRY);
    assert x <= t / 63 + 37;
    assert Ret(v + x) <= Ret(v) + x / 63 + 1;
  }

  // ---- The callback chain ------------------------------------------------------------------------------------------------

  /** Terms of `compose` above the Bank frame, grouped as the source groups them. */
  datatype Terms = Terms(
    bank: nat, eventAfterBank: nat, routerOwn: nat, childPre: nat, childAfter: nat,
    outerOwn: nat, outerReserve: nat, vrfPre: nat, vrfAccess: nat, vrfReserve: nat, vrfAfter: nat)

  function RouterNeed(t: Terms): nat { t.routerOwn + Need(t.bank, 0, 0, t.eventAfterBank) }

  function ChildNeed(t: Terms): nat { t.childPre + Need(RouterNeed(t), 0, 0, t.childAfter) }

  function OuterNeed(t: Terms): nat { t.outerOwn + Need(ChildNeed(t), 0, t.outerReserve, 0) }

  /** `requirementAtConsumerEntry` of the source. */
  function ConsumerRequirement(t: Terms): nat {
    t.vrfPre + Need(OuterNeed(t), t.vrfAccess, t.vrfReserve, t.vrfAfter)
  }

  function RouterFrame(t: Terms, bank: Frame): Frame {
    Work(t.routerOwn, Call(0, 0, bank, Work(t.eventAfterBank, End)))
  }

  function ChildFrame(t: Terms, bank: Frame): Frame {
    Work(t.childPre, Call(0, 0, RouterFrame(t, bank), Work(t.childAfter, End)))
  }

  function OuterFrame(t: Terms, bank: Frame): Frame {
    Work(t.outerOwn, Call(0, t.outerReserve, ChildFrame(t, bank), End))
  }

  /** VRFHub calls GameHub, which calls itself, which calls the Router, which calls the Bank. */
  function CallbackChain(t: Terms, bank: Frame): Frame {
    Work(t.vrfPre, Call(t.vrfAccess, t.vrfReserve, OuterFrame(t, bank), Work(t.vrfAfter, End)))
  }

  lemma CallIs(pre: nat, o: nat, r: nat, body: Frame, after: nat)
    ensures Requirement(Work(pre, Call(o, r, body, Work(after, End)))) == pre + Need(Requirement(body), o, r, after)
    ensures Requirement(Work(pre, Call(o, r, body, End))) == pre + Need(Requirement(body), o, r, 0)
  {
    assert Requirement(End) == 0 && Requirement(Work(after, End)) == after;
  }

  /** The composed figure is the requirement of the chain of frames, call by call, and no more. */
  lemma ConsumerRequirementIs(t: Terms, bank: Frame)
    requires Requirement(bank) == t.bank
    ensures ConsumerRequirement(t) == Requirement(CallbackChain(t, bank))
    ensures OuterNeed(t) == Requirement(OuterFrame(t, bank)) && ChildNeed(t) == Requirement(ChildFrame(t, bank))
    ensures RouterNeed(t) == Requirement(RouterFrame(t, bank))
  {
    hide Requirement, Need;
    CallIs(t.routerOwn, 0, 0, bank, t.eventAfterBank);
    CallIs(t.childPre, 0, 0, RouterFrame(t, bank), t.childAfter);
    CallIs(t.outerOwn, 0, t.outerReserve, ChildFrame(t, bank), 0);
    CallIs(t.vrfPre, t.vrfAccess, t.vrfReserve, OuterFrame(t, bank), t.vrfAfter);
  }

  /** What follows each call fits in what is held back at it: in the reserve, or in the withheld 64th. */
  predicate AfterFits(t: Terms) {
    && t.vrfAccess + t.vrfAfter <= t.vrfReserve && t.childAfter <= Ret(RouterNeed(t)) && t.eventAfterBank <= Ret(t.bank)
  }

  /** Where what follows a call fits in what is held back, a callee's unspent gas saves its caller nothing. */
  lemma HeldBackDecides(u: nat, s: nat, o: nat, r: nat, q: nat)
    requires s <= u && (o + q <= r || q <= Ret(u))
    ensures NeedSpending(u, s, o, r, q) == Need(u, o, r, q)
  {
  }

  lemma CallLeastIs(pre: nat, o: nat, r: nat, body: Frame, after: nat)
    requires o + after <= r || after <= Ret(Least(body))
    ensures Least(Work(pre, Call(o, r, body, Work(after, End)))) == pre + Need(Least(body), o, r, after)
  {
    LeastCoversSpent(body);
    HeldBackDecides(Least(body), Spent(body), o, r, after);
    assert Least(Work(after, End)) == after;
  }

  lemma LastCallLeastIs(pre: nat, r: nat, body: Frame)
    ensures Least(Work(pre, Call(0, r, body, End))) == pre + Need(Least(body), 0, r, 0)
  {
    LeastCoversSpent(body);
    HeldBackDecides(Least(body), Spent(body), 0, r, 0);
    assert Least(End) == 0;
  }

  /** Then the composed figure is exactly the least budget: no smaller one carries the chain. */
  lemma ConsumerRequirementIsLeast(t: Terms, bank: Frame, budget: nat)
    requires Least(bank) == t.bank && AfterFits(t)
    ensures Exec(CallbackChain(t, bank), budget).Some? <==> budget >= ConsumerRequirement(t)
  {
    hide Least, Need, Ret, Exec;
    CallLeastIs(t.routerOwn, 0, 0, bank, t.eventAfterBank);
    CallLeastIs(t.childPre, 0, 0, RouterFrame(t, bank), t.childAfter);
    LastCallLeastIs(t.outerOwn, t.outerReserve, ChildFrame(t, bank));
    CallLeastIs(t.vrfPre, t.vrfAccess, t.vrfReserve, OuterFrame(t, bank), t.vrfAfter);
    LeastIsExact(CallbackChain(t, bank), budget);
  }

  /** And wherever every callee spends all it requires, whatever follows it. */
  lemma ConsumerRequirementIsExact(t: Terms, bank: Frame, budget: nat)
    requires Requirement(bank) == t.bank && NoSlack(CallbackChain(t, bank))
    ensures Exec(CallbackChain(t, bank), budget).Some? <==> budget >= ConsumerRequirement(t)
  {
    hide Requirement, Exec, NoSlack, CallbackChain;
    ConsumerRequirementIs(t, bank);
    RequirementExact(CallbackChain(t, bank), budget);
  }

  lemma CallNeed(pre: nat, o: nat, r: nat, body: Frame, rest: Frame, bound: nat, after: nat)
    requires Least(body) <= bound && Least(rest) <= after
    ensures Least(Work(pre, Call(o, r, body, rest))) <= pre + Need(bound, o, r, after)
  {
    LeastCoversSpent(body);
    NeedCovers(Least(body), bound, Spent(body), o, r, Least(rest), after);
  }

  lemma WorkNeeds(w: nat)
    ensures Least(Work(w, End)) == w && Least(Work(w, Store(End))) == w + SENTRY
    ensures Spent(Work(w, End)) == w && Spent(Work(w, Store(End))) == w
  {
    assert Least(End) == 0 && Least(Store(End)) == SENTRY && Spent(Store(End)) == 0;
  }

  /** A consumer budget of the composed requirement carries the whole callback, for any run within the bounds. */
  lemma CallbackNeverRunsOut(t: Terms, bank: Frame, run: Frame, budget: nat)
    requires Least(bank) <= t.bank && AtMost(run, CallbackChain(t, bank))
    requires budget >= ConsumerRequirement(t)
    ensures Exec(run, budget).Some? && budget >= Spent(run) && Exec(run, budget) == Some(budget - Spent(run))
  {
    WorkNeeds(t.eventAfterBank);
    WorkNeeds(t.childAfter);
    WorkNeeds(t.vrfAfter);
    assert Least(End) == 0;
    hide Least, Spent, Need, AtMost, Exec;
    CallNeed(t.routerOwn, 0, 0, bank, Work(t.eventAfterBank, End), t.bank, t.eventAfterBank);
    CallNeed(t.childPre, 0, 0, RouterFrame(t, bank), Work(t.childAfter, End), RouterNeed(t), t.childAfter);
    CallNeed(t.outerOwn, 0, t.outerReserve, ChildFrame(t, bank), End, ChildNeed(t), 0);
    CallNeed(t.vrfPre, t.vrfAccess, t.vrfReserve, OuterFrame(t, bank), Work(t.vrfAfter, End), OuterNeed(t), t.vrfAfter);
    BudgetCoversRuns(run, CallbackChain(t, bank), budget);
  }

  // ---- The last write of every frame -----------------------------------------------------------------------------------------

  /**
   * Where the terms' work lies: how much of the Router's own work follows the Bank call, of the child's after-work comes
   * before the acknowledgement and in it, and of the outer frame's around its call, whose reserve counts from before it.
   */
  datatype Split = Split(routerLater: nat, beforeAck: nat, ack: nat, outerTo: nat, outerFrom: nat)

  predicate Splits(t: Terms, p: Split) {
    p.routerLater <= t.routerOwn && p.beforeAck + p.ack <= t.childAfter && p.outerTo + p.outerFrom <= t.outerOwn
  }

  function StoringRouter(t: Terms, p: Split, bank: Frame): Frame
    requires Splits(t, p)
  {
    Work(t.routerOwn - p.routerLater, Call(0, 0, bank, Work(p.routerLater + t.eventAfterBank, Store(End))))
  }

  function AfterRouter(t: Terms, p: Split): Frame
    requires Splits(t, p)
  {
    Work(p.beforeAck, Call(0, 0, Work(p.ack, Store(End)), Work(t.childAfter - p.beforeAck - p.ack, Store(End))))
  }

  function StoringChild(t: Terms, p: Split, bank: Frame): Frame
    requires Splits(t, p)
  {
    Work(t.childPre, Call(0, 0, StoringRouter(t, p, bank), AfterRouter(t, p)))
  }

  function StoringOuter(t: Terms, p: Split, bank: Frame): Frame
    requires Splits(t, p)
  {
    Work(t.outerOwn - p.outerTo - p.outerFrom,
         Call(p.outerTo, t.outerReserve, StoringChild(t, p, bank), Work(p.outerFrom, Store(End))))
  }

  /** The same chain, with the acknowledgement a call of its own and every frame writing as its last step. */
  function StoringChain(t: Terms, p: Split, bank: Frame): Frame
    requires Splits(t, p)
  {
    Work(t.vrfPre, Call(t.vrfAccess, t.vrfReserve, StoringOuter(t, p, bank), Work(t.vrfAfter, Store(End))))
  }

  /** Gas left at a frame's last write, as the source's O2 figures have it: what a reserve leaves, or what a call withholds. */
  function HubSpare(t: Terms): int { t.vrfReserve - t.vrfAccess - t.vrfAfter }

  function OuterSpare(t: Terms, p: Split): int { t.outerReserve - p.outerTo - p.outerFrom }

  function ChildSpare(t: Terms): int { Ret(RouterNeed(t)) - t.childAfter }

  function AckSpare(t: Terms, p: Split): int { ChildSpare(t) * 63 / 64 - p.ack }

  function RouterSpare(t: Terms): int { Ret(t.bank) - t.eventAfterBank - t.routerOwn }

  predicate LastWritesHold(t: Terms, p: Split) {
    && HubSpare(t) >= SENTRY && OuterSpare(t, p) >= SENTRY && ChildSpare(t) >= SENTRY && AckSpare(t, p) >= SENTRY
    && RouterSpare(t) >= SENTRY
  }

  /** What a caller keeps while its callee runs, on the least gas that gives the callee `u`. */
  function KeptAt(u: nat, o: nat, r: nat): int
    requires o <= Max(u + r, o + Inv(u)) && r <= Max(u + r, o + Inv(u))
  {
    var g := Max(u + r, o + Inv(u));
    g - o - CalleeGas(g, o, r)
  }

  lemma KeptIs(u: nat, o: nat, r: nat)
    ensures KeptAt(u, o, r) == Max(r - o, Ret(u))
  {
    var g := Max(u + r, o + Inv(u));
    InvIsLeast(g - o, u);
    if u > 0 && g == o + Inv(u) {
      InvIsLeast(g - o, u + 1);
    }
  }

  /** Each O2 figure is what its caller then has left for its last write, when its callee spends all it is given. */
  lemma SparesAreWhatIsLeft(t: Terms, p: Split)
    ensures t.vrfAccess + Ret(OuterNeed(t)) <= t.vrfReserve ==>
              HubSpare(t) == KeptAt(OuterNeed(t), t.vrfAccess, t.vrfReserve) - t.vrfAfter
    ensures p.outerTo + Ret(ChildNeed(t)) <= t.outerReserve ==>
              OuterSpare(t, p) == KeptAt(ChildNeed(t), p.outerTo, t.outerReserve) - p.outerFrom
    ensures ChildSpare(t) == KeptAt(RouterNeed(t), 0, 0) - t.childAfter
    ensures RouterSpare(t) == KeptAt(t.bank, 0, 0) - t.eventAfterBank - t.routerOwn
    ensures ChildSpare(t) >= 0 ==> 0 <= CalleeGas(ChildSpare(t), 0, 0) - p.ack - AckSpare(t, p) <= 1
  {
    hide OuterNeed, ChildNeed, RouterNeed;
    KeptIs(OuterNeed(t), t.vrfAccess, t.vrfReserve);
    KeptIs(ChildNeed(t), p.outerTo, t.outerReserve);
    KeptIs(RouterNeed(t), 0, 0);
    KeptIs(t.bank, 0, 0);
  }

  /** With the O2 figures at least a sentry what follows each call fits, so the composed figure is the least budget. */
  lemma SpareFits(t: Terms, p: Split, bank: Frame, budget: nat)
    requires LastWritesHold(t, p) && Least(bank) == t.bank
    ensures Exec(CallbackChain(t, bank), budget).Some? <==> budget >= ConsumerRequirement(t)
  {
    hide Exec, CallbackChain, ConsumerRequirement, Least;
    ConsumerRequirementIsLeast(t, bank, budget);
  }

  /** A sentry after a call is free exactly when the reserve, or else what the call withholds, leaves it. */
  lemma SentryFree(u: nat, o: nat, r: nat, q: nat)
    ensures Need(u, o, r, q + SENTRY) == Need(u, o, r, q)
            <==> r - o - q >= SENTRY || Ret(u) - q >= SENTRY || (r > 0 && r + 1 - o - u - q >= SENTRY)
  {
  }

  lemma WritingCall(w: nat, rest: Frame)
    ensures var f := Call(0, 0, Work(w, Store(End)), rest);
      Least(f) == Max(w + SENTRY + Ret(w + SENTRY), w + Least(rest)) && Spent(f) == w + Spent(rest)
  {
    WorkNeeds(w);
  }

  lemma AcknowledgementNeeds(t: Terms, p: Split)
    requires Splits(t, p)
    ensures Least(AfterRouter(t, p)) <= t.childAfter + SENTRY + Ret(p.ack + SENTRY)
    ensures Spent(AfterRouter(t, p)) == t.childAfter
  {
    hide Least, Spent, Ret;
    var w := t.childAfter - p.beforeAck - p.ack;
    var call := Call(0, 0, Work(p.ack, Store(End)), Work(w, Store(End)));
    WorkNeeds(w);
    WritingCall(p.ack, Work(w, Store(End)));
    WorkBefore(p.beforeAck, call);
  }

  lemma WorkBefore(w: nat, rest: Frame)
    ensures Least(Work(w, rest)) == w + Least(rest) && Spent(Work(w, rest)) == w + Spent(rest)
  {
  }

  /** 63/64 of the child's spare covers the acknowledgement and a sentry only if the spare covers what is withheld for them. */
  lemma SpareCovers(spare: int, ack: nat)
    requires spare * 63 / 64 - ack >= SENTRY
    ensures spare >= ack + SENTRY + Ret(ack + SENTRY)
  {
    var u := ack + SENTRY;
    assert spare * 63 >= 64 * u;
    assert 63 * Ret(u) <= u;
  }

  /** A call whose rest needs no more than what is withheld at the call, or than what the reserve leaves. */
  lemma CallWithholds(pre: nat, body: Frame, rest: Frame, bound: nat, after: nat)
    requires Least(body) <= bound && Least(rest) <= Ret(bound)
    ensures Least(Work(pre, Call(0, 0, body, rest))) <= pre + Need(bound, 0, 0, after)
  {
    hide Spent, Ret;
    LeastCoversSpent(body);
    RetMonotone(Least(body), bound);
  }

  lemma CallReserves(pre: nat, o: nat, r: nat, body: Frame, rest: Frame, bound: nat, after: nat)
    requires Least(body) <= bound && Least(rest) <= r - o
    ensures Least(Work(pre, Call(o, r, body, rest))) <= pre + Need(bound, o, r, after)
  {
    hide Spent, Ret;
    LeastCoversSpent(body);
    RetMonotone(Least(body), bound);
  }

  lemma RouterLastWrite(t: Terms, p: Split, bank: Frame)
    requires Splits(t, p) && RouterSpare(t) >= SENTRY && Least(bank) <= t.bank
    ensures Least(StoringRouter(t, p, bank)) <= RouterNeed(t)
  {
    hide Least, Spent, Need, Ret;
    var after := p.routerLater + t.eventAfterBank;
    WorkNeeds(after);
    CallWithholds(t.routerOwn - p.routerLater, bank, Work(after, Store(End)), t.bank, t.eventAfterBank);
  }

  lemma ChildLastWrite(t: Terms, p: Split, bank: Frame)
    requires Splits(t, p) && AckSpare(t, p) >= SENTRY && Least(StoringRouter(t, p, bank)) <= RouterNeed(t)
    ensures Least(StoringChild(t, p, bank)) <= ChildNeed(t)
  {
    hide Least, Spent, Need, Ret, StoringRouter, AfterRouter, RouterNeed;
    AcknowledgementNeeds(t, p);
    SpareCovers(ChildSpare(t), p.ack);
    CallWithholds(t.childPre, StoringRouter(t, p, bank), AfterRouter(t, p), RouterNeed(t), t.childAfter);
  }

  /** Work around a call may be charged with the frame's own work instead. */
  lemma AccessFolds(u: nat, o: nat, r: nat, q: nat)
    ensures Need(u, o, r, q) <= o + q + Need(u, 0, r, 0)
  {
  }

  lemma OuterLastWrite(t: Terms, p: Split, bank: Frame)
    requires Splits(t, p) && OuterSpare(t, p) >= SENTRY && Least(StoringChild(t, p, bank)) <= ChildNeed(t)
    ensures Least(StoringOuter(t, p, bank)) <= OuterNeed(t)
  {
    WorkNeeds(p.outerFrom);
    AccessFolds(ChildNeed(t), p.outerTo, t.outerReserve, p.outerFrom);
    hide Least, Spent, Need, Ret, ChildNeed, StoringChild;
    CallReserves(t.outerOwn - p.outerTo - p.outerFrom, p.outerTo, t.outerReserve, StoringChild(t, p, bank),
                 Work(p.outerFrom, Store(End)), ChildNeed(t), p.outerFrom);
  }

  lemma HubLastWrite(t: Terms, p: Split, bank: Frame)
    requires Splits(t, p) && HubSpare(t) >= SENTRY && Least(StoringOuter(t, p, bank)) <= OuterNeed(t)
    ensures Least(StoringChain(t, p, bank)) <= ConsumerRequirement(t)
  {
    WorkNeeds(t.vrfAfter);
    hide Least, Spent, Need, Ret, OuterNeed, StoringOuter;
    CallReserves(t.vrfPre, t.vrfAccess, t.vrfReserve, StoringOuter(t, p, bank), Work(t.vrfAfter, Store(End)), OuterNeed(t),
                 t.vrfAfter);
  }

  lemma ChainLastWrite(t: Terms, p: Split, bank: Frame)
    requires Splits(t, p) && LastWritesHold(t, p) && Least(bank) <= t.bank
    ensures Least(StoringChain(t, p, bank)) <= ConsumerRequirement(t)
  {
    hide Least, StoringRouter, StoringChild, StoringOuter, StoringChain, RouterNeed, ChildNeed, OuterNeed, ConsumerRequirement,
         RouterSpare, AckSpare, ChildSpare, OuterSpare, HubSpare;
    RouterLastWrite(t, p, bank);
    ChildLastWrite(t, p, bank);
    OuterLastWrite(t, p, bank);
    HubLastWrite(t, p, bank);
  }

  /**
   * With the O2 figures at least a sentry, a consumer budget of the composed requirement carries every run within the
   * chain: no frame runs out, and each finds its sentry at every write, wherever it writes.
   */
  lemma EveryWriteFindsItsSentry(t: Terms, p: Split, bank: Frame, run: Frame, budget: nat)
    requires Splits(t, p) && LastWritesHold(t, p) && Least(bank) <= t.bank
    requires AtMost(run, StoringChain(t, p, bank)) && budget >= ConsumerRequirement(t)
    ensures Exec(run, budget).Some? && budget >= Spent(run) && Exec(run, budget) == Some(budget - Spent(run))
  {
    ChainLastWrite(t, p, bank);
    BudgetCoversRuns(run, StoringChain(t, p, bank), budget);
  }

  /**
   * The certificate's claim as a whole: terms composed by the explicit sum that meet its rule and the O2 figures, and a
   * budget of the composed requirement, carry every callback within them and every settlement it makes, writes included.
   */
  lemma SettlementNeverRunsOut(t: Terms, p: Split, b: BankTerms, bank: Frame, vault: Frame, kinds: seq<Kind>, run: Frame,
                               budget: nat)
    requires t.bank == BankNeed(b) && ExplicitRule(b) && Settles(bank, vault, kinds, b)
    requires Splits(t, p) && LastWritesHold(t, p)
    requires AtMost(run, StoringChain(t, p, bank)) && budget >= ConsumerRequirement(t)
    ensures Exec(run, budget).Some? && budget >= Spent(run) && Exec(run, budget) == Some(budget - Spent(run))
  {
    ExplicitChargesSufficeIff(b);
    LeastIsExact(bank, BankNeed(b));
    hide Settles, StoringChain, BankNeed;
    EveryWriteFindsItsSentry(t, p, bank, run, budget);
  }
}
