/**
 * The abstract interpreter of pure_module_bound.py: words are known or unknown, unknown branch conditions
 * fork, states with the same key are joined.
 */
module ModuleBound {
  import opened Binary
  import opened Bytes
  import opened Evm
  import opened ConcreteOracle

  datatype AVal = U | K(v: Word)

  /** Calldata by word address: known or unknown words from offset 4 on, behind a selector. */
  datatype Calldata = Calldata(selector: nat, words: map<nat, AVal>, size: nat)

  datatype Context = Context(prog: Program, cd: Calldata)

  /** `hv`: some store went to an unknown address; `msz`: memory size in words. */
  datatype AState = AState(pc: nat, stack: seq<AVal>, mem: map<nat, AVal>, hv: bool, msz: nat)

  const Start: AState := AState(0, [], map[], false, 0)

  datatype Succ =
    | To(s: AState, g: nat)
    | Ok(msz: nat, g: nat)
    | Rev

  /** `Fails`: the interpreter raises, so it claims nothing. */
  datatype StepResult = Succs(list: seq<Succ>) | Fails

  // ---- Reading calldata and memory ----------------------------------------------------------------------------

  /** Selector and first word, as one word read at offset 0. The two parts share no bit. */
  function SelectorWord(selector: nat, word1: Word): Word {
    Wrap(selector * (TWO_256 / 0x1_0000_0000) + word1 / 0x1_0000_0000)
  }

  function CdLoad(cd: Calldata, off: AVal): AVal {
    if off.U? then U
    else if off.v >= cd.size then K(0)
    else if off.v == 0 then
      if 4 in cd.words && cd.words[4].U? then U
      else K(SelectorWord(cd.selector, if 4 in cd.words then cd.words[4].v else 0))
    else if (off.v - 4) % 32 == 0 && off.v in cd.words then cd.words[off.v]
    else U
  }

  /** What an aligned load at `a` yields. */
  function Lookup(mem: map<nat, AVal>, hv: bool, a: nat): AVal {
    if a in mem then mem[a] else if hv && a >= 0x80 then U else K(0)
  }

  /** The words that stay tracked after a store through an unknown address. */
  function Havocked(mem: map<nat, AVal>): map<nat, AVal> {
    map a | a in mem && a < 0x80 :: mem[a]
  }

  function Stored(mem: map<nat, AVal>, off: nat, val: AVal, wide: bool): map<nat, AVal> {
    if wide && off % 32 == 0 then mem[off := val]
    else
      var base := off - off % 32;
      if wide then mem[base := U][base + 32 := U] else mem[base := U]
  }

  /** The aligned words a copy to [dst, dst + ln) touches. */
  function Covered(dst: nat, ln: nat): set<nat> {
    set a: nat | dst - dst % 32 <= a < dst + ln && a % 32 == 0
  }

  function Copied(c: Context, op: Op, mem: map<nat, AVal>, dst: nat, src: AVal, ln: nat): map<nat, AVal> {
    var exact := op.CallDataCopy? && dst % 32 == 0 && src.K? && ln % 32 == 0;
    map a | a in mem.Keys + Covered(dst, ln) ::
      if a !in Covered(dst, ln) then mem[a]
      else if exact && src.v + (a - dst) < TWO_256 then CdLoad(c.cd, K(src.v + (a - dst)))
      else if exact then K(0)
      else U
  }

  /** New size in words and gas of covering [off, off + len); None when the extent is unknown. */
  function Expand(off: AVal, len: AVal, cur: nat): Option<(nat, nat)> {
    if len == K(0) then Some((cur, 0))
    else if off.U? || len.U? then None
    else Some((Max(cur, Needed(off.v, len.v)), GrowthCost(cur, Needed(off.v, len.v))))
  }

  // ---- One step -----------------------------------------------------------------------------------------------

  function One(s: AState, g: nat): StepResult { Succs([To(s, g)]) }

  function Cont(s: AState, next: nat, stack: seq<AVal>, g: nat): StepResult {
    One(s.(pc := next, stack := stack), g)
  }

  /** Results that do not depend on the unknown operands. */
  function ZeroAnyway(f: AluOp, a: seq<AVal>): bool {
    || ((f.Mul? || f.And?) && K(0) in a)
    || ((f.Shl? || f.Shr?) && |a| > 0 && a[0].K? && a[0].v >= 256)
  }

  function Known(a: seq<AVal>): (r: seq<Word>)
    requires U !in a
    ensures |r| == |a|
    ensures forall i :: 0 <= i < |a| ==> r[i] == a[i].v
  {
    seq<Word>(|a|, i requires 0 <= i < |a| => a[i].v)
  }

  function AluResult(f: AluOp, a: seq<AVal>): AVal
    requires |a| == Arity(f)
  {
    if U in a then (if ZeroAnyway(f, a) then K(0) else U) else K(Eval(f, Known(a)))
  }

  function AExpCost(e: AVal): nat {
    if e.U? then 10 + 50 * 32 else ExpCost(e.v)
  }

  function AStepMemory(s: AState, i: Instr): StepResult
    requires i.op.MLoad? || i.op.MStore? || i.op.MStore8?
  {
    var st := s.stack;
    if |st| < (if i.op.MLoad? then 1 else 2) then Fails else
    var off := Top(st, 0);
    if i.op.MLoad? then
      if off.U? then Cont(s, i.next, Drop(st, 1) + [U], 3) else
      var v := if off.v % 32 != 0 then U else Lookup(s.mem, s.hv, off.v);
      One(s.(pc := i.next, stack := Drop(st, 1) + [v], msz := Max(s.msz, Needed(off.v, 32))),
          3 + GrowthCost(s.msz, Needed(off.v, 32)))
    else if off.U? then
      One(s.(pc := i.next, stack := Drop(st, 2), mem := Havocked(s.mem), hv := true), 3)
    else
      var need := Needed(off.v, if i.op.MStore? then 32 else 1);
      One(s.(pc := i.next, stack := Drop(st, 2), mem := Stored(s.mem, off.v, Top(st, 1), i.op.MStore?),
             msz := Max(s.msz, need)),
          3 + GrowthCost(s.msz, need))
  }

  /** New size and gas of a copy's expansions: the destination, then for MCOPY the source. */
  function CopyExtent(op: Op, dst: AVal, src: AVal, ln: AVal, msz: nat): Option<(nat, nat)> {
    match Expand(dst, ln, msz)
    case None => None
    case Some(e1) =>
      if !op.MCopy? then Some(e1)
      else match Expand(src, ln, e1.0)
           case None => None
           case Some(e2) => Some((e2.0, e1.1 + e2.1))
  }

  /** Tracked memory after a copy; a store through an unknown destination havocs it. */
  function CopyMem(c: Context, op: Op, mem: map<nat, AVal>, dst: AVal, src: AVal, ln: nat): map<nat, AVal> {
    if dst.U? then Havocked(mem) else Copied(c, op, mem, dst.v, src, ln)
  }

  function AStepCopy(c: Context, s: AState, i: Instr): StepResult
    requires i.op.CallDataCopy? || i.op.CodeCopy? || i.op.MCopy?
  {
    if |s.stack| < 3 || Top(s.stack, 2).U? then Fails
    else ACopyNext(c, s, i, Top(s.stack, 0), Top(s.stack, 1), Top(s.stack, 2).v)
  }

  function ACopyNext(c: Context, s: AState, i: Instr, dst: AVal, src: AVal, ln: nat): StepResult
    requires i.op.CallDataCopy? || i.op.CodeCopy? || i.op.MCopy?
    requires |s.stack| >= 3 && ln < TWO_256
  {
    match CopyExtent(i.op, dst, src, K(ln), s.msz)
    case None => Fails
    case Some(e) =>
      One(AState(i.next, Drop(s.stack, 3), CopyMem(c, i.op, s.mem, dst, src, ln), s.hv || dst.U?, e.0),
          3 + 3 * ((ln + 31) / 32) + e.1)
  }

  function AStepJumpI(c: Context, s: AState, i: Instr): StepResult {
    var st := s.stack;
    if |st| < 2 then Fails else
    var d, cond := Top(st, 0), Top(st, 1);
    if d.U? || d.v !in JumpDests(c.prog) then Fails else
    var taken := To(s.(pc := d.v, stack := Drop(st, 2)), 10);
    var through := To(s.(pc := i.next, stack := Drop(st, 2)), 10);
    Succs(if cond.U? then [taken, through] else if cond.v != 0 then [taken] else [through])
  }

  function AStep(c: Context, s: AState): StepResult {
    if s.pc !in c.prog.ops then Fails else
    var i := c.prog.ops[s.pc];
    var st := s.stack;
    match i.op
    case Push(v) => Cont(s, i.next, st + [K(v)], 3)
    case Push0 => Cont(s, i.next, st + [K(0)], 2)
    case Dup(n) => if n < 1 || |st| < n then Fails else Cont(s, i.next, st + [Top(st, n - 1)], 3)
    case Swap(n) =>
      if |st| < n + 1 then Fails
      else Cont(s, i.next, st[|st| - 1 := Top(st, n)][|st| - 1 - n := Top(st, 0)], 3)
    case Pop => if |st| < 1 then Fails else Cont(s, i.next, Drop(st, 1), 2)
    case JumpDest => Cont(s, i.next, st, 1)
    case Jump =>
      if |st| < 1 || Top(st, 0).U? || Top(st, 0).v !in JumpDests(c.prog) then Fails
      else Cont(s, Top(st, 0).v, Drop(st, 1), 8)
    case JumpI => AStepJumpI(c, s, i)
    case Stop => Succs([Ok(s.msz, 0)])
    case Return =>
      if |st| < 2 || Expand(Top(st, 0), Top(st, 1), s.msz).None? then Fails else
      var (m, g) := Expand(Top(st, 0), Top(st, 1), s.msz).value;
      Succs([Ok(m, g)])
    case Abort => Succs([Rev])
    case CallDataLoad => if |st| < 1 then Fails else Cont(s, i.next, Drop(st, 1) + [CdLoad(c.cd, Top(st, 0))], 3)
    case CallDataSize => if c.cd.size < TWO_256 then Cont(s, i.next, st + [K(c.cd.size)], 2) else Fails
    case PushZero => Cont(s, i.next, st + [K(0)], 2)
    case Environment => Cont(s, i.next, st + [U], 2)
    case CodeSize => if |c.prog.code| < TWO_256 then Cont(s, i.next, st + [K(|c.prog.code|)], 2) else Fails
    case MSize => if s.msz * 32 < TWO_256 then Cont(s, i.next, st + [K(s.msz * 32)], 2) else Fails
    case MLoad | MStore | MStore8 => AStepMemory(s, i)
    case CallDataCopy | CodeCopy | MCopy => AStepCopy(c, s, i)
    case Keccak =>
      if |st| < 2 || Top(st, 1).U? || Expand(Top(st, 0), Top(st, 1), s.msz).None? then Fails else
      var (m, g) := Expand(Top(st, 0), Top(st, 1), s.msz).value;
      One(s.(pc := i.next, stack := Drop(st, 2) + [U], msz := m), 30 + 6 * ((Top(st, 1).v + 31) / 32) + g)
    case Exp =>
      if |st| < 2 then Fails else
      var a, e := Top(st, 0), Top(st, 1);
      Cont(s, i.next, Drop(st, 2) + [if a.U? || e.U? then U else K(PowMod(a.v, e.v))], AExpCost(e))
    case Alu(f) =>
      if |st| < Arity(f) then Fails
      else Cont(s, i.next, Drop(st, Arity(f)) + [AluResult(f, Popped(st, Arity(f)))], Cost(f))
    case Unsupported => Fails
  }

  /** The sites recorded as evidence for assumption M1. */
  predicate UnknownAddress(c: Context, s: AState) {
    && s.pc in c.prog.ops
    && (c.prog.ops[s.pc].op.MLoad? || c.prog.ops[s.pc].op.MStore? || c.prog.ops[s.pc].op.MStore8?)
    && |s.stack| > 0 && Top(s.stack, 0).U?
  }

  // ---- Keys and joins -----------------------------------------------------------------------------------------

  /** Words below this stay in a state's key. */
  const SMALL: nat := 0x1_0000_0000

  datatype Key = Key(pc: nat, sig: seq<Option<nat>>, hv: bool)

  function SigOf(v: AVal): Option<nat> {
    if v.K? && v.v < SMALL then Some(v.v) else None
  }

  function Sig(st: seq<AVal>): seq<Option<nat>> {
    seq(|st|, i requires 0 <= i < |st| => SigOf(st[i]))
  }

  function KeyOf(s: AState): Key { Key(s.pc, Sig(s.stack), s.hv) }

  function JoinVal(x: AVal, y: AVal): AVal { if x == y then x else U }

  /** The free-memory pointer slot. */
  const FMP: nat := 0x40

  function JoinMem(m1: map<nat, AVal>, m2: map<nat, AVal>): map<nat, AVal> {
    var jm := map a | a in m1.Keys + m2.Keys :: if a in m1 && a in m2 then JoinVal(m1[a], m2[a]) else U;
    var f1 := if FMP in m1 then m1[FMP] else K(0);
    var f2 := if FMP in m2 then m2[FMP] else K(0);
    if f1.K? && f2.K? then jm[FMP := K(if f1.v < f2.v then f2.v else f1.v)] else jm
  }

  /** The join of two states with the same key. */
  function Join(a: AState, b: AState): AState {
    AState(a.pc,
           seq(Min(|a.stack|, |b.stack|), i requires 0 <= i < Min(|a.stack|, |b.stack|) => JoinVal(a.stack[i], b.stack[i])),
           JoinMem(a.mem, b.mem), a.hv, Max(a.msz, b.msz))
  }

  /** `x` stands for every word `y` stands for, except that a known free-memory pointer may be larger. */
  ghost predicate ValCovers(a: nat, x: AVal, y: AVal) {
    x.U? || x == y || (a == FMP && y.K? && x.v >= y.v)
  }

  ghost predicate StackCovers(x: seq<AVal>, y: seq<AVal>) {
    |x| == |y| && forall i :: 0 <= i < |x| ==> x[i].U? || x[i] == y[i]
  }

  /** The order in which joins move up. */
  ghost predicate Covers(b: AState, a: AState) {
    && b.pc == a.pc && b.hv == a.hv && a.msz <= b.msz
    && StackCovers(b.stack, a.stack)
    && forall x: nat :: ValCovers(x, Lookup(b.mem, b.hv, x), Lookup(a.mem, a.hv, x))
  }

  lemma CoversReflexive(a: AState)
    ensures Covers(a, a)
  {
  }

  lemma CoversTransitive(c: AState, b: AState, a: AState)
    requires Covers(c, b) && Covers(b, a)
    ensures Covers(c, a)
  {
    forall x: nat ensures ValCovers(x, Lookup(c.mem, c.hv, x), Lookup(a.mem, a.hv, x)) {
      assert ValCovers(x, Lookup(c.mem, c.hv, x), Lookup(b.mem, b.hv, x));
      assert ValCovers(x, Lookup(b.mem, b.hv, x), Lookup(a.mem, a.hv, x));
    }
  }

  /** States with equal keys agree on their small known words, so joining them changes neither key nor shape. */
  lemma JoinUpperBound(a: AState, b: AState)
    requires KeyOf(a) == KeyOf(b)
    ensures KeyOf(Join(a, b)) == KeyOf(a)
    ensures Covers(Join(a, b), a) && Covers(Join(a, b), b)
  {
    assert |Sig(a.stack)| == |Sig(b.stack)|;
    var j := Join(a, b);
    forall i | 0 <= i < |a.stack| ensures SigOf(j.stack[i]) == SigOf(a.stack[i]) {
      assert Sig(a.stack)[i] == Sig(b.stack)[i];
    }
    assert Sig(j.stack) == Sig(a.stack);
  }

  /** A join forgets no more than it must: a word both know alike, the larger of two known free-memory pointers, the larger size. */
  lemma JoinKnownIff(a: AState, b: AState, i: nat, w: nat)
    requires KeyOf(a) == KeyOf(b)
    ensures i < |a.stack| ==> i < |b.stack| && Join(a, b).stack[i] == (if a.stack[i] == b.stack[i] then a.stack[i] else U)
    ensures var r := Lookup(Join(a, b).mem, a.hv, w);
      w == FMP || r == (if w in a.mem && w in b.mem then (if a.mem[w] == b.mem[w] then a.mem[w] else U)
                        else if w in a.mem || w in b.mem then U
                        else Lookup(a.mem, a.hv, w))
    ensures var x, y, r := Lookup(a.mem, false, FMP), Lookup(b.mem, false, FMP), Lookup(Join(a, b).mem, false, FMP);
      if x.K? && y.K? then r == K(Max(x.v, y.v)) else r == U
    ensures Join(a, b).msz == Max(a.msz, b.msz)
  {
    StackLengths(a, b);
  }

  // ---- What a joined state absorbs ------------------------------------------------------------------------------

  /**
   * Joining `s` into `b` changes nothing, except that where neither tracks the free-memory pointer the join
   * spells out its zero.
   */
  predicate Absorbs(b: AState, s: AState) {
    || Join(b, s) == b
    || (FMP !in b.mem && FMP !in s.mem && Join(b, s) == b.(mem := b.mem[FMP := K(0)]))
  }

  /** The test `j == best[nk]` of the worklist succeeds exactly when the absorbing state tracks 0x40. */
  lemma AbsorbsUnchangedIff(b: AState, s: AState)
    requires Absorbs(b, s)
    ensures Join(b, s) == b <==> FMP in b.mem
  {
    assert FMP !in b.mem ==> FMP in b.mem[FMP := K(0)];
  }

  lemma JoinSelf(a: AState)
    ensures Absorbs(a, a)
    ensures Join(a, a) == a <==> FMP in a.mem
  {
    assert Join(a, a).stack == a.stack;
    if FMP in a.mem {
      assert Join(a, a).mem == a.mem;
    } else {
      assert Join(a, a).mem == a.mem[FMP := K(0)];
    }
  }

  lemma StackLengths(a: AState, b: AState)
    requires KeyOf(a) == KeyOf(b)
    ensures |a.stack| == |b.stack|
  {
    assert |Sig(a.stack)| == |Sig(b.stack)|;
  }

  lemma JoinTwice(b: AState, s: AState)
    requires KeyOf(b) == KeyOf(s)
    ensures Join(Join(b, s), s) == Join(b, s)
  {
    StackLengths(b, s);
    JoinMemTwice(b.mem, s.mem);
    assert Join(Join(b, s), s).stack == Join(b, s).stack;
  }

  lemma JoinMemTwice(m: map<nat, AVal>, n: map<nat, AVal>)
    ensures JoinMem(JoinMem(m, n), n) == JoinMem(m, n)
  {
  }

  /** What is absorbed stays absorbed when another state is joined in. */
  lemma AbsorbsStays(b: AState, x: AState, s: AState)
    requires KeyOf(b) == KeyOf(x) == KeyOf(s) && Absorbs(b, s)
    ensures Absorbs(Join(b, x), s)
  {
    StackLengths(b, x);
    StackLengths(b, s);
    AbsorbsMemStays(b.mem, x.mem, s.mem);
    var j := Join(b, x);
    forall i | 0 <= i < |j.stack| ensures JoinVal(j.stack[i], s.stack[i]) == j.stack[i] {
      assert Join(b, s).stack[i] == b.stack[i];
    }
    assert Join(j, s).stack == j.stack;
  }

  predicate AbsorbsMem(m: map<nat, AVal>, n: map<nat, AVal>) {
    JoinMem(m, n) == m || (FMP !in m && FMP !in n && JoinMem(m, n) == m[FMP := K(0)])
  }

  /** Address by address: `m` tracks what `n` tracks, with the same word or an unknown one, and knows nothing else. */
  predicate AbsorbsAt(m: map<nat, AVal>, n: map<nat, AVal>, a: nat) {
    if a == FMP then
      if a !in m then a !in n else a in n && m[a].K? ==> n[a].K? && n[a].v <= m[a].v
    else if a in m then m[a].U? || (a in n && m[a] == n[a])
    else a !in n
  }

  lemma AbsorbsMemIff(m: map<nat, AVal>, n: map<nat, AVal>)
    ensures AbsorbsMem(m, n) <==> forall a: nat :: AbsorbsAt(m, n, a)
  {
    var j := JoinMem(m, n);
    if AbsorbsMem(m, n) {
      forall a: nat ensures AbsorbsAt(m, n, a) {
        assert a in n || a in m ==> a in j;
      }
    }
    if forall a: nat :: AbsorbsAt(m, n, a) {
      assert forall a :: a in n && a != FMP ==> AbsorbsAt(m, n, a);
      assert forall a :: a in m ==> AbsorbsAt(m, n, a);
      assert AbsorbsAt(m, n, FMP);
      assert FMP in m ==> j == m;
      assert FMP !in m ==> j == m[FMP := K(0)];
    }
  }

  lemma AbsorbsMemStays(m: map<nat, AVal>, x: map<nat, AVal>, n: map<nat, AVal>)
    requires AbsorbsMem(m, n)
    ensures AbsorbsMem(JoinMem(m, x), n)
  {
    AbsorbsMemIff(m, n);
    AbsorbsMemIff(JoinMem(m, x), n);
    forall a: nat ensures AbsorbsAt(JoinMem(m, x), n, a) {
      assert AbsorbsAt(m, n, a);
    }
  }

  /** Absorbing is stronger than covering: it also keeps the words a state tracks. */
  lemma AbsorbsCovers(b: AState, s: AState)
    requires KeyOf(b) == KeyOf(s) && Absorbs(b, s)
    ensures Covers(b, s)
  {
    JoinUpperBound(b, s);
    assert forall x: nat :: Lookup(b.mem, b.hv, x) == Lookup(Join(b, s).mem, b.hv, x);
  }

  /** Covering alone would not do: the covering state may know a word that a join would forget. */
  lemma CoversIsWeaker()
    ensures var b, s := AState(0, [], map[0 := K(0), FMP := K(0)], false, 0), AState(0, [], map[FMP := K(0)], false, 0);
      KeyOf(b) == KeyOf(s) && Covers(b, s) && !Absorbs(b, s)
  {
    var b, s := AState(0, [], map[0 := K(0), FMP := K(0)], false, 0), AState(0, [], map[FMP := K(0)], false, 0);
    assert Join(b, s).mem[0] == U;
  }
}
