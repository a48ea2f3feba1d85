/** One concrete instruction is covered by one abstract successor that charges no less. */
module Simulation {
  import opened Binary
  import opened Bytes
  import opened Evm
  import opened ConcreteOracle
  import opened ModuleBound

  ghost predicate Matches(x: AVal, w: Word) { x.U? || x.v == w }

  ghost predicate StackMatches(ast: seq<AVal>, st: seq<Word>) {
    |ast| == |st| && forall i :: 0 <= i < |st| ==> Matches(ast[i], st[i])
  }

  /** The aligned word at `a`; memory that is not allocated reads as zero. */
  function WordAt(mem: seq<byte>, a: nat): Word {
    if a + 32 <= |mem| then WordOf(mem, a) else 0
  }

  /** Tracked words hold; an untracked word is zero unless a store through an unknown address may have hit it. */
  ghost predicate MemMatches(am: map<nat, AVal>, hv: bool, mem: seq<byte>) {
    forall a: nat :: a % 32 == 0 ==> Matches(Lookup(am, hv, a), WordAt(mem, a))
  }

  /** `exact`: memory sizes agree, which is what MSIZE needs. */
  ghost predicate SizeMatches(msz: nat, mem: seq<byte>, exact: bool) {
    |mem| % 32 == 0 && Words(mem) <= msz && (exact ==> Words(mem) == msz)
  }

  /** The concretization: the concrete states an abstract state stands for. */
  ghost predicate Gamma(a: AState, s: State, exact: bool) {
    && a.pc == s.pc
    && StackMatches(a.stack, s.stack)
    && MemMatches(a.mem, a.hv, s.mem)
    && SizeMatches(a.msz, s.mem, exact)
  }

  /** The concrete calldata agrees with every word the abstract calldata fixes. */
  ghost predicate Instantiates(acd: Calldata, cd: seq<byte>) {
    && |cd| == acd.size < TWO_256
    && forall off: Word :: CdLoad(acd, K(off)).K? ==> CdLoad(acd, K(off)).v == LoadWord(cd, off)
  }

  /**
   * What the analysis assumes of an executed instruction.
   * M1: at a site whose address was unknown, the address is at or above 0x80 and inside allocated memory.
   * A calldata or code copy starts inside its source. MSIZE runs only where sizes are exact.
   */
  ghost predicate StepAdmissible(c: Context, cd: seq<byte>, sites: set<nat>, exact: bool, s: State) {
    s.pc in c.prog.ops ==>
      var op := c.prog.ops[s.pc].op;
      && ((op.MLoad? || op.MStore? || op.MStore8?) && s.pc in sites && |s.stack| > 0 ==>
            0x80 <= Top(s.stack, 0) && Top(s.stack, 0) + (if op.MStore8? then 1 else 32) <= |s.mem|)
      && ((op.CallDataCopy? || op.CodeCopy?) && |s.stack| >= 3 && Top(s.stack, 2) != 0 ==>
            Top(s.stack, 1) <= if op.CallDataCopy? then |cd| else |c.prog.code|)
      && (op.MSize? ==> exact)
  }

  /** Gas spent apart from memory, which is priced by its final size. */
  function Potential(s: State): int { s.gas - MemCost(Words(s.mem)) }

  /** `b` covers `s2`, and charged at least what going from `s` to `s2` cost, memory growth apart. */
  ghost predicate StepCovers(a: AState, b: AState, g: nat, s: State, s2: State, exact: bool) {
    Gamma(b, s2, exact) && Potential(s2) - Potential(s) <= g - (MemCost(b.msz) - MemCost(a.msz))
  }

  ghost predicate Simulated(a: AState, list: seq<Succ>, s: State, r: Outcome, exact: bool) {
    match r
    case Next(s2) => exists j :: 0 <= j < |list| && list[j].To? && StepCovers(a, list[j].s, list[j].g, s, s2, exact)
    case Done(gas, _) => exists j :: 0 <= j < |list| && list[j].Ok? && gas - Potential(s) <= list[j].g + MemCost(a.msz)
    case _ => true
  }

  // ---- Memory -------------------------------------------------------------------------------------------------

  lemma SameBytesSameWord(m1: seq<byte>, m2: seq<byte>, a: nat)
    requires a + 32 <= |m1| && a + 32 <= |m2|
    requires m1[a..a + 32] == m2[a..a + 32]
    ensures WordAt(m1, a) == WordAt(m2, a)
  {
  }

  lemma ExpandedWords(mem: seq<byte>, offset: nat, length: nat, a: nat)
    requires |mem| % 32 == 0 && a % 32 == 0
    ensures WordAt(Expanded(mem, offset, length), a) == WordAt(mem, a)
  {
    var m := Expanded(mem, offset, length);
    if a + 32 <= |mem| {
      SameBytesSameWord(mem, m, a);
    } else if a + 32 <= |m| {
      FromZeros(m[a..a + 32]);
    }
  }

  lemma ExpandedMatches(am: map<nat, AVal>, hv: bool, mem: seq<byte>, offset: nat, length: nat)
    requires MemMatches(am, hv, mem) && |mem| % 32 == 0
    ensures MemMatches(am, hv, Expanded(mem, offset, length))
  {
    forall a: nat | a % 32 == 0 ensures WordAt(Expanded(mem, offset, length), a) == WordAt(mem, a) {
      ExpandedWords(mem, offset, length, a);
    }
  }

  /** Writing [at, at + n) leaves every aligned word outside it alone. */
  lemma SplicedElsewhere(mem: seq<byte>, at: nat, n: nat, data: seq<byte>, a: nat)
    requires at + n <= |mem| && |data| == n
    requires a + 32 <= at || at + n <= a
    ensures WordAt(Spliced(mem, at, n, data), a) == WordAt(mem, a)
  {
    var m := Spliced(mem, at, n, data);
    assert |m| == |mem|;
    if a + 32 <= |mem| {
      assert m[a..a + 32] == mem[a..a + 32];
    }
  }

  lemma SplicedWord(mem: seq<byte>, at: nat, val: Word)
    requires at + 32 <= |mem|
    ensures WordAt(Spliced(mem, at, 32, ToBytes(val, 32)), at) == val
  {
    var m := Spliced(mem, at, 32, ToBytes(val, 32));
    assert m[at..at + 32] == ToBytes(val, 32);
    Pow256Word();
    FromToBytes(val, 32);
  }

  /** Both interpreters grow memory in step, so the difference to the memory price never widens. */
  lemma GrowthInStep(msz: nat, mem: seq<byte>, exact: bool, offset: nat, length: nat)
    requires SizeMatches(msz, mem, exact)
    ensures var m := Expanded(mem, offset, length);
      var grown := if length == 0 then msz else Max(msz, Needed(offset, length));
      && SizeMatches(grown, m, exact)
      && ExpansionGas(mem, offset, length) == MemCost(Words(m)) - MemCost(Words(mem))
      && (length > 0 ==> GrowthCost(msz, Needed(offset, length)) == MemCost(grown) - MemCost(msz))
  {
  }

  /** A store changes what an aligned load sees exactly where it overlaps, and there to its value or to unknown. */
  lemma StoredLookup(am: map<nat, AVal>, hv: bool, off: nat, aval: AVal, wide: bool, a: nat)
    requires a % 32 == 0
    ensures a + 32 <= off || off + (if wide then 32 else 1) <= a ==>
      Lookup(Stored(am, off, aval, wide), hv, a) == Lookup(am, hv, a)
    ensures !(a + 32 <= off || off + (if wide then 32 else 1) <= a) ==>
      if wide && off % 32 == 0 then a == off && Lookup(Stored(am, off, aval, wide), hv, a) == aval
      else Lookup(Stored(am, off, aval, wide), hv, a) == U
  {
    var k, q, r := a / 32, off / 32, off % 32;
    assert a == 32 * k && off == 32 * q + r;
  }

  lemma StoredMatches(am: map<nat, AVal>, hv: bool, mem: seq<byte>, off: nat, aval: AVal, val: Word, wide: bool,
                      data: seq<byte>)
    requires MemMatches(am, hv, mem) && |mem| % 32 == 0
    requires off + |data| <= |mem| && Matches(aval, val)
    requires |data| == (if wide then 32 else 1) && (wide ==> data == ToBytes(val, 32))
    ensures MemMatches(Stored(am, off, aval, wide), hv, Spliced(mem, off, |data|, data))
  {
    forall a: nat | a % 32 == 0
      ensures Matches(Lookup(Stored(am, off, aval, wide), hv, a), WordAt(Spliced(mem, off, |data|, data), a))
    {
      StoredLookup(am, hv, off, aval, wide, a);
      if a + 32 <= off || off + |data| <= a {
        SplicedElsewhere(mem, off, |data|, data, a);
        assert Matches(Lookup(am, hv, a), WordAt(mem, a));
      } else if wide && off % 32 == 0 {
        SplicedWord(mem, off, val);
      }
    }
  }

  lemma HavockedMatches(am: map<nat, AVal>, hv: bool, mem: seq<byte>, off: nat, n: nat, data: seq<byte>)
    requires MemMatches(am, hv, mem)
    requires 0x80 <= off && off + n <= |mem| && |data| == n
    ensures MemMatches(Havocked(am), true, Spliced(mem, off, n, data))
  {
    forall a: nat | a % 32 == 0
      ensures Matches(Lookup(Havocked(am), true, a), WordAt(Spliced(mem, off, n, data), a))
    {
      if a < 0x80 {
        SplicedElsewhere(mem, off, n, data, a);
        assert Matches(Lookup(am, hv, a), WordAt(mem, a));
      }
    }
  }

  lemma HavockedAlone(am: map<nat, AVal>, hv: bool, mem: seq<byte>)
    requires MemMatches(am, hv, mem)
    ensures MemMatches(Havocked(am), true, mem)
  {
    forall a: nat | a % 32 == 0 ensures Matches(Lookup(Havocked(am), true, a), WordAt(mem, a)) {
      assert Matches(Lookup(am, hv, a), WordAt(mem, a));
    }
  }

  // ---- Stack --------------------------------------------------------------------------------------------------

  lemma TopMatches(ast: seq<AVal>, st: seq<Word>, i: nat)
    requires StackMatches(ast, st) && i < |st|
    ensures Matches(Top(ast, i), Top(st, i))
  {
  }

  lemma PushMatches(ast: seq<AVal>, st: seq<Word>, n: nat, x: AVal, w: Word)
    requires StackMatches(ast, st) && n <= |st| && Matches(x, w)
    ensures StackMatches(Drop(ast, n), Drop(st, n))
    ensures StackMatches(Drop(ast, n) + [x], Drop(st, n) + [w])
    ensures n == 0 ==> Drop(ast, n) == ast && Drop(st, n) == st
  {
  }

  lemma BitAndZero(x: nat)
    ensures BitAnd(x, 0) == 0 && BitAnd(0, x) == 0
  {
  }

  /** Arithmetic on partly unknown operands: unknown, or a zero no operand could change. */
  lemma AluMatches(f: AluOp, a: seq<AVal>, w: seq<Word>)
    requires |a| == |w| == Arity(f)
    requires forall i :: 0 <= i < |a| ==> Matches(a[i], w[i])
    ensures Matches(AluResult(f, a), Eval(f, w))
  {
    if U !in a {
      assert Known(a) == w;
    } else if ZeroAnyway(f, a) {
      assert |w| == 2;
      if f.And? {
        BitAndZero(w[0]);
        BitAndZero(w[1]);
      } else if f.Mul? {
        assert w[0] == 0 || w[1] == 0;
        assert w[0] * w[1] == 0;
      }
    }
  }

  lemma ExpPriced(e: AVal, w: Word)
    requires Matches(e, w)
    ensures ExpCost(w) <= AExpCost(e)
  {
    Pow2Word();
    BitLengthBound(w, 256);
  }

  // ---- One instruction ------------------------------------------------------------------------------------------

  /** The shape every non-memory instruction has: new top entries, same memory, equal price. */
  lemma ContCovers(a: AState, s: State, exact: bool, next: nat, ast: seq<AVal>, st: seq<Word>, ag: nat, g: nat)
    requires Gamma(a, s, exact) && StackMatches(ast, st) && g <= ag
    ensures Simulated(a, Cont(a, next, ast, ag).list, s, Go(s, next, st, g), exact)
  {
    var list := Cont(a, next, ast, ag).list;
    assert StepCovers(a, list[0].s, list[0].g, s, Go(s, next, st, g).s, exact);
  }

  lemma LoadStep(c: Context, sites: set<nat>, a: AState, s: State, exact: bool, cd: seq<byte>, i: Instr)
    requires Gamma(a, s, exact) && StepAdmissible(c, cd, sites, exact, s)
    requires s.pc in c.prog.ops && c.prog.ops[s.pc] == i && (UnknownAddress(c, a) ==> a.pc in sites)
    requires i.op.MLoad? && AStepMemory(a, i).Succs?
    ensures Simulated(a, AStepMemory(a, i).list, s, StepMemory(c.prog, s, i), exact)
  {
    var to := AStepMemory(a, i).list[0];
    var off: nat := Top(s.stack, 0);
    TopMatches(a.stack, s.stack, 0);
    GrowthInStep(a.msz, s.mem, exact, off, 32);
    ExpandedMatches(a.mem, a.hv, s.mem, off, 32);
    var m := Expanded(s.mem, off, 32);
    assert off % 32 == 0 ==> Matches(Lookup(a.mem, a.hv, off), WordAt(m, off));
    PushMatches(a.stack, s.stack, 1, Top(to.s.stack, 0), WordOf(m, off));
    Covering(a, s, exact, to.s, to.g, StepMemory(c.prog, s, i).s);
  }

  /** The memory half of a store through a known address. */
  lemma StoreKnown(a: AState, s: State, exact: bool, off: nat, aval: AVal, val: Word, wide: bool, data: seq<byte>)
    requires Gamma(a, s, exact) && Matches(aval, val)
    requires |data| == (if wide then 32 else 1) && (wide ==> data == ToBytes(val, 32))
    ensures var m := Spliced(Expanded(s.mem, off, |data|), off, |data|, data);
      var need := Needed(off, |data|);
      && MemMatches(Stored(a.mem, off, aval, wide), a.hv, m)
      && SizeMatches(Max(a.msz, need), m, exact)
      && ExpansionGas(s.mem, off, |data|) - (MemCost(Words(m)) - MemCost(Words(s.mem)))
         == GrowthCost(a.msz, need) - (MemCost(Max(a.msz, need)) - MemCost(a.msz))
  {
    GrowthInStep(a.msz, s.mem, exact, off, |data|);
    ExpandedMatches(a.mem, a.hv, s.mem, off, |data|);
    StoredMatches(a.mem, a.hv, Expanded(s.mem, off, |data|), off, aval, val, wide, data);
  }

  lemma StoreStep(c: Context, sites: set<nat>, a: AState, s: State, exact: bool, cd: seq<byte>, i: Instr)
    requires Gamma(a, s, exact) && StepAdmissible(c, cd, sites, exact, s)
    requires s.pc in c.prog.ops && c.prog.ops[s.pc] == i && (UnknownAddress(c, a) ==> a.pc in sites)
    requires (i.op.MStore? || i.op.MStore8?) && AStepMemory(a, i).Succs?
    ensures Simulated(a, AStepMemory(a, i).list, s, StepMemory(c.prog, s, i), exact)
  {
    var to, r := AStepMemory(a, i).list[0], StepMemory(c.prog, s, i);
    var off: nat, val: nat := Top(s.stack, 0), Top(s.stack, 1);
    var data: seq<byte> := if i.op.MStore? then ToBytes(val, 32) else [val % 256];
    TopMatches(a.stack, s.stack, 0);
    TopMatches(a.stack, s.stack, 1);
    PushMatches(a.stack, s.stack, 2, U, 0);
    if Top(a.stack, 0).U? {
      UnknownStore(a, s, exact, off, data);
    } else {
      StoreKnown(a, s, exact, off, Top(a.stack, 1), val, i.op.MStore?, data);
    }
    assert Gamma(to.s, r.s, exact);
    assert StepCovers(a, to.s, to.g, s, r.s, exact);
  }

  /** The memory half of a store through an unknown address, which M1 keeps above 0x80 and allocated. */
  lemma UnknownStore(a: AState, s: State, exact: bool, off: nat, data: seq<byte>)
    requires Gamma(a, s, exact) && |data| > 0 && 0x80 <= off && off + |data| <= |s.mem|
    ensures ExpansionGas(s.mem, off, |data|) == 0
    ensures var m := Spliced(Expanded(s.mem, off, |data|), off, |data|, data);
      && MemMatches(Havocked(a.mem), true, m) && |m| == |s.mem|
  {
    HavockedMatches(a.mem, a.hv, s.mem, off, |data|, data);
  }

  // ---- Copies ---------------------------------------------------------------------------------------------------

  /** Each whole word of copied calldata is the word a load at its source offset would give. */
  lemma RdSlice(cd: seq<byte>, src: nat, ln: nat, at: nat)
    requires src <= |cd| && at + 32 <= ln
    ensures |Rd(cd, src, ln)| == ln
    ensures FromBytes(Rd(cd, src, ln)[at..at + 32]) == LoadWord(cd, src + at)
  {
    var slice := Rd(cd, src, ln)[at..at + 32];
    if src + at <= |cd| {
      assert slice == Rd(cd, src + at, 32);
    } else {
      FromZeros(slice);
      FromZeros(Rd(cd, src + at, 32));
    }
  }

  /** An aligned word outside the copied range is disjoint from it. */
  lemma NotCovered(dst: nat, ln: nat, a: nat)
    requires a % 32 == 0 && a !in Covered(dst, ln)
    ensures a + 32 <= dst || dst + ln <= a
  {
    var k, q := a / 32, dst / 32;
    assert a == 32 * k && dst == 32 * q + dst % 32;
  }

  predicate ExactCopy(op: Op, dst: nat, src: AVal, ln: nat) {
    op.CallDataCopy? && dst % 32 == 0 && src.K? && ln % 32 == 0
  }

  /** The calldata word an exact copy puts at `a`. */
  function CopiedVal(c: Context, dst: nat, from: Word, a: nat): AVal
    requires a >= dst
  {
    if from + (a - dst) < TWO_256 then CdLoad(c.cd, K(from + (a - dst))) else K(0)
  }

  lemma CopiedLookup(c: Context, op: Op, am: map<nat, AVal>, hv: bool, dst: nat, src: AVal, ln: nat, a: nat)
    ensures a !in Covered(dst, ln) ==> Lookup(Copied(c, op, am, dst, src, ln), hv, a) == Lookup(am, hv, a)
    ensures a in Covered(dst, ln) && !ExactCopy(op, dst, src, ln) ==> Lookup(Copied(c, op, am, dst, src, ln), hv, a) == U
    ensures a in Covered(dst, ln) && ExactCopy(op, dst, src, ln) ==>
      a >= dst && Lookup(Copied(c, op, am, dst, src, ln), hv, a) == CopiedVal(c, dst, src.v, a)
  {
  }

  lemma CopiedMatches(c: Context, cd: seq<byte>, op: Op, am: map<nat, AVal>, hv: bool, m: seq<byte>,
                      dst: nat, src: AVal, from: Word, ln: nat, data: seq<byte>)
    requires MemMatches(am, hv, m) && Instantiates(c.cd, cd) && Matches(src, from)
    requires dst + ln <= |m| && |data| == ln
    requires op.CallDataCopy? ==> from <= |cd| && data == Rd(cd, from, ln)
    ensures MemMatches(Copied(c, op, am, dst, src, ln), hv, Spliced(m, dst, ln, data))
  {
    forall a: nat | a % 32 == 0
      ensures Matches(Lookup(Copied(c, op, am, dst, src, ln), hv, a), WordAt(Spliced(m, dst, ln, data), a))
    {
      CopiedLookup(c, op, am, hv, dst, src, ln, a);
      if a !in Covered(dst, ln) {
        NotCovered(dst, ln, a);
        SplicedElsewhere(m, dst, ln, data, a);
        assert Matches(Lookup(am, hv, a), WordAt(m, a));
      } else if ExactCopy(op, dst, src, ln) {
        CopiedWord(c, cd, m, dst, from, ln, data, a);
      }
    }
  }

  lemma CopiedWord(c: Context, cd: seq<byte>, m: seq<byte>, dst: nat, from: Word, ln: nat, data: seq<byte>, a: nat)
    requires Instantiates(c.cd, cd) && dst % 32 == 0 && ln % 32 == 0 && a in Covered(dst, ln)
    requires dst + ln <= |m| && |data| == ln && from <= |cd| && data == Rd(cd, from, ln)
    ensures a >= dst && Matches(CopiedVal(c, dst, from, a), WordAt(Spliced(m, dst, ln, data), a))
  {
    var k, q, l := a / 32, dst / 32, ln / 32;
    assert a == 32 * k && dst == 32 * q && ln == 32 * l;
    var at := a - dst;
    assert Spliced(m, dst, ln, data)[a..a + 32] == data[at..at + 32];
    RdSlice(cd, from, ln, at);
    if from + at >= TWO_256 {
      FromZeros(Rd(cd, from + at, 32));
    }
  }

  lemma CopyLength(p: Program, cd: seq<byte>, m: seq<byte>, op: Op, src: nat, ln: nat)
    requires op.MCopy? ==> src + ln <= |m|
    requires op.CallDataCopy? || op.CodeCopy? || op.MCopy?
    requires op.CallDataCopy? ==> src <= |cd|
    requires op.CodeCopy? ==> src <= |p.code|
    ensures |CopyData(p, cd, m, op, src, ln)| == ln
  {
  }

  /** The memory a copy ends with, and its size and price, are covered. */
  lemma CopyKnown(c: Context, cd: seq<byte>, a: AState, s: State, exact: bool, op: Op,
                  dst: nat, src: AVal, from: Word, ln: nat)
    requires Gamma(a, s, exact) && Instantiates(c.cd, cd) && Matches(src, from)
    requires op.CallDataCopy? || op.CodeCopy? || op.MCopy?
    requires ln > 0 && op.CallDataCopy? ==> from <= |cd|
    requires ln > 0 && op.CodeCopy? ==> from <= |c.prog.code|
    ensures |CopyResult(c.prog, cd, s, op, dst, from, ln)| == |CopyMemory(s, op, dst, from, ln)|
    ensures MemMatches(Copied(c, op, a.mem, dst, src, ln), a.hv, CopyResult(c.prog, cd, s, op, dst, from, ln))
  {
    var m1 := Expanded(s.mem, dst, ln);
    ExpandedMatches(a.mem, a.hv, s.mem, dst, ln);
    ExpandedMatches(a.mem, a.hv, m1, from, ln);
    var m := CopyMemory(s, op, dst, from, ln);
    if ln > 0 {
      CopyLength(c.prog, cd, m, op, from, ln);
      CopiedMatches(c, cd, op, a.mem, a.hv, m, dst, src, from, ln, CopyData(c.prog, cd, m, op, from, ln));
    } else {
      forall x: nat | x % 32 == 0 ensures Matches(Lookup(Copied(c, op, a.mem, dst, src, ln), a.hv, x), WordAt(m, x)) {
        assert Matches(Lookup(a.mem, a.hv, x), WordAt(m, x));
      }
    }
  }

  /** `Expand` charges and grows as the concrete expansion does, for matching extents. */
  lemma ExpandCovers(msz: nat, mem: seq<byte>, exact: bool, off: AVal, len: AVal, o: Word, n: Word)
    requires SizeMatches(msz, mem, exact) && Matches(off, o) && len == K(n)
    requires Expand(off, len, msz).Some?
    ensures var m := Expanded(mem, o, n);
      var (grown, g) := Expand(off, len, msz).value;
      && SizeMatches(grown, m, exact)
      && ExpansionGas(mem, o, n) - (MemCost(Words(m)) - MemCost(Words(mem))) == g - (MemCost(grown) - MemCost(msz))
  {
    GrowthInStep(msz, mem, exact, o, n);
  }

  /** Sizes and prices of a copy's one or two expansions. */
  lemma CopyGrowth(a: AState, s: State, exact: bool, op: Op, adst: AVal, asrc: AVal, dst: Word, src: Word, ln: Word)
    requires Gamma(a, s, exact) && Matches(adst, dst) && Matches(asrc, src)
    requires CopyExtent(op, adst, asrc, K(ln), a.msz).Some?
    ensures var e := CopyExtent(op, adst, asrc, K(ln), a.msz).value;
      var m := CopyMemory(s, op, dst, src, ln);
      && SizeMatches(e.0, m, exact)
      && CopyGrowthGas(s, op, dst, src, ln) - (MemCost(Words(m)) - MemCost(Words(s.mem)))
         == e.1 - (MemCost(e.0) - MemCost(a.msz))
  {
    ExpandCovers(a.msz, s.mem, exact, adst, K(ln), dst, ln);
    if op.MCopy? {
      ExpandCovers(Expand(adst, K(ln), a.msz).value.0, Expanded(s.mem, dst, ln), exact, asrc, K(ln), src, ln);
    }
  }

  /** The copied memory, whether or not the destination is known (an unknown one is accepted only for no bytes). */
  lemma CopyResultMatches(c: Context, cd: seq<byte>, a: AState, s: State, exact: bool, op: Op,
                          adst: AVal, asrc: AVal, dst: Word, src: Word, ln: Word)
    requires Gamma(a, s, exact) && Instantiates(c.cd, cd) && Matches(adst, dst) && Matches(asrc, src)
    requires op.CallDataCopy? || op.CodeCopy? || op.MCopy?
    requires ln > 0 ==> adst.K? && (op.CallDataCopy? ==> src <= |cd|) && (op.CodeCopy? ==> src <= |c.prog.code|)
    ensures |CopyResult(c.prog, cd, s, op, dst, src, ln)| == |CopyMemory(s, op, dst, src, ln)|
    ensures MemMatches(CopyMem(c, op, a.mem, adst, asrc, ln), a.hv || adst.U?, CopyResult(c.prog, cd, s, op, dst, src, ln))
  {
    if adst.U? {
      HavockedAlone(a.mem, a.hv, s.mem);
    } else {
      CopyKnown(c, cd, a, s, exact, op, dst, asrc, src, ln);
    }
  }

  lemma CopyOperands(ast: seq<AVal>, st: seq<Word>)
    requires StackMatches(ast, st) && |ast| >= 3
    ensures Matches(Top(ast, 0), Top(st, 0)) && Matches(Top(ast, 1), Top(st, 1)) && Matches(Top(ast, 2), Top(st, 2))
    ensures StackMatches(Drop(ast, 3), Drop(st, 3))
  {
    TopMatches(ast, st, 0);
    TopMatches(ast, st, 1);
    TopMatches(ast, st, 2);
    PushMatches(ast, st, 3, U, 0);
  }

  lemma CopyStep(c: Context, cd: seq<byte>, a: AState, s: State, exact: bool, i: Instr)
    requires Gamma(a, s, exact) && Instantiates(c.cd, cd)
    requires i.op.CallDataCopy? || i.op.CodeCopy? || i.op.MCopy?
    requires |s.stack| >= 3 && Top(s.stack, 2) != 0 ==>
      && (i.op.CallDataCopy? ==> Top(s.stack, 1) <= |cd|)
      && (i.op.CodeCopy? ==> Top(s.stack, 1) <= |c.prog.code|)
    requires AStepCopy(c, a, i).Succs?
    ensures Simulated(a, AStepCopy(c, a, i).list, s, StepCopy(c.prog, cd, s, i), exact)
  {
    CopyOperands(a.stack, s.stack);
    CopyCovers(c, cd, a, s, exact, i, Top(a.stack, 0), Top(a.stack, 1), Top(s.stack, 0), Top(s.stack, 1), Top(s.stack, 2));
  }

  lemma CopyCovers(c: Context, cd: seq<byte>, a: AState, s: State, exact: bool, i: Instr,
                   adst: AVal, asrc: AVal, dst: Word, src: Word, ln: Word)
    requires Gamma(a, s, exact) && Instantiates(c.cd, cd) && Matches(adst, dst) && Matches(asrc, src)
    requires i.op.CallDataCopy? || i.op.CodeCopy? || i.op.MCopy?
    requires ln > 0 ==> (i.op.CallDataCopy? ==> src <= |cd|) && (i.op.CodeCopy? ==> src <= |c.prog.code|)
    requires |s.stack| >= 3 && StackMatches(Drop(a.stack, 3), Drop(s.stack, 3)) && ACopyNext(c, a, i, adst, asrc, ln).Succs?
    ensures Simulated(a, ACopyNext(c, a, i, adst, asrc, ln).list, s, CopyNext(c.prog, cd, s, i, dst, src, ln), exact)
  {
    CopyResultMatches(c, cd, a, s, exact, i.op, adst, asrc, dst, src, ln);
    CopyGrowth(a, s, exact, i.op, adst, asrc, dst, src, ln);
    var to := ACopyNext(c, a, i, adst, asrc, ln).list[0];
    Covering(a, s, exact, to.s, to.g, CopyNext(c.prog, cd, s, i, dst, src, ln).s);
    assert ACopyNext(c, a, i, adst, asrc, ln).list == [To(to.s, to.g)];
  }

  /** A copy whose source starts past the end leaves memory longer by the distance. */
  lemma CopyPastEndLength(p: Program, cd: seq<byte>, s: State, op: Op, dst: nat, src: nat, ln: nat)
    requires ln > 0 && ((op.CallDataCopy? && src > |cd|) || (op.CodeCopy? && src > |p.code|))
    ensures |CopyResult(p, cd, s, op, dst, src, ln)|
         == |CopyMemory(s, op, dst, src, ln)| + src - (if op.CallDataCopy? then |cd| else |p.code|)
  {
  }

  /** Where sizes are exact, a copy is simulated if and only if nothing is copied or its source starts inside its data. */
  lemma CopySimulatedIff(c: Context, cd: seq<byte>, a: AState, s: State, i: Instr)
    requires Gamma(a, s, true) && Instantiates(c.cd, cd) && |s.stack| >= 3
    requires i.op.CallDataCopy? || i.op.CodeCopy? || i.op.MCopy?
    requires AStepCopy(c, a, i).Succs?
    ensures Simulated(a, AStepCopy(c, a, i).list, s, StepCopy(c.prog, cd, s, i), true)
            <==> (Top(s.stack, 2) != 0 ==>
                    && (i.op.CallDataCopy? ==> Top(s.stack, 1) <= |cd|)
                    && (i.op.CodeCopy? ==> Top(s.stack, 1) <= |c.prog.code|))
  {
    var dst, src, ln := Top(s.stack, 0), Top(s.stack, 1), Top(s.stack, 2);
    if ln > 0 && ((i.op.CallDataCopy? && src > |cd|) || (i.op.CodeCopy? && src > |c.prog.code|)) {
      CopyOperands(a.stack, s.stack);
      CopyGrowth(a, s, true, i.op, Top(a.stack, 0), Top(a.stack, 1), dst, src, ln);
      CopyPastEndLength(c.prog, cd, s, i.op, dst, src, ln);
      NotSimulated(a, AStepCopy(c, a, i).list, s, StepCopy(c.prog, cd, s, i).s, |CopyMemory(s, i.op, dst, src, ln)|);
    } else {
      CopyStep(c, cd, a, s, true, i);
    }
  }

  lemma NotSimulated(a: AState, list: seq<Succ>, s: State, s2: State, n: nat)
    requires |list| == 1 && (list[0].To? ==> 32 * list[0].s.msz == n) && |s2.mem| > n
    ensures !Simulated(a, list, s, Next(s2), true)
  {
  }

  /** Simulation by a single successor, from its parts. */
  lemma Covering(a: AState, s: State, exact: bool, to: AState, ag: nat, r: State)
    requires to.pc == r.pc && StackMatches(to.stack, r.stack) && MemMatches(to.mem, to.hv, r.mem)
    requires SizeMatches(to.msz, r.mem, exact)
    requires Potential(r) - Potential(s) <= ag - (MemCost(to.msz) - MemCost(a.msz))
    ensures Simulated(a, [To(to, ag)], s, Next(r), exact)
  {
    var list := [To(to, ag)];
    assert StepCovers(a, list[0].s, list[0].g, s, r, exact);
  }

  // ---- Every instruction -----------------------------------------------------------------------------------------

  lemma HashStep(c: Context, cd: seq<byte>, hash: Hash, a: AState, s: State, exact: bool)
    requires Gamma(a, s, exact) && s.pc in c.prog.ops && c.prog.ops[s.pc].op.Keccak?
    requires AStep(c, a).Succs?
    ensures Simulated(a, AStep(c, a).list, s, Step(c.prog, cd, hash, s), exact)
  {
    var to, r := AStep(c, a).list[0], Step(c.prog, cd, hash, s);
    var off: nat, ln: nat := Top(s.stack, 0), Top(s.stack, 1);
    TopMatches(a.stack, s.stack, 0);
    TopMatches(a.stack, s.stack, 1);
    ExpandCovers(a.msz, s.mem, exact, Top(a.stack, 0), K(ln), off, ln);
    ExpandedMatches(a.mem, a.hv, s.mem, off, ln);
    PushMatches(a.stack, s.stack, 2, U, Top(r.s.stack, 0));
    assert StepCovers(a, to.s, to.g, s, r.s, exact);
  }

  lemma EndStep(c: Context, cd: seq<byte>, hash: Hash, a: AState, s: State, exact: bool)
    requires Gamma(a, s, exact) && s.pc in c.prog.ops
    requires c.prog.ops[s.pc].op.Stop? || c.prog.ops[s.pc].op.Return?
    requires AStep(c, a).Succs?
    ensures Simulated(a, AStep(c, a).list, s, Step(c.prog, cd, hash, s), exact)
  {
    var ok, r := AStep(c, a).list[0], Step(c.prog, cd, hash, s);
    assert ok.Ok?;
    MemCostMonotone(Words(s.mem), a.msz);
    if c.prog.ops[s.pc].op.Return? {
      TopMatches(a.stack, s.stack, 0);
      TopMatches(a.stack, s.stack, 1);
      if Top(a.stack, 1).K? {
        ExpandCovers(a.msz, s.mem, exact, Top(a.stack, 0), Top(a.stack, 1), Top(s.stack, 0), Top(s.stack, 1));
        MemCostMonotone(Words(Expanded(s.mem, Top(s.stack, 0), Top(s.stack, 1))), ok.msz);
      }
    }
    assert r.gas - Potential(s) <= ok.g + MemCost(a.msz);
  }

  lemma JumpStep(c: Context, cd: seq<byte>, hash: Hash, a: AState, s: State, exact: bool)
    requires Gamma(a, s, exact) && s.pc in c.prog.ops
    requires c.prog.ops[s.pc].op.Jump? || c.prog.ops[s.pc].op.JumpI?
    requires AStep(c, a).Succs?
    ensures Simulated(a, AStep(c, a).list, s, Step(c.prog, cd, hash, s), exact)
  {
    var list, r := AStep(c, a).list, Step(c.prog, cd, hash, s);
    TopMatches(a.stack, s.stack, 0);
    if c.prog.ops[s.pc].op.Jump? {
      PushMatches(a.stack, s.stack, 1, U, 0);
      assert StepCovers(a, list[0].s, list[0].g, s, r.s, exact);
    } else {
      TopMatches(a.stack, s.stack, 1);
      PushMatches(a.stack, s.stack, 2, U, 0);
      var j := if Top(a.stack, 1).U? && Top(s.stack, 1) == 0 then 1 else 0;
      assert StepCovers(a, list[j].s, list[j].g, s, r.s, exact);
    }
  }

  lemma DupStep(a: AState, s: State, exact: bool, next: nat, n: nat)
    requires Gamma(a, s, exact) && 1 <= n <= |s.stack|
    ensures Simulated(a, Cont(a, next, a.stack + [Top(a.stack, n - 1)], 3).list, s,
                      Go(s, next, s.stack + [Top(s.stack, n - 1)], 3), exact)
  {
    TopMatches(a.stack, s.stack, n - 1);
    PushMatches(a.stack, s.stack, 0, Top(a.stack, n - 1), Top(s.stack, n - 1));
    ContCovers(a, s, exact, next, a.stack + [Top(a.stack, n - 1)], s.stack + [Top(s.stack, n - 1)], 3, 3);
  }

  lemma ConstantStep(a: AState, s: State, exact: bool, next: nat, x: AVal, w: Word, g: nat)
    requires Gamma(a, s, exact) && Matches(x, w)
    ensures Simulated(a, Cont(a, next, a.stack + [x], g).list, s, Go(s, next, s.stack + [w], g), exact)
  {
    PushMatches(a.stack, s.stack, 0, x, w);
    ContCovers(a, s, exact, next, a.stack + [x], s.stack + [w], g, g);
  }

  lemma PushStep(c: Context, cd: seq<byte>, hash: Hash, a: AState, s: State, exact: bool)
    requires Gamma(a, s, exact) && s.pc in c.prog.ops
    requires var op := c.prog.ops[s.pc].op; op.Push? || op.Push0? || op.PushZero?
    requires AStep(c, a).Succs?
    ensures Simulated(a, AStep(c, a).list, s, Step(c.prog, cd, hash, s), exact)
  {
    var i := c.prog.ops[s.pc];
    match i.op {
      case Push(v) => ConstantStep(a, s, exact, i.next, K(v), v, 3);
      case Push0 | PushZero => ConstantStep(a, s, exact, i.next, K(0), 0, 2);
    }
  }

  /** The size a size instruction pushes is known exactly to both interpreters. */
  lemma SizeStep(c: Context, cd: seq<byte>, hash: Hash, a: AState, s: State, exact: bool)
    requires Gamma(a, s, exact) && c.cd.size == |cd| && s.pc in c.prog.ops
    requires c.prog.ops[s.pc].op.CallDataSize? || c.prog.ops[s.pc].op.CodeSize?
    requires AStep(c, a).Succs?
    ensures Simulated(a, AStep(c, a).list, s, Step(c.prog, cd, hash, s), exact)
  {
    var i := c.prog.ops[s.pc];
    var n := if i.op.CallDataSize? then |cd| else |c.prog.code|;
    assert AStep(c, a) == Cont(a, i.next, a.stack + [K(n)], 2);
    assert Step(c.prog, cd, hash, s) == Go(s, i.next, s.stack + [n], 2);
    ConstantStep(a, s, exact, i.next, K(n), n, 2);
  }

  lemma MemorySizeStep(c: Context, cd: seq<byte>, hash: Hash, a: AState, s: State)
    requires Gamma(a, s, true) && s.pc in c.prog.ops && c.prog.ops[s.pc].op.MSize?
    requires AStep(c, a).Succs?
    ensures Simulated(a, AStep(c, a).list, s, Step(c.prog, cd, hash, s), true)
  {
    assert |s.mem| == a.msz * 32;
    ConstantStep(a, s, true, c.prog.ops[s.pc].next, K(|s.mem|), |s.mem|, 2);
  }

  lemma SwapStep(a: AState, s: State, exact: bool, next: nat, n: nat)
    requires Gamma(a, s, exact) && n + 1 <= |s.stack|
    ensures var top := |s.stack| - 1;
      Simulated(a, Cont(a, next, a.stack[top := Top(a.stack, n)][top - n := Top(a.stack, 0)], 3).list, s,
                Go(s, next, s.stack[top := Top(s.stack, n)][top - n := Top(s.stack, 0)], 3), exact)
  {
    var top := |s.stack| - 1;
    TopMatches(a.stack, s.stack, 0);
    TopMatches(a.stack, s.stack, n);
    ContCovers(a, s, exact, next, a.stack[top := Top(a.stack, n)][top - n := Top(a.stack, 0)],
               s.stack[top := Top(s.stack, n)][top - n := Top(s.stack, 0)], 3, 3);
  }

  /** Instructions that only move words. */
  lemma MoveStep(c: Context, cd: seq<byte>, hash: Hash, a: AState, s: State, exact: bool)
    requires Gamma(a, s, exact) && s.pc in c.prog.ops
    requires var op := c.prog.ops[s.pc].op; op.Dup? || op.Swap? || op.Pop? || op.JumpDest?
    requires AStep(c, a).Succs?
    ensures Simulated(a, AStep(c, a).list, s, Step(c.prog, cd, hash, s), exact)
  {
    var i := c.prog.ops[s.pc];
    match i.op {
      case Dup(n) => DupStep(a, s, exact, i.next, n);
      case Swap(n) => SwapStep(a, s, exact, i.next, n);
      case Pop =>
        PushMatches(a.stack, s.stack, 1, U, 0);
        ContCovers(a, s, exact, i.next, Drop(a.stack, 1), Drop(s.stack, 1), 2, 2);
      case JumpDest => ContCovers(a, s, exact, i.next, a.stack, s.stack, 1, 1);
    }
  }

  lemma LoadCallDataStep(c: Context, cd: seq<byte>, a: AState, s: State, exact: bool, next: nat)
    requires Gamma(a, s, exact) && Instantiates(c.cd, cd) && |s.stack| >= 1
    ensures Simulated(a, Cont(a, next, Drop(a.stack, 1) + [CdLoad(c.cd, Top(a.stack, 0))], 3).list, s,
                      Go(s, next, Drop(s.stack, 1) + [LoadWord(cd, Top(s.stack, 0))], 3), exact)
  {
    TopMatches(a.stack, s.stack, 0);
    var x, w := CdLoad(c.cd, Top(a.stack, 0)), LoadWord(cd, Top(s.stack, 0));
    PushMatches(a.stack, s.stack, 1, x, w);
    ContCovers(a, s, exact, next, Drop(a.stack, 1) + [x], Drop(s.stack, 1) + [w], 3, 3);
  }

  lemma ExpStep(a: AState, s: State, exact: bool, next: nat)
    requires Gamma(a, s, exact) && |s.stack| >= 2
    ensures var x, e := Top(a.stack, 0), Top(a.stack, 1);
      Simulated(a, Cont(a, next, Drop(a.stack, 2) + [if x.U? || e.U? then U else K(PowMod(x.v, e.v))], AExpCost(e)).list,
                s, Go(s, next, Drop(s.stack, 2) + [PowMod(Top(s.stack, 0), Top(s.stack, 1))], ExpCost(Top(s.stack, 1))),
                exact)
  {
    var x, e := Top(a.stack, 0), Top(a.stack, 1);
    TopMatches(a.stack, s.stack, 0);
    TopMatches(a.stack, s.stack, 1);
    ExpPriced(e, Top(s.stack, 1));
    var y, w := if x.U? || e.U? then U else K(PowMod(x.v, e.v)), PowMod(Top(s.stack, 0), Top(s.stack, 1));
    PushMatches(a.stack, s.stack, 2, y, w);
    ContCovers(a, s, exact, next, Drop(a.stack, 2) + [y], Drop(s.stack, 2) + [w], AExpCost(e), ExpCost(Top(s.stack, 1)));
  }

  lemma AluStep(a: AState, s: State, exact: bool, next: nat, f: AluOp)
    requires Gamma(a, s, exact) && |s.stack| >= Arity(f)
    ensures Simulated(a, Cont(a, next, Drop(a.stack, Arity(f)) + [AluResult(f, Popped(a.stack, Arity(f)))], Cost(f)).list,
                      s, Go(s, next, Drop(s.stack, Arity(f)) + [Eval(f, Popped(s.stack, Arity(f)))], Cost(f)), exact)
  {
    var x, w := Popped(a.stack, Arity(f)), Popped(s.stack, Arity(f));
    forall k | 0 <= k < Arity(f) ensures Matches(x[k], w[k]) { TopMatches(a.stack, s.stack, k); }
    AluMatches(f, x, w);
    PushMatches(a.stack, s.stack, Arity(f), AluResult(f, x), Eval(f, w));
    ContCovers(a, s, exact, next, Drop(a.stack, Arity(f)) + [AluResult(f, x)],
               Drop(s.stack, Arity(f)) + [Eval(f, w)], Cost(f), Cost(f));
  }

  /** One-step simulation: every concrete instruction is covered by an abstract successor that charges no less. */
  lemma StepSimulated(c: Context, cd: seq<byte>, hash: Hash, sites: set<nat>, a: AState, s: State, exact: bool)
    requires Gamma(a, s, exact) && Instantiates(c.cd, cd)
    requires StepAdmissible(c, cd, sites, exact, s)
    requires UnknownAddress(c, a) ==> a.pc in sites
    requires AStep(c, a).Succs?
    ensures Simulated(a, AStep(c, a).list, s, Step(c.prog, cd, hash, s), exact)
  {
    var i := c.prog.ops[s.pc];
    match i.op {
      case Push(_) | Push0 | PushZero => PushStep(c, cd, hash, a, s, exact);
      case CallDataSize | CodeSize => SizeStep(c, cd, hash, a, s, exact);
      case MSize => MemorySizeStep(c, cd, hash, a, s);
      case Dup(_) | Swap(_) | Pop | JumpDest => MoveStep(c, cd, hash, a, s, exact);
      case Jump | JumpI => JumpStep(c, cd, hash, a, s, exact);
      case Stop | Return => EndStep(c, cd, hash, a, s, exact);
      case MLoad => LoadStep(c, sites, a, s, exact, cd, i);
      case MStore | MStore8 => StoreStep(c, sites, a, s, exact, cd, i);
      case CallDataCopy | CodeCopy | MCopy => CopyStep(c, cd, a, s, exact, i);
      case Keccak => HashStep(c, cd, hash, a, s, exact);
      case CallDataLoad => if |s.stack| >= 1 { LoadCallDataStep(c, cd, a, s, exact, i.next); }
      case Exp => if |s.stack| >= 2 { ExpStep(a, s, exact, i.next); }
      case Alu(f) => if |s.stack| >= Arity(f) { AluStep(a, s, exact, i.next, f); }
      case Abort | Environment | Unsupported =>
    }
  }
}
