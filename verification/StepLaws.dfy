/**
 * What every instruction takes, leaves and costs, apart from how the interpreters compute it: the operands and results of
 * each, the fee groups of the Yellow Paper (Appendix G), and when it raises (pure_module_bound.py, concrete_oracle.py).
 */
module StepLaws {
  import opened Binary
  import opened Bytes
  import opened Evm
  import opened ConcreteOracle
  import opened ModuleBound
  import opened Simulation
  import opened Precision

  // ---- The instruction table ------------------------------------------------------------------------------------------

  /** The entries an instruction takes off the stack; DUP and SWAP only reach down to theirs. */
  function Taken(op: Op): nat {
    match op
    case Pop | Jump | CallDataLoad | MLoad => 1
    case JumpI | Return | MStore | MStore8 | Keccak | Exp => 2
    case CallDataCopy | CodeCopy | MCopy => 3
    case Alu(f) => if f.IsZero? || f.Not? then 1 else if f.AddMod? || f.MulMod? then 3 else 2
    case _ => 0
  }

  /** The entries it reaches. */
  function Reached(op: Op): nat {
    match op
    case Dup(n) => n
    case Swap(n) => n + 1
    case _ => Taken(op)
  }

  predicate LeavesOne(op: Op) {
    || op.Push? || op.Push0? || op.PushZero? || op.CallDataSize? || op.CodeSize? || op.MSize? || op.Environment?
    || op.CallDataLoad? || op.MLoad? || op.Keccak? || op.Exp? || op.Alu?
  }

  predicate Ends(op: Op) { op.Stop? || op.Return? || op.Abort? }

  /** W_zero to W_high, with the static parts of the copies, hashes and powers. */
  function Fee(op: Op): nat {
    if Ends(op) then 0
    else if op.JumpDest? then 1
    else if op.Push0? || op.Pop? || op.PushZero? || op.CallDataSize? || op.CodeSize? || op.MSize? || op.Environment? then 2
    else if op.Alu? && (op.f.AddMod? || op.f.MulMod?) then 8
    else if op.Alu? && (op.f.Mul? || op.f.Div? || op.f.SDiv? || op.f.Mod? || op.f.SMod? || op.f.SignExtend?) then 5
    else if op.Jump? then 8
    else if op.JumpI? || op.Exp? then 10
    else if op.Keccak? then 30
    else 3
  }

  function WordsOf(n: nat): nat { (n + 31) / 32 }

  /** What it pays by the word, or EXP by the byte, for its operands `y` and `z`, the second and third from the top. */
  function Metered(op: Op, y: nat, z: nat): nat {
    match op
    case CallDataCopy | CodeCopy | MCopy => 3 * WordsOf(z)
    case Keccak => 6 * WordsOf(y)
    case Exp => ExpCost(y) - 10
    case _ => 0
  }

  /** The memory words its accesses need: none when nothing is accessed. */
  function Extent(op: Op, x: nat, y: nat, z: nat): nat {
    match op
    case MLoad | MStore => WordsOf(x + 32)
    case MStore8 => WordsOf(x + 1)
    case Return | Keccak => if y == 0 then 0 else WordsOf(x + y)
    case CallDataCopy | CodeCopy => if z == 0 then 0 else WordsOf(x + z)
    case MCopy => if z == 0 then 0 else WordsOf(Max(x, y) + z)
    case _ => 0
  }

  /** Entry by entry: what stays where it is, what DUP copies and SWAP exchanges. */
  ghost predicate Arranges<T>(op: Op, st: seq<T>, after: seq<T>) {
    match op
    case Dup(n) => n >= 1 && |after| == |st| + 1 > n && Drop(after, 1) == st && Top(after, 0) == Top(after, n)
    case Swap(n) =>
      && |after| == |st| > n && Top(after, 0) == Top(st, n) && Top(after, n) == Top(st, 0)
      && forall i :: 0 < i < |st| && i != n ==> Top(after, i) == Top(st, i)
    case _ =>
      var left := if LeavesOne(op) then 1 else 0;
      Taken(op) <= |st| && |after| == |st| - Taken(op) + left && Drop(after, left) == Drop(st, Taken(op))
  }

  /** The usual arrangement: operands off, one result on or none. */
  lemma ArrangesResult<T>(op: Op, st: seq<T>, v: T)
    requires !op.Dup? && !op.Swap? && Taken(op) <= |st|
    ensures LeavesOne(op) ==> Arranges(op, st, Drop(st, Taken(op)) + [v])
    ensures !LeavesOne(op) ==> Arranges(op, st, Drop(st, Taken(op)))
  {
  }

  lemma DropNone<T>(st: seq<T>)
    ensures Drop(st, 0) == st
  {
  }

  // ---- The concrete interpreter --------------------------------------------------------------------------------------

  /** The i-th entry from the top, zero where there is none. */
  function Operand(st: seq<Word>, i: nat): Word { if i < |st| then Top(st, i) else 0 }

  function GasOf(o: Outcome): nat
    requires o.Next? || o.Done?
  {
    if o.Next? then o.s.gas else o.gas
  }

  lemma MoveArranged(p: Program, cd: seq<byte>, hash: Hash, s: State)
    requires s.pc in p.ops && Step(p, cd, hash, s).Next? && (p.ops[s.pc].op.Dup? || p.ops[s.pc].op.Swap?)
    ensures Arranges(p.ops[s.pc].op, s.stack, Step(p, cd, hash, s).s.stack)
  {
  }

  /** DUP copies, SWAP exchanges; any other instruction takes its operands and leaves its result, or none. */
  lemma Arranged(p: Program, cd: seq<byte>, hash: Hash, s: State)
    requires s.pc in p.ops && Step(p, cd, hash, s).Next?
    ensures Arranges(p.ops[s.pc].op, s.stack, Step(p, cd, hash, s).s.stack)
  {
    hide Arranges, Eval, PowMod, ExpCost, WordOf, LoadWord, Expanded, ExpansionGas, Spliced, CopyResult, CopyGrowthGas, JumpDests;
    var op := p.ops[s.pc].op;
    if op.Dup? || op.Swap? {
      MoveArranged(p, cd, hash, s);
    } else {
      DropNone(s.stack);
      ArrangesResult(op, s.stack, Operand(Step(p, cd, hash, s).s.stack, 0));
    }
  }

  lemma GrowthAdds(a: nat, b: nat, c: nat)
    ensures GrowthCost(a, b) + GrowthCost(Max(a, b), c) == GrowthCost(a, Max(b, c))
  {
    hide MemCost;
  }

  lemma NeededFurther(x: nat, y: nat, z: nat)
    ensures Max(Needed(x, z), Needed(y, z)) == Needed(Max(x, y), z)
  {
  }

  lemma CopyPriced(p: Program, cd: seq<byte>, s: State, i: Instr, x: nat, y: nat, z: nat)
    requires (i.op.CallDataCopy? || i.op.CodeCopy? || i.op.MCopy?) && |s.mem| % 32 == 0
    ensures CopyGrowthGas(s, i.op, x, y, z) == GrowthCost(Words(s.mem), Extent(i.op, x, y, z))
  {
    hide Expanded, MemCost;
    if z > 0 && i.op.MCopy? {
      GrowthAdds(Words(s.mem), Needed(x, z), Needed(y, z));
      NeededFurther(x, y, z);
    }
  }

  lemma AccessPriced(p: Program, cd: seq<byte>, hash: Hash, s: State)
    requires s.pc in p.ops && |s.mem| % 32 == 0
    requires var op, o := p.ops[s.pc].op, Step(p, cd, hash, s);
      (op.MLoad? || op.MStore? || op.MStore8? || op.CallDataCopy? || op.CodeCopy? || op.MCopy? || op.Keccak? || op.Return?) && (o.Next? || o.Done?)
    ensures var op, x, y, z := p.ops[s.pc].op, Operand(s.stack, 0), Operand(s.stack, 1), Operand(s.stack, 2);
      GasOf(Step(p, cd, hash, s)) - s.gas == Fee(op) + Metered(op, y, z) + GrowthCost(Words(s.mem), Extent(op, x, y, z))
  {
    hide Expanded, Spliced, CopyResult, CopyGrowthGas, WordOf, ToBytes, MemCost;
    var i := p.ops[s.pc];
    if i.op.CallDataCopy? || i.op.CodeCopy? || i.op.MCopy? {
      CopyPriced(p, cd, s, i, Operand(s.stack, 0), Operand(s.stack, 1), Operand(s.stack, 2));
    }
  }

  /** A step is charged its fee, what it meters, and the growth of memory to what it accesses. */
  lemma Priced(p: Program, cd: seq<byte>, hash: Hash, s: State)
    requires s.pc in p.ops && |s.mem| % 32 == 0
    requires var o := Step(p, cd, hash, s); o.Next? || o.Done?
    ensures var op, x, y, z := p.ops[s.pc].op, Operand(s.stack, 0), Operand(s.stack, 1), Operand(s.stack, 2);
      GasOf(Step(p, cd, hash, s)) - s.gas == Fee(op) + Metered(op, y, z) + GrowthCost(Words(s.mem), Extent(op, x, y, z))
  {
    hide Eval, PowMod, BitLength, LoadWord;
    var op := p.ops[s.pc].op;
    if op.MLoad? || op.MStore? || op.MStore8? || op.CallDataCopy? || op.CodeCopy? || op.MCopy? || op.Keccak? || op.Return? {
      AccessPriced(p, cd, hash, s);
    }
  }

  /** It stays on the code, except that a jump, unconditional or on a condition other than zero, goes where its operand says. */
  lemma GoesTo(p: Program, cd: seq<byte>, hash: Hash, s: State)
    requires s.pc in p.ops && Step(p, cd, hash, s).Next?
    ensures var i := p.ops[s.pc];
      Step(p, cd, hash, s).s.pc == if i.op.Jump? || (i.op.JumpI? && Operand(s.stack, 1) != 0) then Operand(s.stack, 0) else i.next
  {
    hide Eval, PowMod, ExpCost, WordOf, LoadWord, Expanded, ExpansionGas, Spliced, CopyResult, CopyGrowthGas;
  }

  /** The word left by what reads neither memory nor calldata. */
  lemma Leaves(p: Program, cd: seq<byte>, hash: Hash, s: State)
    requires s.pc in p.ops && Step(p, cd, hash, s).Next?
    ensures var op, x, y, w := p.ops[s.pc].op, Operand(s.stack, 0), Operand(s.stack, 1), Operand(Step(p, cd, hash, s).s.stack, 0);
      match op
      case Push(v) => w == v
      case Push0 | PushZero => w == 0
      case CallDataSize => w == |cd|
      case CodeSize => w == |p.code|
      case MSize => w == |s.mem|
      case Exp => w == PowMod(x, y)
      case Alu(f) => forall a: seq<Word> :: |a| == Arity(f) && (forall i :: 0 <= i < |a| ==> a[i] == Operand(s.stack, i)) ==> w == Eval(f, a)
      case _ => true
  {
    hide Eval, PowMod, ExpCost, WordOf, LoadWord, Expanded, ExpansionGas, Spliced, CopyResult, CopyGrowthGas;
    var op := p.ops[s.pc].op;
    if op.Alu? {
      forall a: seq<Word> | |a| == Arity(op.f) && (forall i :: 0 <= i < |a| ==> a[i] == Operand(s.stack, i))
        ensures a == Popped(s.stack, Arity(op.f)) {
      }
    }
  }

  /** No word holds the size it would push. */
  predicate TooLarge(op: Op, data: nat, code: nat, mem: nat) {
    (op.CallDataSize? && data >= TWO_256) || (op.CodeSize? && code >= TWO_256) || (op.MSize? && mem >= TWO_256)
  }

  /** It raises exactly outside the code, on a short stack, on a jump to no JUMPDEST, and where it has no price. */
  lemma RaisesIff(p: Program, cd: seq<byte>, hash: Hash, s: State)
    requires ValidProgram(p)
    ensures Step(p, cd, hash, s).Raised? <==>
      || s.pc !in p.ops
      || var op, x, y := p.ops[s.pc].op, Operand(s.stack, 0), Operand(s.stack, 1);
         || |s.stack| < Reached(op) || op.Unsupported? || op.Environment? || TooLarge(op, |cd|, |p.code|, |s.mem|)
         || ((op.Jump? || (op.JumpI? && y != 0)) && x !in JumpDests(p))
  {
    hide Eval, PowMod, ExpCost, WordOf, LoadWord, Expanded, ExpansionGas, Spliced, CopyResult, CopyGrowthGas, JumpDests;
  }

  /** It ends exactly at STOP and RETURN, and reverts exactly at REVERT and INVALID. */
  lemma EndsIff(p: Program, cd: seq<byte>, hash: Hash, s: State)
    requires s.pc in p.ops
    ensures var op, o := p.ops[s.pc].op, Step(p, cd, hash, s);
      && (o.Done? <==> op.Stop? || (op.Return? && |s.stack| >= 2))
      && (o.Reverted? <==> op.Abort?)
  {
    hide Eval, PowMod, ExpCost, WordOf, LoadWord, Expanded, ExpansionGas, Spliced, CopyResult, CopyGrowthGas, JumpDests;
  }

  // ---- The abstract interpreter --------------------------------------------------------------------------------------

  function AOperand(st: seq<AVal>, i: nat): AVal { if i < |st| then Top(st, i) else K(0) }

  /** A known operand; zero stands in for an unknown one. */
  function WordAt(st: seq<AVal>, i: nat): Word { if AOperand(st, i).K? then AOperand(st, i).v else 0 }

  function SizeAfter(x: Succ): nat
    requires !x.Rev?
  {
    if x.To? then x.s.msz else x.msz
  }

  function AMetered(op: Op, st: seq<AVal>): nat {
    if op.Exp? && AOperand(st, 1).U? then 50 * 32 else Metered(op, WordAt(st, 1), WordAt(st, 2))
  }

  /** An access at an unknown address is taken to stay inside memory. */
  function AExtent(c: Context, a: AState): nat
    requires a.pc in c.prog.ops
  {
    if UnknownAddress(c, a) then 0 else Extent(c.prog.ops[a.pc].op, WordAt(a.stack, 0), WordAt(a.stack, 1), WordAt(a.stack, 2))
  }

  predicate Accesses(op: Op) {
    op.MLoad? || op.MStore? || op.MStore8? || op.CallDataCopy? || op.CodeCopy? || op.MCopy? || op.Keccak? || op.Return?
  }

  /** A successor has the stack, the size and the charge its instruction gives it. */
  ghost predicate AsSaid(c: Context, a: AState, x: Succ)
    requires a.pc in c.prog.ops
  {
    var op := c.prog.ops[a.pc].op;
    && (x.To? ==> Arranges(op, a.stack, x.s.stack))
    && (!x.Rev? ==>
          && SizeAfter(x) == Max(a.msz, AExtent(c, a))
          && x.g == Fee(op) + AMetered(op, a.stack) + GrowthCost(a.msz, SizeAfter(x)))
  }

  lemma MemorySaid(c: Context, a: AState)
    requires a.pc in c.prog.ops && var op := c.prog.ops[a.pc].op; op.MLoad? || op.MStore? || op.MStore8?
    ensures AStep(c, a).Succs? ==> |AStep(c, a).list| == 1 && AsSaid(c, a, AStep(c, a).list[0])
  {
    hide Lookup, Havocked, Stored, MemCost, Arranges;
    if AStep(c, a).Succs? {
      ArrangesResult(c.prog.ops[a.pc].op, a.stack, AOperand(AStep(c, a).list[0].s.stack, 0));
    }
  }

  lemma ExtentIs(op: Op, st: seq<AVal>, msz: nat)
    requires (op.CallDataCopy? || op.CodeCopy? || op.MCopy?) && |st| >= 3 && Top(st, 2).K?
    ensures var e := CopyExtent(op, Top(st, 0), Top(st, 1), Top(st, 2), msz);
      e.Some? ==>
        && e.value.0 == Max(msz, Extent(op, WordAt(st, 0), WordAt(st, 1), WordAt(st, 2)))
        && e.value.1 == GrowthCost(msz, e.value.0)
  {
    hide MemCost;
    var x, y, z := WordAt(st, 0), WordAt(st, 1), WordAt(st, 2);
    GrowthAdds(msz, Needed(x, z), Needed(y, z));
    NeededFurther(x, y, z);
  }

  lemma CopySaid(c: Context, a: AState)
    requires a.pc in c.prog.ops && var op := c.prog.ops[a.pc].op; op.CallDataCopy? || op.CodeCopy? || op.MCopy?
    ensures AStep(c, a).Succs? ==> |AStep(c, a).list| == 1 && AsSaid(c, a, AStep(c, a).list[0])
  {
    hide CopyMem, CopyExtent, GrowthCost, Extent;
    if |a.stack| >= 3 && Top(a.stack, 2).K? {
      ExtentIs(c.prog.ops[a.pc].op, a.stack, a.msz);
    }
  }

  lemma SpanIs(op: Op, st: seq<AVal>, msz: nat)
    requires (op.Keccak? || op.Return?) && |st| >= 2
    ensures var e := Expand(Top(st, 0), Top(st, 1), msz);
      e.Some? ==>
        && e.value.0 == Max(msz, Extent(op, WordAt(st, 0), WordAt(st, 1), WordAt(st, 2)))
        && e.value.1 == GrowthCost(msz, e.value.0)
  {
    hide MemCost;
  }

  lemma HashSaid(c: Context, a: AState)
    requires a.pc in c.prog.ops && var op := c.prog.ops[a.pc].op; op.Keccak? || op.Return?
    ensures AStep(c, a).Succs? ==> |AStep(c, a).list| == 1 && AsSaid(c, a, AStep(c, a).list[0])
  {
    hide GrowthCost, Expand, Extent, Arranges;
    if AStep(c, a).Succs? {
      SpanIs(c.prog.ops[a.pc].op, a.stack, a.msz);
      ArrangesResult(c.prog.ops[a.pc].op, a.stack, U);
    }
  }

  lemma NoGrowth(c: Context, a: AState)
    requires a.pc in c.prog.ops && !Accesses(c.prog.ops[a.pc].op)
    ensures AExtent(c, a) == 0 == GrowthCost(a.msz, a.msz)
  {
  }

  lemma JumpISaid(c: Context, a: AState, k: nat)
    requires a.pc in c.prog.ops && c.prog.ops[a.pc].op.JumpI? && AStep(c, a).Succs? && k < |AStep(c, a).list|
    ensures AsSaid(c, a, AStep(c, a).list[k])
  {
    hide JumpDests, AExtent, GrowthCost;
    NoGrowth(c, a);
  }

  lemma AluSaid(c: Context, a: AState)
    requires a.pc in c.prog.ops && var op := c.prog.ops[a.pc].op; op.Alu? || op.Exp? || op.CallDataLoad?
    ensures AStep(c, a).Succs? ==> |AStep(c, a).list| == 1 && AsSaid(c, a, AStep(c, a).list[0])
  {
    hide AExtent, GrowthCost, AluResult, PowMod, BitLength, CdLoad;
    NoGrowth(c, a);
  }

  lemma MoveSaid(c: Context, a: AState)
    requires a.pc in c.prog.ops && (c.prog.ops[a.pc].op.Dup? || c.prog.ops[a.pc].op.Swap?)
    ensures AStep(c, a).Succs? ==> |AStep(c, a).list| == 1 && AsSaid(c, a, AStep(c, a).list[0])
  {
    hide AExtent, GrowthCost;
    NoGrowth(c, a);
  }

  lemma PushSaid(c: Context, a: AState)
    requires a.pc in c.prog.ops && LeavesOne(c.prog.ops[a.pc].op) && Taken(c.prog.ops[a.pc].op) == 0
    ensures AStep(c, a).Succs? ==> |AStep(c, a).list| == 1 && AsSaid(c, a, AStep(c, a).list[0])
  {
    hide AExtent, GrowthCost, Arranges;
    NoGrowth(c, a);
    if AStep(c, a).Succs? {
      DropNone(a.stack);
      ArrangesResult(c.prog.ops[a.pc].op, a.stack, AOperand(AStep(c, a).list[0].s.stack, 0));
    }
  }

  lemma FlowSaid(c: Context, a: AState)
    requires a.pc in c.prog.ops
    requires var op := c.prog.ops[a.pc].op; op.JumpDest? || op.Jump? || op.Pop? || op.Stop? || op.Abort? || op.Unsupported?
    ensures AStep(c, a).Succs? ==> |AStep(c, a).list| == 1 && AsSaid(c, a, AStep(c, a).list[0])
  {
    hide JumpDests, AExtent, GrowthCost;
    NoGrowth(c, a);
  }

  /** The same table and the same fees, whatever is known: only an unknown exponent counts as 32 bytes. */
  lemma SuccessorsAreAsSaid(c: Context, a: AState, x: Succ)
    requires a.pc in c.prog.ops && AStep(c, a).Succs? && x in AStep(c, a).list
    ensures AsSaid(c, a, x)
  {
    hide AStep, AsSaid;
    var op := c.prog.ops[a.pc].op;
    var k :| 0 <= k < |AStep(c, a).list| && AStep(c, a).list[k] == x;
    if op.JumpI? {
      JumpISaid(c, a, k);
    } else if op.Keccak? || op.Return? {
      HashSaid(c, a);
    } else if op.MLoad? || op.MStore? || op.MStore8? {
      MemorySaid(c, a);
    } else if Accesses(op) {
      CopySaid(c, a);
    } else if op.Alu? || op.Exp? || op.CallDataLoad? {
      AluSaid(c, a);
    } else if LeavesOne(op) {
      PushSaid(c, a);
    } else if op.Dup? || op.Swap? {
      MoveSaid(c, a);
    } else {
      FlowSaid(c, a);
    }
  }

  /** The extent of an access cannot be priced: it is not empty, and not known. */
  predicate ExtentUnknown(op: Op, st: seq<AVal>) {
    var x, y, z := AOperand(st, 0), AOperand(st, 1), AOperand(st, 2);
    || ((op.Keccak? || op.Return?) && y != K(0) && (x.U? || y.U?))
    || ((op.CallDataCopy? || op.CodeCopy? || op.MCopy?) && z != K(0) && (x.U? || z.U? || (op.MCopy? && y.U?)))
  }

  /** It gives up exactly where the concrete one raises, and on what must be known: jump targets and extents. */
  lemma FailsIff(c: Context, a: AState)
    requires ValidProgram(c.prog)
    ensures AStep(c, a).Fails? <==>
      || a.pc !in c.prog.ops
      || var op, x := c.prog.ops[a.pc].op, AOperand(a.stack, 0);
         || |a.stack| < Reached(op) || op.Unsupported? || TooLarge(op, c.cd.size, |c.prog.code|, 32 * a.msz)
         || ((op.Jump? || op.JumpI?) && (x.U? || x.v !in JumpDests(c.prog)))
         || ExtentUnknown(op, a.stack)
  {
    hide JumpDests, MemCost, AluResult, PowMod, ExpCost, CdLoad, Lookup, Havocked, Stored, CopyMem, GrowthCost;
  }

  predicate Writes(op: Op) { op.MStore? || op.MStore8? || op.CallDataCopy? || op.CodeCopy? || op.MCopy? }

  /** A successor goes on at `pc`; what does not write leaves memory as it is. */
  predicate Onward(c: Context, a: AState, x: Succ, pc: nat)
    requires a.pc in c.prog.ops
  {
    x.To? ==> x.s.pc == pc && (!Writes(c.prog.ops[a.pc].op) ==> x.s.mem == a.mem && x.s.hv == a.hv)
  }

  lemma AJumps(c: Context, a: AState, x: Succ)
    requires a.pc in c.prog.ops && (c.prog.ops[a.pc].op.Jump? || c.prog.ops[a.pc].op.JumpI?)
    requires AStep(c, a).Succs? && x in AStep(c, a).list
    ensures var i, t, cond := c.prog.ops[a.pc], WordAt(a.stack, 0), AOperand(a.stack, 1);
      Onward(c, a, x, if i.op.Jump? || (cond != K(0) && (cond.K? || x == AStep(c, a).list[0])) then t else i.next)
  {
    hide JumpDests;
  }

  lemma AccessGoesOn(c: Context, a: AState)
    requires a.pc in c.prog.ops && Accesses(c.prog.ops[a.pc].op) && AStep(c, a).Succs?
    ensures |AStep(c, a).list| == 1 && Onward(c, a, AStep(c, a).list[0], c.prog.ops[a.pc].next)
  {
    hide Lookup, Havocked, Stored, CopyMem, CopyExtent, Needed, GrowthCost;
  }

  lemma ComputesOnward(c: Context, a: AState)
    requires a.pc in c.prog.ops && AStep(c, a).Succs?
    requires var op := c.prog.ops[a.pc].op; op.Alu? || op.Exp? || op.CallDataLoad? || op.Dup? || op.Swap? || op.Pop?
    ensures |AStep(c, a).list| == 1 && Onward(c, a, AStep(c, a).list[0], c.prog.ops[a.pc].next)
  {
    hide AluResult, PowMod, ExpCost, CdLoad;
  }

  lemma GoesOn(c: Context, a: AState)
    requires a.pc in c.prog.ops && AStep(c, a).Succs?
    requires var op := c.prog.ops[a.pc].op; !Accesses(op) && !op.Jump? && !op.JumpI?
    ensures |AStep(c, a).list| == 1 && Onward(c, a, AStep(c, a).list[0], c.prog.ops[a.pc].next)
  {
    hide AluResult, PowMod, ExpCost, CdLoad, Arity, Cost;
    var op := c.prog.ops[a.pc].op;
    if op.Alu? || op.Exp? || op.CallDataLoad? || op.Dup? || op.Swap? || op.Pop? {
      ComputesOnward(c, a);
    }
  }

  /** Where successors go on: at the jump's target, past it, or for a condition that is not known at either. */
  lemma AGoesTo(c: Context, a: AState, x: Succ)
    requires a.pc in c.prog.ops && AStep(c, a).Succs? && x in AStep(c, a).list
    ensures var i, t, cond := c.prog.ops[a.pc], WordAt(a.stack, 0), AOperand(a.stack, 1);
      Onward(c, a, x, if i.op.Jump? || (i.op.JumpI? && cond != K(0) && (cond.K? || x == AStep(c, a).list[0])) then t else i.next)
  {
    hide AStep, Onward;
    var op := c.prog.ops[a.pc].op;
    if op.Jump? || op.JumpI? {
      AJumps(c, a, x);
    } else if Accesses(op) {
      AccessGoesOn(c, a);
    } else {
      GoesOn(c, a);
    }
  }

  predicate Overlaps(w: nat, at: nat, n: nat) { w < at + n && at < w + 32 }

  lemma CoveredIff(dst: nat, n: nat, w: nat)
    requires w % 32 == 0
    ensures w in Covered(dst, n) <==> Overlaps(w, dst, n)
  {
    var k, q := w / 32, dst / 32;
    assert w == 32 * k && dst == 32 * q + dst % 32;
  }

  /** The word a copy to `dst` leaves at an aligned address it overlaps. */
  function CopyFound(c: Context, op: Op, dst: nat, src: AVal, n: nat, w: nat): AVal {
    if ExactCopy(op, dst, src, n) && w >= dst then CopiedVal(c, dst, src.v, w) else U
  }

  /** What a load finds at the aligned address `w` after an instruction whose topmost operands are `x`, `y` and `z`. */
  function FoundAt(c: Context, a: AState, w: nat): AVal
    requires a.pc in c.prog.ops
  {
    var op, x, y, n := c.prog.ops[a.pc].op, AOperand(a.stack, 0), AOperand(a.stack, 1), WordAt(a.stack, 2);
    var before := Lookup(a.mem, a.hv, w);
    if !Writes(op) then before
    else if x.U? then (if w < 0x80 then before else U)
    else if op.MStore? && x.v % 32 == 0 && w == x.v then y
    else if op.MStore? || op.MStore8? then (if Overlaps(w, x.v, if op.MStore? then 32 else 1) then U else before)
    else if Overlaps(w, x.v, n) then CopyFound(c, op, x.v, y, n, w)
    else before
  }

  lemma StoreFound(c: Context, a: AState, x: Succ, w: nat)
    requires a.pc in c.prog.ops && (c.prog.ops[a.pc].op.MStore? || c.prog.ops[a.pc].op.MStore8?) && w % 32 == 0
    requires AStep(c, a).Succs? && x in AStep(c, a).list && x.To?
    ensures Lookup(x.s.mem, x.s.hv, w) == FoundAt(c, a, w)
  {
    hide Lookup, Havocked, Stored, Needed, GrowthCost;
    var op, at := c.prog.ops[a.pc].op, Top(a.stack, 0);
    if at.U? {
      HavockedLookup(a.mem, a.hv, w);
    } else {
      StoredLookup(a.mem, a.hv, at.v, Top(a.stack, 1), op.MStore?, w);
    }
  }

  lemma CopyLeft(c: Context, a: AState, x: Succ, w: nat)
    requires a.pc in c.prog.ops && Writes(c.prog.ops[a.pc].op) && !c.prog.ops[a.pc].op.MStore? && !c.prog.ops[a.pc].op.MStore8?
    requires AStep(c, a).Succs? && x in AStep(c, a).list && x.To? && w % 32 == 0
    ensures Lookup(x.s.mem, x.s.hv, w) == FoundAt(c, a, w)
  {
    hide Lookup, Havocked, Copied, CopyExtent, CopiedVal;
    var op, dst, src, n := c.prog.ops[a.pc].op, Top(a.stack, 0), Top(a.stack, 1), WordAt(a.stack, 2);
    if dst.U? {
      HavockedLookup(a.mem, a.hv, w);
    } else {
      CopiedLookup(c, op, a.mem, a.hv, dst.v, src, n, w);
      CoveredIff(dst.v, n, w);
    }
  }

  lemma NotWritten(c: Context, a: AState, w: nat)
    requires a.pc in c.prog.ops && !Writes(c.prog.ops[a.pc].op)
    ensures FoundAt(c, a, w) == Lookup(a.mem, a.hv, w)
  {
  }

  lemma HavocsIff(c: Context, a: AState, x: Succ)
    requires a.pc in c.prog.ops && Writes(c.prog.ops[a.pc].op) && AStep(c, a).Succs? && x in AStep(c, a).list && x.To?
    ensures x.s.hv <==> a.hv || AOperand(a.stack, 0).U?
  {
    hide Lookup, Needed, GrowthCost, Havocked, Stored, CopyMem, CopyExtent;
  }

  /** What is known of memory afterwards, word by word, whatever else is unknown. */
  lemma FoundAfter(c: Context, a: AState, x: Succ, w: nat)
    requires a.pc in c.prog.ops && AStep(c, a).Succs? && x in AStep(c, a).list && x.To? && w % 32 == 0
    ensures Lookup(x.s.mem, x.s.hv, w) == FoundAt(c, a, w)
    ensures x.s.hv <==> a.hv || (Writes(c.prog.ops[a.pc].op) && AOperand(a.stack, 0).U?)
  {
    hide AStep, Lookup, FoundAt;
    var op := c.prog.ops[a.pc].op;
    if !Writes(op) {
      AGoesTo(c, a, x);
      NotWritten(c, a, w);
    } else {
      HavocsIff(c, a, x);
      if op.MStore? || op.MStore8? {
        StoreFound(c, a, x, w);
      } else {
        CopyLeft(c, a, x, w);
      }
    }
  }

  /** The operands decide the result: all are known, or a known one makes it zero whatever the others. */
  predicate Decided(f: AluOp, x: AVal, y: AVal, z: AVal) {
    || (x.K? && (y.K? || f.IsZero? || f.Not?) && (z.K? || !(f.AddMod? || f.MulMod?)))
    || ((f.Mul? || f.And?) && (x == K(0) || y == K(0)))
    || ((f.Shl? || f.Shr?) && x.K? && x.v >= 256)
  }

  /** Which results are known, from what is known of the operands, calldata and memory. */
  predicate ResultKnown(c: Context, a: AState)
    requires a.pc in c.prog.ops
  {
    var x, y, z := AOperand(a.stack, 0), AOperand(a.stack, 1), AOperand(a.stack, 2);
    match c.prog.ops[a.pc].op
    case Environment | Keccak => false
    case CallDataLoad => x.K? && KnownCalldata(c.cd, x.v)
    case MLoad => x.K? && x.v % 32 == 0 && (if x.v in a.mem then a.mem[x.v].K? else !a.hv || x.v < 0x80)
    case Exp => x.K? && y.K?
    case Alu(f) => Decided(f, x, y, z)
    case _ => true
  }

  lemma AluDecided(f: AluOp, st: seq<AVal>)
    requires |st| >= Arity(f)
    ensures AluResult(f, Popped(st, Arity(f))).K? <==> Decided(f, AOperand(st, 0), AOperand(st, 1), AOperand(st, 2))
  {
    hide Eval;
    AluKnownIff(f, Popped(st, Arity(f)));
  }

  /** A result is known exactly then. That it is the right one is `StepSimulated`. */
  lemma ResultKnownIff(c: Context, a: AState, x: Succ)
    requires a.pc in c.prog.ops && LeavesOne(c.prog.ops[a.pc].op) && AStep(c, a).Succs? && x in AStep(c, a).list && x.To?
    ensures AOperand(x.s.stack, 0).K? <==> ResultKnown(c, a)
  {
    hide Eval, AluResult, PowMod, ExpCost, SelectorWord, Lookup, Needed, GrowthCost, Decided;
    var op := c.prog.ops[a.pc].op;
    if op.Alu? {
      AluDecided(op.f, a.stack);
    } else if op.CallDataLoad? && Top(a.stack, 0).K? {
      CalldataKnownIff(c.cd, Top(a.stack, 0).v);
    } else if op.MLoad? && Top(a.stack, 0).K? {
      MemoryKnownIff(a.mem, a.hv, Top(a.stack, 0).v);
    }
  }
}
