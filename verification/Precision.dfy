/**
 * Where nothing is unknown the abstract interpreter is the concrete one: one successor, the same words, the same price; and
 * a program that meets no unknown word is analysed to exactly the gas of its run.
 */
module Precision {
  import opened Binary
  import opened Bytes
  import opened Evm
  import opened ConcreteOracle
  import opened ModuleBound
  import opened Simulation
  import opened GasBound
  import LP = LongestPath

  // ---- What is known ----------------------------------------------------------------------------------------------

  /** Nothing on the stack is unknown, and no store went to an unknown address. */
  predicate Certain(a: AState) {
    !a.hv && forall i :: 0 <= i < |a.stack| ==> a.stack[i].K?
  }

  /** The word at an aligned address was stored as a known one, or never stored. */
  predicate KnownWord(mem: map<nat, AVal>, a: nat) {
    a in mem ==> mem[a].K?
  }

  /** Past the end, at the selector with a known first word, or at a known word. */
  predicate KnownCalldata(cd: Calldata, off: nat) {
    || off >= cd.size
    || (off == 0 && (4 in cd.words ==> cd.words[4].K?))
    || (4 <= off && (off - 4) % 32 == 0 && off in cd.words && cd.words[off].K?)
  }

  /**
   * The instruction reads known words only, and yields one: hashes and the environment are never known. A jump not taken
   * still has to name a JUMPDEST, or the abstract interpreter raises.
   */
  predicate ReadsKnown(c: Context, a: AState) {
    a.pc in c.prog.ops && Certain(a) ==>
      match c.prog.ops[a.pc].op
      case MLoad => |a.stack| >= 1 ==> Top(a.stack, 0).v % 32 == 0 && KnownWord(a.mem, Top(a.stack, 0).v)
      case CallDataLoad => |a.stack| >= 1 ==> KnownCalldata(c.cd, Top(a.stack, 0).v)
      case JumpI => |a.stack| >= 2 && Top(a.stack, 1) == K(0) ==> Top(a.stack, 0).v in JumpDests(c.prog)
      case Keccak | Environment => false
      case _ => true
  }

  // ---- One instruction --------------------------------------------------------------------------------------------

  /** One successor for each concrete outcome, certain and at the concrete price; none where the concrete one raises. */
  ghost predicate SameShape(r: StepResult, s: State, o: Outcome) {
    match o
    case Next(s2) => r.Succs? && |r.list| == 1 && r.list[0].To? && Certain(r.list[0].s) && s2.gas == s.gas + r.list[0].g
    case Done(gas, _) => r.Succs? && |r.list| == 1 && r.list[0].Ok? && gas == s.gas + r.list[0].g
    case Reverted => r == Succs([Rev])
    case Raised => r.Fails?
  }

  /** And the successor stands for the concrete one, with exactly its memory size. */
  ghost predicate SameStep(r: StepResult, s: State, o: Outcome) {
    SameShape(r, s, o) && (o.Next? ==> Gamma(r.list[0].s, o.s, true))
  }

  lemma CertainTop(a: AState, s: State, i: nat)
    requires Gamma(a, s, true) && Certain(a) && i < |s.stack|
    ensures i < |a.stack| && Top(a.stack, i) == K(Top(s.stack, i))
  {
  }

  lemma CertainContinues(a: AState, next: nat, n: nat, x: AVal)
    requires Certain(a) && n <= |a.stack| && x.K?
    ensures Certain(a.(pc := next, stack := Drop(a.stack, n) + [x])) && Certain(a.(pc := next, stack := Drop(a.stack, n)))
  {
  }

  lemma AluShape(a: AState, s: State, next: nat, f: AluOp)
    requires Gamma(a, s, true) && Certain(a) && Arity(f) <= |s.stack|
    ensures SameShape(Cont(a, next, Drop(a.stack, Arity(f)) + [AluResult(f, Popped(a.stack, Arity(f)))], Cost(f)), s,
                      Go(s, next, Drop(s.stack, Arity(f)) + [Eval(f, Popped(s.stack, Arity(f)))], Cost(f)))
  {
    hide Eval, MemMatches, SizeMatches;
    var x := Popped(a.stack, Arity(f));
    assert U !in x;
    CertainContinues(a, next, Arity(f), AluResult(f, x));
  }

  lemma MoveShape(c: Context, cd: seq<byte>, hash: Hash, a: AState, s: State)
    requires Gamma(a, s, true) && Certain(a) && s.pc in c.prog.ops
    requires var op := c.prog.ops[s.pc].op;
      op.Push? || op.Push0? || op.PushZero? || op.Dup? || op.Swap? || op.Pop? || op.JumpDest? || op.Unsupported? || op.Abort?
    ensures SameShape(AStep(c, a), s, Step(c.prog, cd, hash, s))
  {
    hide MemMatches, SizeMatches;
  }

  lemma SizeShape(c: Context, cd: seq<byte>, hash: Hash, a: AState, s: State)
    requires Gamma(a, s, true) && Certain(a) && c.cd.size == |cd| && s.pc in c.prog.ops
    requires var op := c.prog.ops[s.pc].op; op.CallDataSize? || op.CodeSize? || op.MSize?
    ensures SameShape(AStep(c, a), s, Step(c.prog, cd, hash, s))
  {
    hide MemMatches;
  }

  lemma JumpShape(c: Context, cd: seq<byte>, hash: Hash, a: AState, s: State)
    requires Gamma(a, s, true) && Certain(a) && ReadsKnown(c, a) && s.pc in c.prog.ops
    requires var op := c.prog.ops[s.pc].op; op.Jump? || op.JumpI?
    ensures SameShape(AStep(c, a), s, Step(c.prog, cd, hash, s))
  {
    hide MemMatches, SizeMatches;
    if |s.stack| >= 1 {
      CertainTop(a, s, 0);
    }
    if |s.stack| >= 2 {
      CertainTop(a, s, 1);
    }
  }

  lemma EndShape(c: Context, cd: seq<byte>, hash: Hash, a: AState, s: State)
    requires Gamma(a, s, true) && Certain(a) && s.pc in c.prog.ops
    requires var op := c.prog.ops[s.pc].op; op.Stop? || op.Return?
    ensures SameShape(AStep(c, a), s, Step(c.prog, cd, hash, s))
  {
    hide MemMatches, Expanded, Needed;
    if |s.stack| >= 2 {
      CertainTop(a, s, 0);
      CertainTop(a, s, 1);
    }
  }

  lemma MemoryShape(c: Context, a: AState, s: State, i: Instr)
    requires Gamma(a, s, true) && Certain(a) && ReadsKnown(c, a) && s.pc in c.prog.ops && c.prog.ops[s.pc] == i
    requires i.op.MLoad? || i.op.MStore? || i.op.MStore8?
    ensures SameShape(AStepMemory(a, i), s, StepMemory(c.prog, s, i))
  {
    hide MemMatches, Expanded, Needed, Spliced, Stored, ToBytes, WordOf;
    if |s.stack| >= 1 {
      CertainTop(a, s, 0);
    }
  }

  lemma ExpandIs(msz: nat, mem: seq<byte>, off: Word, len: Word)
    requires SizeMatches(msz, mem, true)
    ensures Expand(K(off), K(len), msz) == Some((Words(Expanded(mem, off, len)), ExpansionGas(mem, off, len)))
    ensures SizeMatches(Words(Expanded(mem, off, len)), Expanded(mem, off, len), true)
  {
  }

  lemma CopyShape(c: Context, cd: seq<byte>, a: AState, s: State, i: Instr)
    requires Gamma(a, s, true) && Certain(a) && s.pc in c.prog.ops && c.prog.ops[s.pc] == i
    requires i.op.CallDataCopy? || i.op.CodeCopy? || i.op.MCopy?
    ensures SameShape(AStepCopy(c, a, i), s, StepCopy(c.prog, cd, s, i))
  {
    hide MemMatches, Expanded, ExpansionGas, Expand, CopyMem, CopyResult;
    if |s.stack| >= 3 {
      CertainTop(a, s, 0);
      CertainTop(a, s, 1);
      CertainTop(a, s, 2);
      var dst, src, ln := Top(s.stack, 0), Top(s.stack, 1), Top(s.stack, 2);
      ExpandIs(a.msz, s.mem, dst, ln);
      var m := Expanded(s.mem, dst, ln);
      ExpandIs(Words(m), m, src, ln);
    }
  }

  lemma ReadShape(c: Context, cd: seq<byte>, hash: Hash, a: AState, s: State)
    requires Gamma(a, s, true) && Certain(a) && ReadsKnown(c, a) && s.pc in c.prog.ops
    requires var op := c.prog.ops[s.pc].op; op.CallDataLoad? || op.Exp?
    ensures SameShape(AStep(c, a), s, Step(c.prog, cd, hash, s))
  {
    hide MemMatches, SizeMatches, PowMod, SelectorWord, LoadWord, ExpCost;
    if |s.stack| >= 1 {
      CertainTop(a, s, 0);
    }
    if |s.stack| >= 2 {
      CertainTop(a, s, 1);
    }
  }

  lemma StepShape(c: Context, cd: seq<byte>, hash: Hash, a: AState, s: State)
    requires Gamma(a, s, true) && Certain(a) && ReadsKnown(c, a) && c.cd.size == |cd|
    ensures SameShape(AStep(c, a), s, Step(c.prog, cd, hash, s))
  {
    if s.pc in c.prog.ops {
      var i := c.prog.ops[s.pc];
      match i.op
      case Push(_) | Push0 | PushZero | Dup(_) | Swap(_) | Pop | JumpDest | Unsupported | Abort => MoveShape(c, cd, hash, a, s);
      case CallDataSize | CodeSize | MSize => SizeShape(c, cd, hash, a, s);
      case Jump | JumpI => JumpShape(c, cd, hash, a, s);
      case Stop | Return => EndShape(c, cd, hash, a, s);
      case MLoad | MStore | MStore8 => MemoryShape(c, a, s, i);
      case CallDataCopy | CodeCopy | MCopy => CopyShape(c, cd, a, s, i);
      case CallDataLoad | Exp => ReadShape(c, cd, hash, a, s);
      case Alu(f) => if |s.stack| >= Arity(f) { AluShape(a, s, i.next, f); }
      case Keccak | Environment => assert false;
    }
  }

  lemma CertainSite(c: Context, a: AState)
    requires Certain(a)
    ensures !UnknownAddress(c, a)
  {
  }

  lemma OneCovers(a: AState, list: seq<Succ>, s: State, o: Outcome)
    requires Simulated(a, list, s, o, true) && |list| == 1 && o.Next?
    ensures list[0].To? && Gamma(list[0].s, o.s, true)
  {
  }

  /**
   * Where nothing the instruction reads is unknown there is exactly one successor: it knows every word on its stack, stands for
   * the concrete one, and costs exactly what the instruction costs.
   */
  lemma PreciseStep(c: Context, cd: seq<byte>, hash: Hash, a: AState, s: State)
    requires Gamma(a, s, true) && Certain(a) && ReadsKnown(c, a) && Instantiates(c.cd, cd)
    requires StepAdmissible(c, cd, {}, true, s)
    ensures SameStep(AStep(c, a), s, Step(c.prog, cd, hash, s))
  {
    hide AStep, Step, ReadsKnown, Gamma, StepAdmissible, Simulated, Certain;
    StepShape(c, cd, hash, a, s);
    if Step(c.prog, cd, hash, s).Next? {
      CertainSite(c, a);
      StepSimulated(c, cd, hash, {}, a, s, true);
      OneCovers(a, AStep(c, a).list, s, Step(c.prog, cd, hash, s));
    }
  }

  // ---- What is not known -------------------------------------------------------------------------------------------

  /** Calldata is known exactly there. */
  lemma CalldataKnownIff(cd: Calldata, off: Word)
    ensures CdLoad(cd, K(off)).K? <==> KnownCalldata(cd, off)
  {
  }

  /** Memory is known exactly where the last store was, or where nothing could have been stored. */
  lemma MemoryKnownIff(mem: map<nat, AVal>, hv: bool, a: nat)
    ensures Lookup(mem, hv, a).K? <==> if a in mem then mem[a].K? else !hv || a < 0x80
    ensures a in mem ==> Lookup(mem, hv, a) == mem[a]
  {
  }

  /** A store through an unknown address forgets the words from 0x80 on and no others. */
  lemma HavockedLookup(mem: map<nat, AVal>, hv: bool, a: nat)
    ensures Lookup(Havocked(mem), true, a) == if a < 0x80 then Lookup(mem, hv, a) else U
  {
  }

  /** The result is known exactly when all operands are, or when one that is makes it zero whatever the others. */
  lemma AluKnownIff(f: AluOp, a: seq<AVal>)
    requires |a| == Arity(f)
    ensures AluResult(f, a).K? <==>
      || (forall i :: 0 <= i < |a| ==> a[i].K?)
      || ((f.Mul? || f.And?) && (a[0] == K(0) || a[1] == K(0)))
      || ((f.Shl? || f.Shr?) && a[0].K? && a[0].v >= 256)
  {
    hide Eval;
    assert (forall i :: 0 <= i < |a| ==> a[i].K?) <==> U !in a;
  }

  /** An unknown product or conjunction has operands for which it is not zero: no known zero was missed. */
  lemma AnotherResult(f: AluOp, a: seq<AVal>) returns (v: seq<Word>, w: seq<Word>)
    requires (f.Mul? || f.And?) && |a| == 2 && AluResult(f, a).U?
    ensures |v| == |w| == 2 && (forall i :: 0 <= i < 2 ==> Matches(a[i], v[i]) && Matches(a[i], w[i]))
    ensures Eval(f, v) == 0 && Eval(f, w) != 0
  {
    var x: Word, y: Word := if a[0].K? then a[0].v else if a[1].K? then a[1].v else 1, if a[1].K? then a[1].v else if a[0].K? then a[0].v else 1;
    v := [if a[0].K? then x else 0, if a[1].K? then y else 0];
    BitAndZero(v[0]);
    BitAndZero(v[1]);
    if f.And? {
      w := [x, y];
      if a[0].K? && a[1].K? { assert false; }
      BitAndSelf(x);
    } else {
      w := [if a[0].K? then x else 1, if a[1].K? then y else 1];
    }
  }

  lemma {:induction false} BitAndSelf(x: nat)
    ensures BitAnd(x, x) == x
  {
    if x > 0 {
      BitAndSelf(x / 2);
    }
  }

  /** The price of an unknown exponent is that of one, so it is no more than needed. */
  lemma ExpAttained()
    ensures exists w: Word :: ExpCost(w) == AExpCost(U)
  {
    var w: Word := TWO_256 - 1;
    Pow2Word();
    LongestWord(w, 256);
    assert ExpCost(w) == AExpCost(U);
  }

  lemma {:induction false} LongestWord(w: nat, n: nat)
    requires w == Pow2(n) - 1
    ensures BitLength(w) == n
  {
    if n > 0 {
      LongestWord(w / 2, n - 1);
    }
  }

  /** Only a jump on an unknown condition has two successors: the jump and the fall through, at one price. */
  lemma ForksIff(c: Context, a: AState)
    requires AStep(c, a).Succs?
    ensures var list, i := AStep(c, a).list, c.prog.ops[a.pc];
      if i.op.JumpI? && Top(a.stack, 1).U? then
        list == [To(a.(pc := Top(a.stack, 0).v, stack := Drop(a.stack, 2)), 10), To(a.(pc := i.next, stack := Drop(a.stack, 2)), 10)]
      else |list| == 1
  {
  }

  /** Two states share a key exactly when they stand at the same place and agree on every known word below 2^32. */
  lemma SameKeyIff(a: AState, b: AState)
    ensures KeyOf(a) == KeyOf(b) <==>
      && a.pc == b.pc && a.hv == b.hv && |a.stack| == |b.stack|
      && forall i :: 0 <= i < |a.stack| ==> a.stack[i] == b.stack[i] || (Large(a.stack[i]) && Large(b.stack[i]))
  {
    var x, y := Sig(a.stack), Sig(b.stack);
    if KeyOf(a) == KeyOf(b) {
      assert |x| == |y|;
      forall i | 0 <= i < |a.stack| ensures a.stack[i] == b.stack[i] || (Large(a.stack[i]) && Large(b.stack[i])) {
        assert x[i] == y[i];
      }
    }
    if |a.stack| == |b.stack| && forall i :: 0 <= i < |a.stack| ==> a.stack[i] == b.stack[i] || (Large(a.stack[i]) && Large(b.stack[i])) {
      assert x == y;
    }
  }

  predicate Large(v: AVal) { v.U? || v.v >= 0x1_0000_0000 }

  // ---- A whole run ---------------------------------------------------------------------------------------------------

  /** The states met from `a` on, while each has one successor. */
  function Line(c: Context, a: AState, n: nat): (path: seq<AState>)
    ensures n > 0 ==> path != [] && path[0] == a
    ensures |path| <= n
    decreases n
  {
    if n == 0 then []
    else match AStep(c, a)
         case Succs(list) => [a] + if |list| == 1 && list[0].To? then Line(c, list[0].s, n - 1) else []
         case Fails => [a]
  }

  ghost predicate NothingUnknown(c: Context, path: seq<AState>) {
    forall i :: 0 <= i < |path| ==> ReadsKnown(c, path[i])
  }

  ghost predicate KeysApart(path: seq<AState>) {
    forall i, j :: 0 <= i < j < |path| ==> KeyOf(path[i]) != KeyOf(path[j])
  }

  function Total(gs: seq<nat>): nat {
    if gs == [] then 0 else gs[0] + Total(gs[1..])
  }

  /** Each state leads to the next alone, at the price beside it, and the last one ends the run. */
  ghost predicate Straight(c: Context, path: seq<AState>, gs: seq<nat>, ok: bool) {
    && |path| == |gs| > 0
    && (forall i :: 0 <= i < |path| - 1 ==> AStep(c, path[i]) == Succs([To(path[i + 1], gs[i])]))
    && EndsAs(AStep(c, path[|path| - 1]), gs[|path| - 1], ok)
  }

  ghost predicate EndsAs(r: StepResult, g: nat, ok: bool) {
    r.Succs? && |r.list| == 1 && if ok then r.list[0].Ok? && r.list[0].g == g else r.list[0].Rev?
  }

  lemma StraightFrom(c: Context, a: AState, path: seq<AState>, g: nat, gs: seq<nat>, ok: bool)
    requires Straight(c, path, gs, ok) && AStep(c, a) == Succs([To(path[0], g)])
    ensures Straight(c, [a] + path, [g] + gs, ok) && Total([g] + gs) == g + Total(gs)
  {
    hide AStep;
    assert ([g] + gs)[1..] == gs;
  }

  lemma LineNext(c: Context, a: AState, b: AState, g: nat, n: nat)
    requires n > 0 && AStep(c, a) == Succs([To(b, g)])
    ensures Line(c, a, n) == [a] + Line(c, b, n - 1)
  {
    hide AStep;
  }

  lemma LineEnds(c: Context, a: AState, n: nat)
    requires n > 0 && (AStep(c, a).Fails? || (|AStep(c, a).list| == 1 && !AStep(c, a).list[0].To?))
    ensures Line(c, a, n) == [a]
  {
    hide AStep;
  }

  lemma NothingUnknownNext(c: Context, a: AState, rest: seq<AState>)
    requires NothingUnknown(c, [a] + rest)
    ensures ReadsKnown(c, a) && NothingUnknown(c, rest)
  {
    hide ReadsKnown;
    assert ([a] + rest)[0] == a && forall i :: 0 <= i < |rest| ==> rest[i] == ([a] + rest)[i + 1];
  }

  /** A run that ends without meeting an unknown word is the line of states, and spends the sum of their prices. */
  lemma {:induction false} RunIsLine(c: Context, cd: seq<byte>, hash: Hash, a: AState, s: State, n: nat) returns (gs: seq<nat>)
    requires Gamma(a, s, true) && Certain(a) && Instantiates(c.cd, cd)
    requires RunAdmissible(c, cd, hash, {}, true, s, n) && NothingUnknown(c, Line(c, a, n))
    requires !Run(c.prog, cd, hash, s, n).Raised?
    ensures var r := Run(c.prog, cd, hash, s, n);
      && Straight(c, Line(c, a, n), gs, r.Done?) && (r.Done? ==> r.gas == s.gas + Total(gs))
    decreases n
  {
    hide AStep, Step, StepAdmissible, Gamma, Certain, ReadsKnown, Line, NothingUnknown, Instantiates, Straight;
    RunStarts(c, cd, hash, s, n);
    FirstKnown(c, a, n);
    PreciseStep(c, cd, hash, a, s);
    var r, o := AStep(c, a), Step(c.prog, cd, hash, s);
    if o.Next? {
      var b, g := r.list[0].s, r.list[0].g;
      assert r == Succs([To(b, g)]);
      LineNext(c, a, b, g, n);
      NothingUnknownNext(c, a, Line(c, b, n - 1));
      var rest := RunIsLine(c, cd, hash, b, o.s, n - 1);
      LineIsNot(c, b, n - 1);
      StraightFrom(c, a, Line(c, b, n - 1), g, rest, Run(c.prog, cd, hash, o.s, n - 1).Done?);
      gs := [g] + rest;
    } else {
      LineEnds(c, a, n);
      gs := [if o.Done? then r.list[0].g else 0];
      StraightOne(c, a, gs[0], o.Done?);
    }
  }

  lemma RunStarts(c: Context, cd: seq<byte>, hash: Hash, s: State, n: nat)
    requires !Run(c.prog, cd, hash, s, n).Raised? && RunAdmissible(c, cd, hash, {}, true, s, n)
    ensures n > 0 && StepAdmissible(c, cd, {}, true, s)
  {
    hide Step, StepAdmissible;
  }

  lemma FirstKnown(c: Context, a: AState, n: nat)
    requires n > 0 && NothingUnknown(c, Line(c, a, n))
    ensures ReadsKnown(c, a)
  {
    hide ReadsKnown, AStep;
    assert Line(c, a, n)[0] == a;
  }

  lemma LineIsNot(c: Context, b: AState, n: nat)
    requires n > 0
    ensures Line(c, b, n) != [] && Line(c, b, n)[0] == b
  {
    hide AStep;
  }

  lemma StraightOne(c: Context, a: AState, g: nat, ok: bool)
    requires EndsAs(AStep(c, a), g, ok)
    ensures Straight(c, [a], [g], ok) && Total([g]) == g
  {
    assert [g][1..] == [];
  }

  // ---- The analysis of a line ------------------------------------------------------------------------------------------

  /** The states of the line up to one, each under its own key. */
  function KeptTo(path: seq<AState>, i: nat): (best: Best)
    requires i < |path|
    ensures |best| <= i + 1
  {
    if i == 0 then map[KeyOf(path[0]) := path[0]] else KeptTo(path, i - 1)[KeyOf(path[i]) := path[i]]
  }

  lemma {:induction false} KeptIs(path: seq<AState>, i: nat, k: Key)
    requires i < |path| && k in KeptTo(path, i)
    ensures exists j :: 0 <= j <= i && KeyOf(path[j]) == k
  {
    hide KeyOf;
    if i > 0 && k != KeyOf(path[i]) {
      KeptIs(path, i - 1, k);
    }
  }

  lemma {:induction false} KeptAt(path: seq<AState>, i: nat, j: nat)
    requires j <= i < |path| && KeysApart(path)
    ensures KeyOf(path[j]) in KeptTo(path, i) && KeptTo(path, i)[KeyOf(path[j])] == path[j]
  {
    hide KeyOf;
    if j < i {
      KeptAt(path, i - 1, j);
    }
  }

  lemma NewKey(path: seq<AState>, i: nat)
    requires i + 1 < |path| && KeysApart(path)
    ensures KeyOf(path[i + 1]) !in KeptTo(path, i)
  {
    hide KeyOf, KeptTo;
    if KeyOf(path[i + 1]) in KeptTo(path, i) {
      KeptIs(path, i, KeyOf(path[i + 1]));
    }
  }

  lemma StraightAt(c: Context, path: seq<AState>, gs: seq<nat>, ok: bool, i: nat)
    requires Straight(c, path, gs, ok) && i < |path|
    ensures |path| == |gs| && AStep(c, path[i]).Succs? && |AStep(c, path[i]).list| == 1
    ensures i < |path| - 1 ==> AStep(c, path[i]).list == [To(path[i + 1], gs[i])]
    ensures i == |path| - 1 ==> EndsAs(AStep(c, path[i]), gs[i], ok)
  {
    hide AStep;
    if i == |path| - 1 {
      assert EndsAs(AStep(c, path[|path| - 1]), gs[|path| - 1], ok);
    } else {
      assert AStep(c, path[i]) == Succs([To(path[i + 1], gs[i])]);
    }
  }

  lemma OnePass(c: Context, path: seq<AState>, gs: seq<nat>, ok: bool, i: nat, limit: nat)
    requires Straight(c, path, gs, ok) && KeysApart(path) && i < |path| <= limit
    ensures var best, work := KeptTo(path, i), [KeyOf(path[i])];
      Listed(best, work) && Pass(c, best, work, None, limit)
      == if i == |path| - 1 then Went(best, []) else Went(KeptTo(path, i + 1), [KeyOf(path[i + 1])])
  {
    hide AStep, KeyOf, Join, Straight;
    StraightAt(c, path, gs, ok, i);
    KeptAt(path, i, i);
    var best, work := KeptTo(path, i), [KeyOf(path[i])];
    assert work[..0] == [];
    var list := AStep(c, path[i]).list;
    assert list[1..] == [];
    if i < |path| - 1 {
      NewKey(path, i);
      assert list[0] == To(path[i + 1], gs[i]) && [] + [KeyOf(path[i + 1])] == [KeyOf(path[i + 1])];
      assert MergedOne(best, [], list[0], None, limit) == Went(KeptTo(path, i + 1), [KeyOf(path[i + 1])]);
      assert MergedAll(KeptTo(path, i + 1), [KeyOf(path[i + 1])], list[1..], None, limit)
          == Went(KeptTo(path, i + 1), [KeyOf(path[i + 1])]);
    } else {
      assert MergedOne(best, [], list[0], None, limit) == Went(best, []);
      assert MergedAll(best, [], list[1..], None, limit) == Went(best, []);
    }
  }

  lemma {:induction false} LineFixed(c: Context, path: seq<AState>, gs: seq<nat>, ok: bool, i: nat, limit: nat, fuel: nat)
    requires Straight(c, path, gs, ok) && KeysApart(path) && i < |path| <= limit && fuel >= |path| - i
    ensures Listed(KeptTo(path, i), [KeyOf(path[i])])
    ensures Worklist(c, KeptTo(path, i), [KeyOf(path[i])], None, limit, fuel) == Some(KeptTo(path, |path| - 1))
    decreases |path| - i
  {
    hide AStep, KeyOf, Pass, Worklist, KeptTo, Straight, KeysApart;
    OnePass(c, path, gs, ok, i, limit);
    WorklistSteps(c, KeptTo(path, i), [KeyOf(path[i])], None, limit, fuel);
    if i < |path| - 1 {
      LineFixed(c, path, gs, ok, i + 1, limit, fuel - 1);
    } else {
      WorklistSteps(c, KeptTo(path, i), [], None, limit, fuel - 1);
    }
  }

  lemma LineSuccs(c: Context, path: seq<AState>, gs: seq<nat>, ok: bool, i: nat)
    requires Straight(c, path, gs, ok) && KeysApart(path) && i < |path|
    ensures var best := KeptTo(path, |path| - 1);
      AStep(c, path[i]).Succs? && KeyOf(path[i]) in best && SuccsOf(c, best, KeyOf(path[i])) == AStep(c, path[i]).list
  {
    hide AStep, KeyOf, KeptTo, Straight;
    StraightAt(c, path, gs, ok, i);
    KeptAt(path, |path| - 1, i);
  }

  lemma EdgeOne(best: Best, s: AState, g: nat)
    requires KeyOf(s) in best && best[KeyOf(s)] == s
    ensures Present(best, None, [To(s, g)]) && Edges(best, None, [To(s, g)]) == [(At(KeyOf(s)), g)]
    ensures TermOf([To(s, g)]).None?
  {
    hide KeyOf;
    assert [To(s, g)][..0] == [];
    assert EdgeOf(best, None, To(s, g)) == (At(KeyOf(s)), g);
  }

  lemma EdgeNone(best: Best, x: Succ)
    requires !x.To? && (x.Ok? ==> x.g >= 0)
    ensures Present(best, None, [x]) && Edges(best, None, [x]) == [] && TermOf([x]) == if x.Ok? then Some(x.g) else None
  {
    assert [x][..0] == [];
  }

  lemma LineGraph(c: Context, path: seq<AState>, gs: seq<nat>, ok: bool, g: LP.Graph<Node>, i: nat)
    requires Straight(c, path, gs, ok) && KeysApart(path) && i < |path| && IsGraph(c, KeptTo(path, |path| - 1), None, g)
    ensures var n := At(KeyOf(path[i]));
      if i < |path| - 1 then LP.Succ(g, n) == [(At(KeyOf(path[i + 1])), gs[i])] && n !in g.term
      else LP.Succ(g, n) == [] && if ok then n in g.term && g.term[n] == gs[i] else n !in g.term
  {
    hide AStep, KeyOf, KeptTo, SuccsOf, Edges, TermOf, Present, Straight;
    StraightAt(c, path, gs, ok, i);
    var best := KeptTo(path, |path| - 1);
    LineSuccs(c, path, gs, ok, i);
    if i < |path| - 1 {
      KeptAt(path, |path| - 1, i + 1);
      EdgeOne(best, path[i + 1], gs[i]);
    } else {
      var x := AStep(c, path[i]).list[0];
      assert AStep(c, path[i]).list == [x];
      EdgeNone(best, x);
    }
  }

  lemma {:induction false} LineLongest(c: Context, path: seq<AState>, gs: seq<nat>, ok: bool, g: LP.Graph<Node>, i: nat)
    requires Straight(c, path, gs, ok) && KeysApart(path) && i < |path| && IsGraph(c, KeptTo(path, |path| - 1), None, g)
    ensures LP.IsLongest(g, At(KeyOf(path[i])), if ok then LP.Fin(Total(gs[i..])) else LP.NegInf)
    ensures !LP.ReachesCycle(g, At(KeyOf(path[i])))
    decreases |path| - i
  {
    hide AStep, KeyOf, KeptTo, IsGraph, LP.IsLongest, LP.ReachesCycle, LP.Succ, KeysApart;
    LineGraph(c, path, gs, ok, g, i);
    assert gs[i..][1..] == gs[i + 1..];
    if i < |path| - 1 {
      LineLongest(c, path, gs, ok, g, i + 1);
      LP.LongestThrough(g, At(KeyOf(path[i])), At(KeyOf(path[i + 1])), gs[i], if ok then LP.Fin(Total(gs[i + 1..])) else LP.NegInf);
    } else {
      LP.LongestHere(g, At(KeyOf(path[i])));
    }
  }

  /**
   * A run that ends, meets no unknown word and stands twice at no key is analysed to exactly what it spends; one that reverts
   * has no successful path.
   */
  lemma AnalysisIsExact(c: Context, cd: seq<byte>, hash: Hash, n: nat, limit: nat, fuel: nat, r: Result)
    requires Instantiates(c.cd, cd) && RunAdmissible(c, cd, hash, {}, true, Initial, n)
    requires NothingUnknown(c, Line(c, Start, n)) && KeysApart(Line(c, Start, n))
    requires !Run(c.prog, cd, hash, Initial, n).Raised?
    requires limit >= n && fuel >= n && Returned(c, None, limit, fuel, r)
    ensures var o := Run(c.prog, cd, hash, Initial, n);
      r.Bound? && r.value == if o.Done? then LP.Fin(o.gas) else LP.NegInf
  {
    hide AStep, Run, RunAdmissible, NothingUnknown, KeysApart, Line, Instantiates, Straight, IsGraph, LP.IsLongest, LP.ReachesCycle,
         KeptTo, KeyOf;
    StartsCertain();
    RunStarts(c, cd, hash, Initial, n);
    LineIsNot(c, Start, n);
    var gs := RunIsLine(c, cd, hash, Start, Initial, n);
    var path, ok := Line(c, Start, n), Run(c.prog, cd, hash, Initial, n).Done?;
    StraightSizes(c, path, gs, ok);
    LineFixed(c, path, gs, ok, 0, limit, fuel);
    KeptFirst(path);
    var best := KeptTo(path, |path| - 1);
    var g :| IsGraph(c, best, None, g) && Answered(c, best, None, g, r);
    LineLongest(c, path, gs, ok, g, 0);
    assert gs[0..] == gs;
    NoTerminalHead(c, best, g);
    LP.SameLongest(g, At(KeyOf(Start)), r.value, if ok then LP.Fin(Total(gs)) else LP.NegInf);
  }

  lemma StartsCertain()
    ensures Gamma(Start, Initial, true) && Certain(Start)
  {
  }

  lemma StraightSizes(c: Context, path: seq<AState>, gs: seq<nat>, ok: bool)
    requires Straight(c, path, gs, ok)
    ensures |path| == |gs| > 0
  {
  }

  lemma KeptFirst(path: seq<AState>)
    requires path != []
    ensures KeptTo(path, 0) == map[KeyOf(path[0]) := path[0]]
  {
  }

  // ---- Where the states come from ------------------------------------------------------------------------------------

  /** How a state came about: as the entry, as a successor of an earlier one, or by joining two of one key. */
  datatype Origin = Entry | Stepped(from: Origin, j: nat) | Joined(left: Origin, right: Origin)

  function Made(c: Context, start: AState, stop: Option<nat>, o: Origin): Option<AState> {
    match o
    case Entry => Some(start)
    case Stepped(from, j) =>
      var s := Made(c, start, stop, from);
      if s.Some? && AStep(c, s.value).Succs? && j < |AStep(c, s.value).list| && Inner(stop, AStep(c, s.value).list[j])
      then Some(AStep(c, s.value).list[j].s) else None
    case Joined(left, right) =>
      var a, b := Made(c, start, stop, left), Made(c, start, stop, right);
      if a.Some? && b.Some? && KeyOf(a.value) == KeyOf(b.value) then Some(Join(a.value, b.value)) else None
  }

  ghost predicate Arises(c: Context, start: AState, stop: Option<nat>, s: AState) {
    exists o :: Made(c, start, stop, o) == Some(s)
  }

  ghost predicate AllArise(c: Context, start: AState, stop: Option<nat>, best: Best) {
    forall k :: k in best ==> KeyOf(best[k]) == k && Arises(c, start, stop, best[k])
  }

  lemma SuccessorArises(c: Context, start: AState, stop: Option<nat>, s: AState, j: nat)
    requires Arises(c, start, stop, s) && AStep(c, s).Succs? && j < |AStep(c, s).list| && Inner(stop, AStep(c, s).list[j])
    ensures Arises(c, start, stop, AStep(c, s).list[j].s)
  {
    var o :| Made(c, start, stop, o) == Some(s);
    assert Made(c, start, stop, Stepped(o, j)) == Some(AStep(c, s).list[j].s);
  }

  lemma JoinArises(c: Context, start: AState, stop: Option<nat>, a: AState, b: AState)
    requires Arises(c, start, stop, a) && Arises(c, start, stop, b) && KeyOf(a) == KeyOf(b)
    ensures Arises(c, start, stop, Join(a, b))
  {
    var l :| Made(c, start, stop, l) == Some(a);
    var r :| Made(c, start, stop, r) == Some(b);
    assert Made(c, start, stop, Joined(l, r)) == Some(Join(a, b));
  }

  lemma MergedArises(c: Context, start: AState, stop: Option<nat>, best: Best, s: AState)
    requires AllArise(c, start, stop, best) && Arises(c, start, stop, s)
    ensures AllArise(c, start, stop, best[KeyOf(s) := Merged(best, s)])
  {
    hide Arises;
    if KeyOf(s) in best {
      JoinArises(c, start, stop, best[KeyOf(s)], s);
      JoinUpperBound(best[KeyOf(s)], s);
    }
  }

  lemma {:induction false} MergedAllArise(c: Context, start: AState, stop: Option<nat>, s: AState, best: Best, work: seq<Key>,
                                          j: nat, limit: nat)
    requires AllArise(c, start, stop, best) && Arises(c, start, stop, s) && AStep(c, s).Succs? && j <= |AStep(c, s).list|
    ensures var r := MergedAll(best, work, AStep(c, s).list[j..], stop, limit);
      r.Went? ==> AllArise(c, start, stop, r.best)
    decreases |AStep(c, s).list| - j
  {
    hide AStep, Arises, Merged, Join;
    var list := AStep(c, s).list;
    if j < |list| {
      MergedAllSteps(best, work, list, j, stop, limit);
      var one := MergedOne(best, work, list[j], stop, limit);
      if Inner(stop, list[j]) {
        SuccessorArises(c, start, stop, s, j);
        MergedArises(c, start, stop, best, list[j].s);
      }
      if one.Went? {
        MergedAllArise(c, start, stop, s, one.best, one.work, j + 1, limit);
      }
    }
  }

  lemma PassArises(c: Context, start: AState, stop: Option<nat>, best: Best, work: seq<Key>, limit: nat)
    requires AllArise(c, start, stop, best) && Listed(best, work) && work != []
    ensures var r := Pass(c, best, work, stop, limit);
      r.Went? ==> AllArise(c, start, stop, r.best)
  {
    hide AStep, Arises, MergedAll;
    var s := best[work[|work| - 1]];
    if AStep(c, s).Succs? {
      assert AStep(c, s).list[0..] == AStep(c, s).list;
      MergedAllArise(c, start, stop, s, best, work[..|work| - 1], 0, limit);
    }
  }

  lemma {:induction false} WorklistArises(c: Context, start: AState, stop: Option<nat>, best: Best, work: seq<Key>, limit: nat,
                                          fuel: nat)
    requires AllArise(c, start, stop, best) && Listed(best, work)
    ensures var r := Worklist(c, best, work, stop, limit, fuel);
      r.Some? ==> AllArise(c, start, stop, r.value)
    decreases fuel
  {
    hide Pass, AllArise, Worklist;
    WorklistSteps(c, best, work, stop, limit, fuel);
    if work != [] && fuel > 0 {
      PassArises(c, start, stop, best, work, limit);
      var p := Pass(c, best, work, stop, limit);
      if p.Went? {
        WorklistArises(c, start, stop, p.best, p.work, limit, fuel - 1);
      }
    }
  }

  /** The fixpoint invents nothing: every state it ends with is made of the entry by steps and joins. */
  lemma EveryStateArises(c: Context, start: AState, stop: Option<nat>, limit: nat, fuel: nat)
    ensures var r := Fixed(c, start, stop, limit, fuel);
      r.Some? ==> AllArise(c, start, stop, r.value)
  {
    assert Made(c, start, stop, Entry) == Some(start);
    WorklistArises(c, start, stop, map[KeyOf(start) := start], [KeyOf(start)], limit, fuel);
  }
}
