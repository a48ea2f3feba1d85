/**
 * A program that jumps back to its entry with more memory than it began with, and its steps in both interpreters. It
 * visits its code twice: the first visit loads zero and stores at a known address, the second loads what the first
 * stored. The abstract interpreter does not know that word, nor the address the second visit stores at.
 */
module RejoinedProgram {
  import opened Binary
  import opened Bytes
  import opened Evm
  import opened ConcreteOracle
  import opened ModuleBound
  import opened Simulation
  import opened GasBound

  // ---- The program ------------------------------------------------------------------------------------------------

  const CODE: seq<byte> :=
    [0x5b, 0x60, 0xa0, 0x51, 0x80, 0x80, 0x60, 0x80, 0x01, 0x52, 0x60, 0x20, 0x60, 0xa0, 0x52, 0x15, 0x5f, 0x57, 0x00,
     0x00, 0x00]

  const OPS: map<nat, Instr> :=
    map[0 := Instr(JumpDest, 1), 1 := Instr(Push(0xa0), 3), 3 := Instr(MLoad, 4), 4 := Instr(Dup(1), 5),
        5 := Instr(Dup(1), 6), 6 := Instr(Push(0x80), 8), 8 := Instr(Alu(Add), 9), 9 := Instr(MStore, 10),
        10 := Instr(Push(0x20), 12), 12 := Instr(Push(0xa0), 14), 14 := Instr(MStore, 15), 15 := Instr(Alu(IsZero), 16),
        16 := Instr(Push0, 17), 17 := Instr(JumpI, 18), 18 := Instr(Stop, 19)]

  const P: Program := Program(CODE, OPS)
  const C: Context := Context(P, NoCalldata)

  lemma OneByte(b: byte)
    ensures FromBytes([b]) == b
  {
    assert [b][..0] == [];
  }

  lemma PushImmediate(pc: nat)
    requires pc in {1, 6, 10, 12}
    ensures InstrAt(CODE, pc) == Instr(Push(CODE[pc + 1]), pc + 2)
  {
    assert CODE[pc + 1..pc + 2] == [CODE[pc + 1]];
    OneByte(CODE[pc + 1]);
  }

  lemma CodeEnds()
    ensures CodeEnd(CODE) == 19
  {
    assert CODE[19..] == [0, 0];
    assert [0, 0][..1] == [0];
    OneByte(0);
  }

  lemma Reads(pc: nat)
    requires pc in OPS
    ensures InstrAt(CODE, pc) == OPS[pc]
  {
    if pc in {1, 6, 10, 12} {
      PushImmediate(pc);
    }
  }

  function Before(pc: nat): map<nat, Instr> {
    map q | q in OPS && q < pc :: OPS[q]
  }

  lemma NextBefore(pc: nat)
    requires pc in OPS
    ensures OPS[pc].next in OPS || OPS[pc].next == 19
    ensures Before(pc)[pc := OPS[pc]] == Before(OPS[pc].next)
  {
    NoneBetween(pc);
    BeforeExtends(OPS, pc, OPS[pc].next);
  }

  lemma NoneBetween(pc: nat)
    requires pc in OPS
    ensures pc < OPS[pc].next && (OPS[pc].next in OPS || OPS[pc].next == 19)
    ensures forall q :: q in OPS && pc < q ==> OPS[pc].next <= q
  {
  }

  lemma BeforeExtends(ops: map<nat, Instr>, pc: nat, next: nat)
    requires pc in ops && pc < next && forall q :: q in ops && pc < q ==> next <= q
    ensures (map q | q in ops && q < pc :: ops[q])[pc := ops[pc]] == map q | q in ops && q < next :: ops[q]
  {
  }

  lemma DecodeStep(code: seq<byte>, pc: nat, ops: map<nat, Instr>)
    requires pc < CodeEnd(code)
    ensures DecodeFrom(code, pc, ops) == DecodeFrom(code, InstrAt(code, pc).next, ops[pc := InstrAt(code, pc)])
  {
  }

  /** Reading on from `pc` with everything before it read. */
  lemma {:induction false} DecodesRest(pc: nat)
    requires pc in OPS || pc == 19
    ensures DecodeFrom(CODE, pc, Before(pc)) == OPS
    decreases 19 - pc
  {
    CodeEnds();
    if pc == 19 {
      assert Before(19) == OPS;
    } else {
      hide InstrAt, CodeEnd;
      Reads(pc);
      NextBefore(pc);
      DecodeStep(CODE, pc, Before(pc));
      DecodesRest(OPS[pc].next);
    }
  }

  lemma Jumpdest()
    ensures 0 in JumpDests(P)
  {
  }

  lemma Decodes()
    ensures C == Context(Program(CODE, DecodeFrom(CODE, 0, map[])), NoCalldata)
  {
    DecodesRest(0);
    assert Before(0) == map[];
  }

  // ---- The abstract passes through the code -----------------------------------------------------------------------

  /** The loaded word, the address stored at, and memory before, between and after the two stores. */
  datatype Visit = Visit(v: AVal, addr: AVal, zero: AVal, m0: map<nat, AVal>, hv0: bool, m1: map<nat, AVal>, hv1: bool,
                       m2: map<nat, AVal>, size: nat)

  const FIRST: Visit :=
    Visit(K(0), K(0x80), K(1), map[], false, map[0x80 := K(0)], false, map[0x80 := K(0), 0xa0 := K(0x20)], 0)
  const SECOND: Visit :=
    Visit(U, U, U, map[0x80 := U, 0xa0 := U, 0x40 := K(0)], false, map[0x40 := K(0)], true,
         map[0x40 := K(0), 0xa0 := K(0x20)], 6)
  const THIRD: Visit :=
    Visit(K(0x20), K(0xa0), K(0), map[0x40 := K(0), 0xa0 := K(0x20)], true, map[0x40 := K(0), 0xa0 := K(0x20)], true,
         map[0x40 := K(0), 0xa0 := K(0x20)], 6)

  const PCS: seq<nat> := [0, 1, 3, 4, 5, 6, 8, 9, 10, 12, 14, 15, 16, 17]

  /** The stack before the i-th instruction. */
  function StackAt(p: Visit, i: nat): seq<AVal>
    requires i < 14
  {
    if i <= 1 then [] else if i == 2 then [K(0xa0)] else if i == 3 then [p.v] else if i == 4 then [p.v, p.v]
    else if i == 5 then [p.v, p.v, p.v] else if i == 6 then [p.v, p.v, p.v, K(0x80)] else if i == 7 then [p.v, p.v, p.addr]
    else if i == 8 then [p.v] else if i == 9 then [p.v, K(0x20)] else if i == 10 then [p.v, K(0x20), K(0xa0)]
    else if i == 11 then [p.v] else if i == 12 then [p.zero] else [p.zero, K(0)]
  }

  function Stage(p: Visit, i: nat): AState
    requires i < 14
  {
    AState(PCS[i], StackAt(p, i), if i <= 7 then p.m0 else if i <= 10 then p.m1 else p.m2,
           if i <= 7 then p.hv0 else p.hv1, if i <= 2 then p.size else 6)
  }

  /** The two states a pass may end in: back at the entry, or at the STOP. */
  function Again(p: Visit): AState { AState(0, [], p.m2, p.hv1, 6) }

  function Out(p: Visit): AState { AState(18, [], p.m2, p.hv1, 6) }

  function Price(p: Visit, i: nat): nat
    requires i < 13
  {
    if i == 0 then 1 else if i == 2 then 3 + GrowthCost(p.size, 6) else if i == 12 then 2 else 3
  }

  predicate Coherent(p: Visit) {
    && Lookup(p.m0, p.hv0, 0xa0) == p.v && p.size <= 6
    && p.addr == AluResult(Add, [K(0x80), p.v]) && p.zero == AluResult(IsZero, [p.v])
    && (p.addr.U? ==> p.m1 == Havocked(p.m0) && p.hv1)
    && (p.addr.K? ==> p.addr.v in {0x80, 0xa0} && p.m1 == p.m0[p.addr.v := p.v] && p.hv1 == p.hv0)
    && p.m2 == p.m1[0xa0 := K(0x20)]
  }

  lemma PassesCoherent()
    ensures Coherent(FIRST) && Coherent(SECOND) && Coherent(THIRD)
  {
    assert Known([K(0x80), K(0)]) == [0x80, 0] && Known([K(0x80), K(0x20)]) == [0x80, 0x20];
    assert Known([K(0)]) == [0] && Known([K(0x20)]) == [0x20];
    assert SECOND.m1 == Havocked(SECOND.m0);
  }

  lemma PushSteps(c: Context, s: AState, v: Word, next: nat)
    requires s.pc in c.prog.ops && c.prog.ops[s.pc] == Instr(Push(v), next)
    ensures AStep(c, s) == Succs([To(s.(pc := next, stack := s.stack + [K(v)]), 3)])
  {
  }

  lemma DupSteps(c: Context, s: AState, next: nat)
    requires s.pc in c.prog.ops && c.prog.ops[s.pc] == Instr(Dup(1), next) && |s.stack| > 0
    ensures AStep(c, s) == Succs([To(s.(pc := next, stack := s.stack + [s.stack[|s.stack| - 1]]), 3)])
  {
  }

  lemma LoadSteps(c: Context, s: AState, a: Word, next: nat)
    requires s.pc in c.prog.ops && c.prog.ops[s.pc] == Instr(MLoad, next) && s.stack == [K(a)] && a % 32 == 0
    ensures AStep(c, s)
         == Succs([To(AState(next, [Lookup(s.mem, s.hv, a)], s.mem, s.hv, Max(s.msz, Needed(a, 32))),
                      3 + GrowthCost(s.msz, Needed(a, 32)))])
  {
    assert Drop(s.stack, 1) == [];
    assert [] + [Lookup(s.mem, s.hv, a)] == [Lookup(s.mem, s.hv, a)];
  }

  lemma StoreSteps(c: Context, s: AState, st: seq<AVal>, x: AVal, a: Word, next: nat)
    requires s.pc in c.prog.ops && c.prog.ops[s.pc] == Instr(MStore, next) && s.stack == st + [x, K(a)] && a % 32 == 0
    requires Needed(a, 32) <= s.msz
    ensures AStep(c, s) == Succs([To(AState(next, st, s.mem[a := x], s.hv, s.msz), 3)])
  {
    assert Drop(s.stack, 2) == st;
  }

  lemma UnknownStoreSteps(c: Context, s: AState, st: seq<AVal>, x: AVal, next: nat)
    requires s.pc in c.prog.ops && c.prog.ops[s.pc] == Instr(MStore, next) && s.stack == st + [x, U]
    ensures AStep(c, s) == Succs([To(AState(next, st, Havocked(s.mem), true, s.msz), 3)])
  {
    assert Drop(s.stack, 2) == st;
  }

  lemma AluSteps(c: Context, s: AState, st: seq<AVal>, f: AluOp, a: seq<AVal>, next: nat)
    requires s.pc in c.prog.ops && c.prog.ops[s.pc] == Instr(Alu(f), next)
    requires |a| == Arity(f) && |s.stack| >= Arity(f) && Popped(s.stack, Arity(f)) == a && Drop(s.stack, Arity(f)) == st
    ensures AStep(c, s) == Succs([To(s.(pc := next, stack := st + [AluResult(f, a)]), Cost(f))])
  {
  }

  /** The load, the addition, the two stores and the comparison. */
  lemma LoadStage(p: Visit)
    requires Coherent(p)
    ensures AStep(C, Stage(p, 2)) == Succs([To(Stage(p, 3), Price(p, 2))])
  {
    hide AStep;
    LoadSteps(C, Stage(p, 2), 0xa0, 4);
  }

  lemma AddStage(p: Visit)
    requires Coherent(p)
    ensures AStep(C, Stage(p, 6)) == Succs([To(Stage(p, 7), 3)])
  {
    hide AStep, AluResult;
    var st := StackAt(p, 6);
    assert Popped(st, 2) == [K(0x80), p.v];
    assert Drop(st, 2) == [p.v, p.v];
    AluSteps(C, Stage(p, 6), [p.v, p.v], Add, [K(0x80), p.v], 9);
    assert [p.v, p.v] + [p.addr] == StackAt(p, 7);
  }

  lemma StoreStage(p: Visit)
    requires Coherent(p)
    ensures AStep(C, Stage(p, 7)) == Succs([To(Stage(p, 8), 3)])
  {
    hide AStep;
    assert StackAt(p, 7) == [p.v] + [p.v, p.addr];
    if p.addr.U? {
      UnknownStoreSteps(C, Stage(p, 7), [p.v], p.v, 10);
    } else {
      StoreSteps(C, Stage(p, 7), [p.v], p.v, p.addr.v, 10);
    }
  }

  lemma SecondStoreStage(p: Visit)
    requires Coherent(p)
    ensures AStep(C, Stage(p, 10)) == Succs([To(Stage(p, 11), 3)])
  {
    hide AStep;
    assert StackAt(p, 10) == [p.v] + [K(0x20), K(0xa0)];
    StoreSteps(C, Stage(p, 10), [p.v], K(0x20), 0xa0, 15);
  }

  lemma CompareStage(p: Visit)
    requires Coherent(p)
    ensures AStep(C, Stage(p, 11)) == Succs([To(Stage(p, 12), 3)])
  {
    hide AStep, AluResult;
    assert Popped(StackAt(p, 11), 1) == [p.v];
    assert Drop(StackAt(p, 11), 1) == [];
    AluSteps(C, Stage(p, 11), [], IsZero, [p.v], 16);
    assert [] + [p.zero] == StackAt(p, 12);
  }

  lemma PushStage(p: Visit, i: nat)
    requires i in {1, 5, 8, 9}
    ensures AStep(C, Stage(p, i)) == Succs([To(Stage(p, i + 1), Price(p, i))])
  {
    var s := Stage(p, i);
    PushSteps(C, s, OPS[s.pc].op.v, OPS[s.pc].next);
    assert StackAt(p, i) + [K(OPS[s.pc].op.v)] == StackAt(p, i + 1);
  }

  lemma DupStage(p: Visit, i: nat)
    requires i in {3, 4}
    ensures AStep(C, Stage(p, i)) == Succs([To(Stage(p, i + 1), Price(p, i))])
  {
    var s := Stage(p, i);
    DupSteps(C, s, OPS[s.pc].next);
    assert StackAt(p, i) + [p.v] == StackAt(p, i + 1);
  }

  lemma PlainStage(p: Visit, i: nat)
    requires i in {0, 12}
    ensures AStep(C, Stage(p, i)) == Succs([To(Stage(p, i + 1), Price(p, i))])
  {
    assert StackAt(p, 12) + [K(0)] == StackAt(p, 13);
  }

  lemma StageSteps(p: Visit, i: nat)
    requires Coherent(p) && i < 13
    ensures AStep(C, Stage(p, i)) == Succs([To(Stage(p, i + 1), Price(p, i))])
  {
    match i {
      case 2 => LoadStage(p);
      case 6 => AddStage(p);
      case 7 => StoreStage(p);
      case 10 => SecondStoreStage(p);
      case 11 => CompareStage(p);
      case 3 | 4 => DupStage(p, i);
      case 0 | 12 => PlainStage(p, i);
      case _ => PushStage(p, i);
    }
  }

  lemma JumpISteps(c: Context, s: AState, x: AVal, d: Word, next: nat)
    requires s.pc in c.prog.ops && c.prog.ops[s.pc] == Instr(JumpI, next) && s.stack == [x, K(d)] && d in JumpDests(c.prog)
    ensures var taken, through := To(s.(pc := d, stack := []), 10), To(s.(pc := next, stack := []), 10);
      AStep(c, s) == Succs(if x.U? then [taken, through] else if x.v != 0 then [taken] else [through])
  {
    assert Drop(s.stack, 2) == [];
  }

  /** The conditional jump, and the end. */
  lemma JumpStage(p: Visit)
    ensures AStep(C, Stage(p, 13))
         == Succs(if p.zero.U? then [To(Again(p), 10), To(Out(p), 10)] else if p.zero.v != 0 then [To(Again(p), 10)]
                  else [To(Out(p), 10)])
  {
    hide AStep;
    Jumpdest();
    JumpISteps(C, Stage(p, 13), p.zero, 0, 18);
  }

  lemma OutStops(p: Visit)
    ensures AStep(C, Out(p)) == Succs([Ok(6, 0)])
  {
  }

  /** Gas from the instruction at `pc` to the end of its visit. */
  function RestOf(pc: nat): nat {
    if pc == 0 then 46 else if pc == 1 then 45 else if pc == 3 then 42 else if pc == 4 then 39 else if pc == 5 then 36
    else if pc == 6 then 33 else if pc == 8 then 30 else if pc == 9 then 27 else if pc == 10 then 24 else if pc == 12 then 21
    else if pc == 14 then 18 else if pc == 15 then 15 else if pc == 16 then 12 else if pc == 17 then 10 else 0
  }

  // ---- The concrete run -------------------------------------------------------------------------------------------

  /** Memory from the load on, the word loaded, and memory after each store. */
  function Grown(m: seq<byte>): seq<byte> { Expanded(m, 0xa0, 32) }

  function Loaded(m: seq<byte>): Word { WordOf(Grown(m), 0xa0) }

  predicate Enters(m: seq<byte>) { (m == [] || |m| == 192) && Loaded(m) in {0, 0x20} }

  lemma GrownSize(m: seq<byte>)
    requires Enters(m)
    ensures |Grown(m)| == 192 && ExpansionGas(m, 0xa0, 32) == if m == [] then 18 else 0
  {
  }

  function StoredOnce(m: seq<byte>): (r: seq<byte>)
    requires Enters(m)
    ensures |r| == 192
  {
    GrownSize(m);
    Spliced(Grown(m), 0x80 + Loaded(m), 32, ToBytes(Loaded(m), 32))
  }

  function StoredTwice(m: seq<byte>): (r: seq<byte>)
    requires Enters(m)
    ensures |r| == 192
  {
    Spliced(StoredOnce(m), 0xa0, 32, ToBytes(0x20, 32))
  }

  /** The second visit loads what the first stored. */
  lemma LoadsStored(m: seq<byte>)
    requires Enters(m)
    ensures Grown(StoredTwice(m)) == StoredTwice(m) && Loaded(StoredTwice(m)) == 0x20 && Enters(StoredTwice(m))
  {
    var r := StoredTwice(m);
    assert r[0xa0..0xc0] == ToBytes(0x20, 32);
    Pow256Word();
    FromToBytes(0x20, 32);
  }

  lemma EmptyLoadsZero()
    ensures Enters([]) && Loaded([]) == 0
  {
    FromZeros(Grown([])[0xa0..0xc0]);
  }

  function Zero(v: Word): Word { Bool(v == 0) }

  function StackOf(v: Word, i: nat): seq<Word>
    requires i < 14 && v in {0, 0x20}
  {
    if i <= 1 then [] else if i == 2 then [0xa0] else if i == 3 then [v] else if i == 4 then [v, v]
    else if i == 5 then [v, v, v] else if i == 6 then [v, v, v, 0x80] else if i == 7 then [v, v, 0x80 + v]
    else if i == 8 then [v] else if i == 9 then [v, 0x20] else if i == 10 then [v, 0x20, 0xa0]
    else if i == 11 then [v] else if i == 12 then [Zero(v)] else [Zero(v), 0]
  }

  /** The state before the i-th instruction of a visit that starts with memory `m` and `gas` spent. */
  function StateAt(m: seq<byte>, gas: nat, i: nat): State
    requires Enters(m) && i < 14
  {
    State(PCS[i], StackOf(Loaded(m), i),
          if i <= 2 then m else if i <= 7 then Grown(m) else if i <= 10 then StoredOnce(m) else StoredTwice(m),
          gas + (46 - RestOf(PCS[i])) + (if i > 2 && m == [] then 18 else 0))
  }

  /** One admissible instruction. */
  ghost predicate Goes(hash: Hash, s: State, t: State) {
    StepAdmissible(C, [], {9}, false, s) && Step(P, [], hash, s) == Next(t)
  }

  lemma PushGoes(hash: Hash, s: State, v: Word, next: nat)
    requires s.pc in OPS && OPS[s.pc] == Instr(Push(v), next)
    ensures Goes(hash, s, s.(pc := next, stack := s.stack + [v], gas := s.gas + 3))
  {
  }

  lemma DupGoes(hash: Hash, s: State, next: nat)
    requires s.pc in OPS && OPS[s.pc] == Instr(Dup(1), next) && |s.stack| > 0
    ensures Goes(hash, s, s.(pc := next, stack := s.stack + [s.stack[|s.stack| - 1]], gas := s.gas + 3))
  {
  }

  lemma LoadGoes(hash: Hash, s: State, a: Word, next: nat)
    requires s.pc in OPS && s.pc != 9 && OPS[s.pc] == Instr(MLoad, next) && s.stack == [a]
    ensures Goes(hash, s, State(next, [WordOf(Expanded(s.mem, a, 32), a)], Expanded(s.mem, a, 32),
                                s.gas + 3 + ExpansionGas(s.mem, a, 32)))
  {
    hide Expanded, ExpansionGas, WordOf, Eval;
    var w := WordOf(Expanded(s.mem, a, 32), a);
    assert Drop(s.stack, 1) == [];
    assert [] + [w] == [w];
  }

  lemma StoreGoes(hash: Hash, s: State, st: seq<Word>, x: Word, a: Word, next: nat)
    requires s.pc in OPS && OPS[s.pc] == Instr(MStore, next) && s.stack == st + [x, a]
    requires |s.mem| == 192 && 0x80 <= a <= 0xa0
    ensures Goes(hash, s, State(next, st, Spliced(s.mem, a, 32, ToBytes(x, 32)), s.gas + 3))
  {
    assert Drop(s.stack, 2) == st;
    assert Expanded(s.mem, a, 32) == s.mem && ExpansionGas(s.mem, a, 32) == 0;
  }

  lemma AluGoes(hash: Hash, s: State, st: seq<Word>, f: AluOp, a: seq<Word>, next: nat)
    requires s.pc in OPS && OPS[s.pc] == Instr(Alu(f), next)
    requires |a| == Arity(f) && |s.stack| >= Arity(f) && Popped(s.stack, Arity(f)) == a && Drop(s.stack, Arity(f)) == st
    ensures Goes(hash, s, s.(pc := next, stack := st + [Eval(f, a)], gas := s.gas + Cost(f)))
  {
  }

  lemma JumpDestGoes(hash: Hash, s: State, next: nat)
    requires s.pc in OPS && OPS[s.pc] == Instr(JumpDest, next)
    ensures Goes(hash, s, s.(pc := next, gas := s.gas + 1))
  {
  }

  lemma Push0Goes(hash: Hash, s: State, next: nat)
    requires s.pc in OPS && OPS[s.pc] == Instr(Push0, next)
    ensures Goes(hash, s, s.(pc := next, stack := s.stack + [0], gas := s.gas + 2))
  {
  }

  lemma LoadState(hash: Hash, m: seq<byte>, gas: nat)
    requires Enters(m)
    ensures Goes(hash, StateAt(m, gas, 2), StateAt(m, gas, 3))
  {
    GrownSize(m);
    hide Goes, ExpansionGas;
    LoadGoes(hash, StateAt(m, gas, 2), 0xa0, 4);
  }

  lemma StoreState(hash: Hash, m: seq<byte>, gas: nat)
    requires Enters(m)
    ensures Goes(hash, StateAt(m, gas, 7), StateAt(m, gas, 8))
  {
    GrownSize(m);
    var v := Loaded(m);
    hide Goes, Loaded, Grown, StoredOnce, StoredTwice;
    assert StackOf(v, 7) == [v] + [v, 0x80 + v];
    StoreGoes(hash, StateAt(m, gas, 7), [v], v, 0x80 + v, 10);
  }

  lemma SecondStoreState(hash: Hash, m: seq<byte>, gas: nat)
    requires Enters(m)
    ensures Goes(hash, StateAt(m, gas, 10), StateAt(m, gas, 11))
  {
    var v := Loaded(m);
    hide Goes, Loaded, StoredOnce, Grown;
    assert StackOf(v, 10) == [v] + [0x20, 0xa0];
    StoreGoes(hash, StateAt(m, gas, 10), [v], 0x20, 0xa0, 15);
  }

  lemma AddState(hash: Hash, m: seq<byte>, gas: nat)
    requires Enters(m)
    ensures Goes(hash, StateAt(m, gas, 6), StateAt(m, gas, 7))
  {
    var v := Loaded(m);
    hide Goes, Loaded, Grown, StoredOnce, StoredTwice;
    var st := StackOf(v, 6);
    assert Popped(st, 2) == [0x80, v] && Drop(st, 2) == [v, v];
    AluGoes(hash, StateAt(m, gas, 6), [v, v], Add, [0x80, v], 9);
    assert Eval(Add, [0x80, v]) == 0x80 + v;
    assert [v, v] + [0x80 + v] == StackOf(v, 7);
  }

  lemma CompareState(hash: Hash, m: seq<byte>, gas: nat)
    requires Enters(m)
    ensures Goes(hash, StateAt(m, gas, 11), StateAt(m, gas, 12))
  {
    var v := Loaded(m);
    hide Goes, Loaded, Grown, StoredOnce, StoredTwice;
    assert Popped(StackOf(v, 11), 1) == [v] && Drop(StackOf(v, 11), 1) == [];
    AluGoes(hash, StateAt(m, gas, 11), [], IsZero, [v], 16);
    assert [] + [Zero(v)] == StackOf(v, 12);
  }

  lemma PushState(hash: Hash, m: seq<byte>, gas: nat, i: nat)
    requires Enters(m) && i in {1, 5, 8, 9}
    ensures Goes(hash, StateAt(m, gas, i), StateAt(m, gas, i + 1))
  {
    var v := Loaded(m);
    hide Goes, Loaded, Grown, StoredOnce, StoredTwice;
    var s := StateAt(m, gas, i);
    PushGoes(hash, s, OPS[s.pc].op.v, OPS[s.pc].next);
    assert StackOf(v, i) + [OPS[s.pc].op.v] == StackOf(v, i + 1);
  }

  lemma DupState(hash: Hash, m: seq<byte>, gas: nat, i: nat)
    requires Enters(m) && i in {3, 4}
    ensures Goes(hash, StateAt(m, gas, i), StateAt(m, gas, i + 1))
  {
    var v := Loaded(m);
    hide Goes, Loaded, Grown, StoredOnce, StoredTwice;
    var s := StateAt(m, gas, i);
    DupGoes(hash, s, OPS[s.pc].next);
    assert StackOf(v, i) + [v] == StackOf(v, i + 1);
  }

  lemma PlainState(hash: Hash, m: seq<byte>, gas: nat, i: nat)
    requires Enters(m) && i in {0, 12}
    ensures Goes(hash, StateAt(m, gas, i), StateAt(m, gas, i + 1))
  {
    var v := Loaded(m);
    hide Goes, Loaded, Grown, StoredOnce, StoredTwice;
    if i == 0 {
      JumpDestGoes(hash, StateAt(m, gas, 0), 1);
    } else {
      Push0Goes(hash, StateAt(m, gas, 12), 17);
      assert StackOf(v, 12) + [0] == StackOf(v, 13);
    }
  }

  lemma StateGoes(hash: Hash, m: seq<byte>, gas: nat, i: nat)
    requires Enters(m) && i < 13
    ensures Goes(hash, StateAt(m, gas, i), StateAt(m, gas, i + 1))
  {
    hide Goes, StateAt, Enters;
    match i {
      case 2 => LoadState(hash, m, gas);
      case 6 => AddState(hash, m, gas);
      case 7 => StoreState(hash, m, gas);
      case 10 => SecondStoreState(hash, m, gas);
      case 11 => CompareState(hash, m, gas);
      case 3 | 4 => DupState(hash, m, gas, i);
      case 0 | 12 => PlainState(hash, m, gas, i);
      case _ => PushState(hash, m, gas, i);
    }
  }

  /** Where a visit leads: back to the entry when it loaded zero, else to the STOP. */
  function After(m: seq<byte>, gas: nat): State
    requires Enters(m)
  {
    State(if Loaded(m) == 0 then 0 else 18, [], StoredTwice(m), gas + 46 + if m == [] then 18 else 0)
  }

  lemma JumpGoes(hash: Hash, m: seq<byte>, gas: nat)
    requires Enters(m)
    ensures Goes(hash, StateAt(m, gas, 13), After(m, gas))
  {
    Jumpdest();
    var v := Loaded(m);
    hide Loaded, StoredTwice;
    assert Drop(StackOf(v, 13), 2) == [];
  }

  /** With what follows admissible, so is the run from here, and it ends the same way. */
  ghost predicate Ends(hash: Hash, s: State, n: nat, r: Outcome) {
    RunAdmissible(C, [], hash, {9}, false, s, n) && Run(P, [], hash, s, n) == r
  }

  lemma EndsBefore(hash: Hash, s: State, t: State, n: nat, r: Outcome)
    requires Goes(hash, s, t) && Ends(hash, t, n, r)
    ensures Ends(hash, s, n + 1, r)
  {
    hide StepAdmissible, Step;
  }

  lemma {:induction false} VisitEnds(hash: Hash, m: seq<byte>, gas: nat, i: nat, n: nat, r: Outcome)
    requires Enters(m) && i < 14 && Ends(hash, After(m, gas), n, r)
    ensures Ends(hash, StateAt(m, gas, i), n + 14 - i, r)
    decreases 14 - i
  {
    hide Ends, Goes, StateAt, After, Enters;
    if i == 13 {
      JumpGoes(hash, m, gas);
      EndsBefore(hash, StateAt(m, gas, 13), After(m, gas), n, r);
    } else {
      StateGoes(hash, m, gas, i);
      VisitEnds(hash, m, gas, i + 1, n, r);
      EndsBefore(hash, StateAt(m, gas, i), StateAt(m, gas, i + 1), n + 13 - i, r);
    }
  }

  lemma StopEnds(hash: Hash, mem: seq<byte>, gas: nat, n: nat)
    requires n > 0
    ensures Ends(hash, State(18, [], mem, gas), n, Done(gas, []))
  {
  }

  lemma FirstState(m: seq<byte>, gas: nat)
    requires Enters(m)
    ensures StateAt(m, gas, 0) == State(0, [], m, gas)
  {
  }

  /** Memory after the first visit. */
  lemma FirstMemory() returns (m: seq<byte>)
    ensures Enters([]) && Enters(m) && m != []
    ensures After([], 0) == StateAt(m, 64, 0) && StateAt([], 0, 0) == Initial
    ensures After(m, 64) == State(18, [], StoredTwice(m), 110)
  {
    EmptyLoadsZero();
    LoadsStored([]);
    m := StoredTwice([]);
    hide Loaded, StoredTwice, StateAt, Enters;
    FirstState(m, 64);
    FirstState([], 0);
  }

  /** The run: 46 gas for each of its two visits to the code, and 18 for memory. */
  lemma RunEnds(hash: Hash, n: nat)
    requires n >= 29
    ensures Ends(hash, Initial, n, Done(110, []))
  {
    var m := FirstMemory();
    hide Ends, Enters, StateAt, StoredTwice, Loaded, After;
    StopEnds(hash, StoredTwice(m), 110, n - 28);
    VisitEnds(hash, m, 64, 0, n - 28, Done(110, []));
    VisitEnds(hash, [], 0, 0, n - 14, Done(110, []));
  }
}
