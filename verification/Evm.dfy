/**
 * Instructions, prices and exact word arithmetic shared by the abstract and the concrete interpreter
 * (the opcode tables of pure_module_bound.py, which concrete_oracle.py imports).
 */
module Evm {
  import opened Binary
  import opened Bytes

  datatype AluOp =
    | Add | Mul | Sub | Div | SDiv | Mod | SMod | AddMod | MulMod | SignExtend
    | Lt | Gt | SLt | SGt | Eq | IsZero | And | Or | Xor | Not | Byte | Shl | Shr | Sar

  datatype Op =
    | Push(v: Word)
    | Push0
    | Dup(n: nat)
    | Swap(n: nat)
    | Pop
    | JumpDest
    | Jump
    | JumpI
    | Stop
    | Return
    | Abort          // REVERT and INVALID
    | CallDataLoad
    | CallDataSize
    | PushZero       // CALLVALUE and RETURNDATASIZE in a module frame
    | Environment    // ADDRESS, TIMESTAMP, GAS and the like; only the abstract interpreter knows them
    | CodeSize
    | MSize
    | MLoad
    | MStore
    | MStore8
    | CallDataCopy
    | CodeCopy
    | MCopy
    | Keccak
    | Exp
    | Alu(f: AluOp)
    | Unsupported

  datatype Instr = Instr(op: Op, next: nat)

  datatype Program = Program(code: seq<byte>, ops: map<nat, Instr>)

  function JumpDests(p: Program): set<nat> {
    set pc | pc in p.ops && p.ops[pc].op == JumpDest
  }

  // ---- Decoding -----------------------------------------------------------------------------------------------

  function AluOf(b: byte): Op {
    if b == 0x01 then Alu(Add) else if b == 0x02 then Alu(Mul) else if b == 0x03 then Alu(Sub)
    else if b == 0x04 then Alu(Div) else if b == 0x05 then Alu(SDiv) else if b == 0x06 then Alu(Mod)
    else if b == 0x07 then Alu(SMod) else if b == 0x08 then Alu(AddMod) else if b == 0x09 then Alu(MulMod)
    else if b == 0x0b then Alu(SignExtend) else if b == 0x10 then Alu(Lt) else if b == 0x11 then Alu(Gt)
    else if b == 0x12 then Alu(SLt) else if b == 0x13 then Alu(SGt) else if b == 0x14 then Alu(Eq)
    else if b == 0x15 then Alu(IsZero) else if b == 0x16 then Alu(And) else if b == 0x17 then Alu(Or)
    else if b == 0x18 then Alu(Xor) else if b == 0x19 then Alu(Not) else if b == 0x1a then Alu(Byte)
    else if b == 0x1b then Alu(Shl) else if b == 0x1c then Alu(Shr) else if b == 0x1d then Alu(Sar)
    else Unsupported
  }

  function PlainOpOf(b: byte): Op {
    if b == 0x5f then Push0
    else if 0x80 <= b <= 0x8f then Dup(b - 0x7f)
    else if 0x90 <= b <= 0x9f then Swap(b - 0x8f)
    else if b == 0x50 then Pop
    else if b == 0x5b then JumpDest
    else if b == 0x56 then Jump
    else if b == 0x57 then JumpI
    else if b == 0x00 then Stop
    else if b == 0xf3 then Return
    else if b == 0xfd || b == 0xfe then Abort
    else if b == 0x35 then CallDataLoad
    else if b == 0x36 then CallDataSize
    else if b == 0x34 || b == 0x3d then PushZero
    else if b == 0x30 || 0x32 <= b <= 0x33 || b == 0x3a || 0x41 <= b <= 0x46 || b == 0x48 || b == 0x4a || b == 0x5a
    then Environment
    else if b == 0x38 then CodeSize
    else if b == 0x59 then MSize
    else if b == 0x51 then MLoad
    else if b == 0x52 then MStore
    else if b == 0x53 then MStore8
    else if b == 0x37 then CallDataCopy
    else if b == 0x39 then CodeCopy
    else if b == 0x5e then MCopy
    else if b == 0x20 then Keccak
    else if b == 0x0a then Exp
    else AluOf(b)
  }

  /** The immediate of a push: up to `k` bytes, fewer when the code ends first. */
  function Immediate(code: seq<byte>, at: nat, k: nat): (v: Word)
    requires at <= |code| && k <= 32
  {
    var b := code[at..Min(at + k, |code|)];
    FromBytesShort(b);
    FromBytes(b)
  }

  lemma FromBytesShort(b: seq<byte>)
    requires |b| <= 32
    ensures FromBytes(b) < TWO_256
  {
    Pow256Word();
    Pow256Monotone(|b|, 32);
  }

  lemma {:induction false} Pow256Monotone(a: nat, b: nat)
    requires a <= b
    ensures Pow256(a) <= Pow256(b)
    decreases b - a
  {
    if a < b {
      Pow256Monotone(a + 1, b);
    }
  }

  function InstrAt(code: seq<byte>, pc: nat): Instr
    requires pc < |code|
  {
    var b := code[pc];
    if 0x60 <= b <= 0x7f then Instr(Push(Immediate(code, pc + 1, b - 0x5f)), pc + 1 + (b - 0x5f))
    else Instr(PlainOpOf(b), pc + 1)
  }

  /** Where the executable part ends: the last two bytes give the length of the metadata before them. */
  function CodeEnd(code: seq<byte>): (e: int)
    ensures e <= |code|
  {
    |code| - (FromBytes(code[Max(0, |code| - 2)..]) + 2)
  }

  /** Reading on from `pc` to the end of the executable part, with `ops` already read. */
  function DecodeFrom(code: seq<byte>, pc: nat, ops: map<nat, Instr>): map<nat, Instr>
    decreases |code| - pc
  {
    if pc < CodeEnd(code) then
      var i := InstrAt(code, pc);
      DecodeFrom(code, i.next, ops[pc := i])
    else ops
  }

  predicate ValidInstr(pc: nat, i: Instr) {
    pc < i.next && (i.op.Dup? ==> i.op.n >= 1) && (i.op.Swap? ==> i.op.n >= 1)
  }

  /** What decoding guarantees about every instruction. */
  predicate ValidProgram(p: Program) {
    forall pc :: pc in p.ops ==> ValidInstr(pc, p.ops[pc])
  }

  /** Every instruction is the one the bytes at its position spell. */
  predicate ReadsFrom(code: seq<byte>, ops: map<nat, Instr>) {
    forall pc :: pc in ops ==> pc < |code| && ops[pc] == InstrAt(code, pc)
  }

  lemma InstrAtValid(code: seq<byte>, pc: nat)
    requires pc < |code|
    ensures ValidInstr(pc, InstrAt(code, pc))
  {
  }

  lemma {:induction false} DecodeFromReads(code: seq<byte>, pc: nat, ops: map<nat, Instr>)
    requires ReadsFrom(code, ops)
    ensures ReadsFrom(code, DecodeFrom(code, pc, ops))
    decreases |code| - pc
  {
    if pc < CodeEnd(code) {
      InstrAtValid(code, pc);
      DecodeFromReads(code, InstrAt(code, pc).next, ops[pc := InstrAt(code, pc)]);
    }
  }

  method Decode(code: seq<byte>) returns (p: Program)
    ensures p == Program(code, DecodeFrom(code, 0, map[]))
    ensures ValidProgram(p) && ReadsFrom(code, p.ops)
  {
    var ops: map<nat, Instr> := map[];
    var pc := 0;
    var end := CodeEnd(code);
    while pc < end
      invariant DecodeFrom(code, pc, ops) == DecodeFrom(code, 0, map[])
      decreases end - pc
    {
      var i := InstrAt(code, pc);
      InstrAtValid(code, pc);
      ops := ops[pc := i];
      pc := i.next;
    }
    p := Program(code, ops);
    DecodeFromReads(code, 0, map[]);
    forall q | q in ops ensures ValidInstr(q, ops[q]) { InstrAtValid(code, q); }
  }

  // ---- Prices ---------------------------------------------------------------------------------------------------

  /** C_mem of the Yellow Paper, Appendix H.1. */
  function MemCost(words: nat): nat {
    3 * words + words * words / 512
  }

  lemma MemCostMonotone(a: nat, b: nat)
    requires a <= b
    ensures MemCost(a) <= MemCost(b)
  {
    assert a * a <= a * b <= b * b;
  }

  function Arity(f: AluOp): nat {
    match f
    case IsZero | Not => 1
    case AddMod | MulMod => 3
    case _ => 2
  }

  function Cost(f: AluOp): nat {
    match f
    case Mul | Div | SDiv | Mod | SMod | SignExtend => 5
    case AddMod | MulMod => 8
    case _ => 3
  }

  /** EXP is charged by the byte length of the exponent. */
  function ExpCost(e: nat): nat {
    10 + 50 * ((BitLength(e) + 7) / 8)
  }

  // ---- Word arithmetic ----------------------------------------------------------------------------------------

  lemma Pow2Square(n: nat, v: nat, m: nat)
    requires Pow2(n) == v && m == 2 * n
    ensures Pow2(m) == v * v
  {
    Pow2Add(n, n);
  }

  lemma Pow2Word()
    ensures Pow2(256) == TWO_256
  {
    Pow2Square(4, 16, 8);
    Pow2Square(8, 0x100, 16);
    Pow2Square(16, 0x1_0000, 32);
    Pow2Square(32, 0x1_0000_0000, 64);
    Pow2Square(64, 0x1_0000_0000_0000_0000, 128);
    Pow2Square(128, 0x1_0000_0000_0000_0000_0000_0000_0000_0000, 256);
  }

  lemma Pow2AtMostWord(n: nat)
    requires n <= 256
    ensures Pow2(n) <= TWO_256
  {
    Pow2Word();
    Pow2Add(n, 256 - n);
    assert Pow2(n) <= Pow2(n) * Pow2(256 - n);
  }

  function Wrap(x: int): Word { x % TWO_256 }

  function Bool(b: bool): Word { if b then 1 else 0 }

  function ToSigned(x: Word): int {
    if x >= TWO_256 / 2 then x - TWO_256 else x
  }

  function Abs(x: int): nat { if x < 0 then -x else x }

  function BitAnd(x: nat, y: nat): (r: nat)
    ensures r <= x
  {
    if x == 0 || y == 0 then 0 else 2 * BitAnd(x / 2, y / 2) + (x % 2) * (y % 2)
  }

  function BitOr(x: nat, y: nat): (r: nat)
    ensures r <= x + y
  {
    if x == 0 then y else if y == 0 then x
    else 2 * BitOr(x / 2, y / 2) + (if x % 2 == 1 || y % 2 == 1 then 1 else 0)
  }

  function BitXor(x: nat, y: nat): (r: nat)
    ensures r <= BitOr(x, y)
  {
    if x == 0 then y else if y == 0 then x
    else 2 * BitXor(x / 2, y / 2) + (if x % 2 != y % 2 then 1 else 0)
  }

  lemma {:induction false} BitOrBound(x: nat, y: nat, n: nat)
    requires x < Pow2(n) && y < Pow2(n)
    ensures BitOr(x, y) < Pow2(n)
  {
    if x != 0 && y != 0 {
      BitOrBound(x / 2, y / 2, n - 1);
    }
  }

  lemma BitOrIsWord(x: Word, y: Word)
    ensures BitOr(x, y) < TWO_256
  {
    Pow2Word();
    BitOrBound(x, y, 256);
  }

  lemma DivAtMost(x: nat, d: nat)
    requires d > 0
    ensures 0 <= x / d <= x
  {
    QuotientAtMost(x / d, d, x % d);
  }

  lemma QuotientAtMost(q: nat, d: nat, r: nat)
    requires d > 0
    ensures q <= q * d + r
  {
  }

  function PowMod(a: Word, e: nat): Word {
    if e == 0 then 1 else Wrap(a * PowMod(a, e - 1))
  }

  function DivWord(x: Word, d: nat): Word
    requires d > 0
  {
    DivAtMost(x, d);
    x / d
  }

  function ModWord(x: nat, d: Word): Word {
    if d == 0 then 0 else x % d
  }

  /** Copies bit 8x+7 of y into every higher bit. */
  function SignExtended(x: Word, y: Word): Word {
    if x >= 31 then y
    else
      var bit := 8 * x + 7;
      var low := y % Pow2(bit + 1);
      Pow2AtMostWord(bit + 1);
      ModAtMost(y, Pow2(bit + 1));
      if (y / Pow2(bit)) % 2 == 1 then low + (TWO_256 - Pow2(bit + 1)) else low
  }

  lemma ModAtMost(y: nat, d: nat)
    requires d > 0
    ensures 0 <= y % d <= y && y % d < d
  {
    assert y == (y / d) * d + y % d;
    assert (y / d) * d >= 0;
  }

  /** The result of one arithmetic, comparison or bitwise instruction; `a[0]` was on top of the stack. */
  function Eval(f: AluOp, a: seq<Word>): Word
    requires |a| == Arity(f)
  {
    var x: nat := a[0];
    var y: nat := if |a| > 1 then a[1] else 0;
    match f
    case IsZero => Bool(x == 0)
    case Not => TWO_256 - 1 - x
    case Add => Wrap(x + y)
    case Mul => Wrap(x * y)
    case Sub => Wrap(x - y)
    case Div => if y == 0 then 0 else DivWord(x, y)
    case SDiv =>
      var sx, sy := ToSigned(x), ToSigned(y);
      if sy == 0 then 0
      else Wrap((Abs(sx) / Abs(sy)) * (if (sx < 0) == (sy < 0) then 1 else -1))
    case Mod => ModWord(x, y)
    case SMod =>
      var sx, sy := ToSigned(x), ToSigned(y);
      if sy == 0 then 0
      else Wrap((Abs(sx) % Abs(sy)) * (if sx >= 0 then 1 else -1))
    case AddMod => ModWord(x + y, a[2])
    case MulMod => ModWord(x * y, a[2])
    case SignExtend => SignExtended(x, y)
    case Lt => Bool(x < y)
    case Gt => Bool(x > y)
    case SLt => Bool(ToSigned(x) < ToSigned(y))
    case SGt => Bool(ToSigned(x) > ToSigned(y))
    case Eq => Bool(x == y)
    case And => BitAnd(x, y)
    case Or => BitOrIsWord(x, y); BitOr(x, y)
    case Xor => BitOrIsWord(x, y); BitXor(x, y)
    case Byte => if x >= 32 then 0 else (y / Pow2(8 * (31 - x))) % 256
    case Shl => if x >= 256 then 0 else Wrap(y * Pow2(x))
    case Shr => if x >= 256 then 0 else DivWord(y, Pow2(x))
    case Sar => Wrap(ToSigned(y) / Pow2(Min(x, 256)))
  }
}
