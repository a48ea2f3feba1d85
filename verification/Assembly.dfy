/**
 * The instruction table the other way round: what each instruction is written as, which decoding undoes, and what each
 * opcode of the tables takes and costs (pure_module_bound.py).
 */
module Assembly {
  import opened Binary
  import opened Bytes
  import opened Evm

  /** An instruction as it is written: a push of `width` bytes, or an opcode. */
  datatype Line = Wide(width: nat, v: Word) | Plain(op: Op)

  function AluByte(f: AluOp): byte {
    match f
    case Add => 0x01 case Mul => 0x02 case Sub => 0x03 case Div => 0x04 case SDiv => 0x05 case Mod => 0x06
    case SMod => 0x07 case AddMod => 0x08 case MulMod => 0x09 case SignExtend => 0x0b
    case Lt => 0x10 case Gt => 0x11 case SLt => 0x12 case SGt => 0x13 case Eq => 0x14 case IsZero => 0x15
    case And => 0x16 case Or => 0x17 case Xor => 0x18 case Not => 0x19 case Byte => 0x1a
    case Shl => 0x1b case Shr => 0x1c case Sar => 0x1d
  }

  /** The opcodes of an instruction without an immediate. */
  function Opcodes(op: Op): set<byte> {
    match op
    case Stop => {0x00}
    case Alu(f) => {AluByte(f)}
    case Exp => {0x0a}
    case Keccak => {0x20}
    case Environment => {0x30, 0x32, 0x33, 0x3a, 0x41, 0x42, 0x43, 0x44, 0x45, 0x46, 0x48, 0x4a, 0x5a}
    case PushZero => {0x34, 0x3d}
    case CallDataLoad => {0x35}
    case CallDataSize => {0x36}
    case CallDataCopy => {0x37}
    case CodeSize => {0x38}
    case CodeCopy => {0x39}
    case Pop => {0x50}
    case MLoad => {0x51}
    case MStore => {0x52}
    case MStore8 => {0x53}
    case Jump => {0x56}
    case JumpI => {0x57}
    case MSize => {0x59}
    case JumpDest => {0x5b}
    case MCopy => {0x5e}
    case Push0 => {0x5f}
    case Dup(n) => if 1 <= n <= 16 then {0x7f + n} else {}
    case Swap(n) => if 1 <= n <= 16 then {0x8f + n} else {}
    case Return => {0xf3}
    case Abort => {0xfd, 0xfe}
    case Push(_) | Unsupported => {}
  }

  lemma AluDecodesIff(b: byte, f: AluOp)
    ensures AluOf(b) == Alu(f) <==> b == AluByte(f)
    ensures 0 < AluByte(f) < 0x20 && AluByte(f) != 0x0a
  {
  }

  lemma NotAlu(b: byte)
    ensures AluOf(b).Alu? || AluOf(b).Unsupported?
    ensures b >= 0x20 || b == 0 || b == 0x0a ==> AluOf(b).Unsupported?
  {
  }

  lemma DecodesLow(b: byte, op: Op)
    requires b < 0x40 && !op.Unsupported? && !op.Push?
    ensures PlainOpOf(b) == op <==> b in Opcodes(op)
  {
    hide AluOf, AluByte;
    NotAlu(b);
    if op.Alu? {
      AluDecodesIff(b, op.f);
    }
  }

  lemma DecodesHigh(b: byte, op: Op)
    requires b >= 0x40 && !op.Unsupported? && !op.Push?
    ensures PlainOpOf(b) == op <==> b in Opcodes(op)
  {
    hide AluOf, AluByte;
    NotAlu(b);
    if op.Alu? {
      AluDecodesIff(b, op.f);
    }
  }

  /** A byte decodes to an instruction exactly when it is one of its opcodes. */
  lemma DecodesIff(b: byte, op: Op)
    requires !(0x60 <= b <= 0x7f) && !op.Unsupported? && !op.Push?
    ensures PlainOpOf(b) == op <==> b in Opcodes(op)
  {
    if b < 0x40 {
      DecodesLow(b, op);
    } else {
      DecodesHigh(b, op);
    }
  }

  /** The operands and prices of the arithmetic opcodes, opcode by opcode. */
  lemma AluTable(f: AluOp)
    ensures var b := AluByte(f);
      && Arity(f) == (if b == 0x15 || b == 0x19 then 1 else if b == 0x08 || b == 0x09 then 3 else 2)
      && Cost(f) == (if b == 0x08 || b == 0x09 then 8 else if b == 0x02 || 0x04 <= b <= 0x07 || b == 0x0b then 5 else 3)
  {
  }

  predicate Written(x: Line) {
    if x.Wide? then 1 <= x.width <= 32 && x.v < Pow256(x.width) else Opcodes(x.op) != {}
  }

  /** `code` spells the instruction at `at`. */
  ghost predicate Spells(code: seq<byte>, at: nat, x: Line) {
    && Written(x) && at < |code|
    && if x.Wide? then code[at] == 0x5f + x.width && at + 1 + x.width <= |code| && code[at + 1..at + 1 + x.width] == ToBytes(x.v, x.width)
       else code[at] in Opcodes(x.op)
  }

  function Size(x: Line): nat { if x.Wide? then 1 + x.width else 1 }

  function Meaning(x: Line): Op { if x.Wide? then Push(x.v) else x.op }

  lemma SpelledIs(code: seq<byte>, at: nat, x: Line)
    requires Spells(code, at, x)
    ensures InstrAt(code, at) == Instr(Meaning(x), at + Size(x))
  {
    if x.Wide? {
      FromToBytes(x.v, x.width);
    } else {
      NotPush(x.op, code[at]);
      DecodesIff(code[at], x.op);
    }
  }

  lemma NotPush(op: Op, b: byte)
    requires b in Opcodes(op)
    ensures !(0x60 <= b <= 0x7f) && !op.Unsupported? && !op.Push?
  {
  }

  /** `code` spells the instructions one after another from `at` up to `end`. */
  ghost predicate SpellsAll(code: seq<byte>, at: nat, end: nat, list: seq<Line>)
    decreases |list|
  {
    if list == [] then at == end
    else Spells(code, at, list[0]) && SpellsAll(code, at + Size(list[0]), end, list[1..])
  }

  /** Each instruction under the place it stands at. */
  function Placed(list: seq<Line>, at: nat, ops: map<nat, Instr>): map<nat, Instr>
    decreases |list|
  {
    if list == [] then ops
    else Placed(list[1..], at + Size(list[0]), ops[at := Instr(Meaning(list[0]), at + Size(list[0]))])
  }

  /** Decoding code that spells a list of instructions up to its metadata yields exactly them. */
  lemma {:induction false} DecodingReads(code: seq<byte>, at: nat, list: seq<Line>, ops: map<nat, Instr>)
    requires CodeEnd(code) >= 0 && SpellsAll(code, at, CodeEnd(code), list)
    ensures DecodeFrom(code, at, ops) == Placed(list, at, ops)
    decreases |list|
  {
    hide InstrAt, Spells, CodeEnd;
    if list != [] {
      SpelledIs(code, at, list[0]);
      SpelledBefore(code, at, CodeEnd(code), list);
      DecodingReads(code, at + Size(list[0]), list[1..], ops[at := InstrAt(code, at)]);
    }
  }

  lemma {:induction false} SpelledBefore(code: seq<byte>, at: nat, end: nat, list: seq<Line>)
    requires SpellsAll(code, at, end, list)
    ensures at <= end && (list != [] ==> at < end)
    decreases |list|
  {
    hide Spells;
    if list != [] {
      SpelledBefore(code, at + Size(list[0]), end, list[1..]);
    }
  }

  /** A jump may go to a byte 0x5b that is an instruction, not part of a push. */
  lemma JumpDestsIff(code: seq<byte>, ops: map<nat, Instr>, pc: nat)
    requires ReadsFrom(code, ops)
    ensures pc in JumpDests(Program(code, ops)) <==> pc in ops && code[pc] == 0x5b
  {
    hide PlainOpOf, Immediate;
    if pc in ops && !(0x60 <= code[pc] <= 0x7f) {
      DecodesIff(code[pc], JumpDest);
    }
  }

  /** The executable part is what stands before the metadata and its length. */
  lemma MetadataIsCutOff(body: seq<byte>, meta: seq<byte>, hi: byte, lo: byte)
    requires |meta| == hi * 256 + lo
    ensures CodeEnd(body + meta + [hi, lo]) == |body|
  {
    var code := body + meta + [hi, lo];
    assert code[|code| - 2..] == [hi, lo];
    assert [hi, lo][..1] == [hi] && [hi][..0] == [];
    assert FromBytes([hi]) == hi;
  }
}
