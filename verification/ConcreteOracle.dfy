/**
 * The byte-accurate concrete interpreter (concrete_oracle.py): one path, exact memory, exact gas.
 * Keccak-256 is the parameter `hash`.
 */
module ConcreteOracle {
  import opened Binary
  import opened Bytes
  import opened Evm

  type Hash = seq<byte> -> Word

  datatype State = State(pc: nat, stack: seq<Word>, mem: seq<byte>, gas: nat)

  const Initial: State := State(0, [], [], 0)

  /** What one instruction, or a whole run, comes to. `Raised` is any other Python exception. */
  datatype Outcome =
    | Next(s: State)
    | Done(gas: nat, ret: seq<byte>)
    | Reverted
    | Raised

  /** The i-th entry from the top of the stack. */
  function Top<T>(st: seq<T>, i: nat): T
    requires i < |st|
  {
    st[|st| - 1 - i]
  }

  function Drop<T>(st: seq<T>, n: nat): seq<T>
    requires n <= |st|
  {
    st[..|st| - n]
  }

  /** The popped operands, topmost first. */
  function Popped<T>(st: seq<T>, n: nat): (a: seq<T>)
    requires n <= |st|
    ensures |a| == n
    ensures forall i :: 0 <= i < n ==> a[i] == Top(st, i)
  {
    seq(n, i requires 0 <= i < n => Top(st, i))
  }

  function Words(mem: seq<byte>): nat { |mem| / 32 }

  /** Memory words an access of `length` bytes at `offset` needs. */
  function Needed(offset: nat, length: nat): nat { (offset + length + 31) / 32 }

  function Expanded(mem: seq<byte>, offset: nat, length: nat): (m: seq<byte>)
    ensures mem <= m
    ensures length > 0 ==> offset + length <= |m|
    ensures |mem| % 32 == 0 ==> |m| % 32 == 0
    ensures |mem| % 32 == 0 ==> Words(m) == if length == 0 then Words(mem) else Max(Words(mem), Needed(offset, length))
  {
    if length == 0 || Needed(offset, length) <= Words(mem) then mem
    else mem + Zeros(32 * (Needed(offset, length) - Words(mem)))
  }

  function GrowthCost(from: nat, to: nat): nat {
    if to <= from then 0 else MemCostMonotone(from, to); MemCost(to) - MemCost(from)
  }

  /** Gas for growing memory to cover an access. */
  function ExpansionGas(mem: seq<byte>, offset: nat, length: nat): nat {
    if length == 0 then 0 else GrowthCost(Words(mem), Needed(offset, length))
  }

  /** `rd` of the source: calldata padded with zeros. Past the end it returns more than `n` bytes. */
  function Rd(cd: seq<byte>, offset: nat, n: nat): seq<byte> {
    if offset + n > |cd| then (if offset <= |cd| then cd[offset..] else []) + Zeros(offset + n - |cd|)
    else cd[offset..offset + n]
  }

  function LoadWord(cd: seq<byte>, offset: nat): Word {
    var b := Rd(cd, offset, 32);
    FromBytesIsWord(b);
    FromBytes(b)
  }

  /** The code bytes CODECOPY moves, padded in the same way. */
  function CodeSlice(code: seq<byte>, src: nat, n: nat): seq<byte> {
    (if src + n <= |code| then code[src..src + n] else if src <= |code| then code[src..] else [])
    + Zeros(Max(0, src + n - |code|))
  }

  /** Python's `mem[at:at+n] = data`: the slice is replaced whatever the length of `data`. */
  function Spliced(mem: seq<byte>, at: nat, n: nat, data: seq<byte>): seq<byte>
    requires at + n <= |mem|
  {
    mem[..at] + data + mem[at + n..]
  }

  function WordOf(mem: seq<byte>, offset: nat): Word
    requires offset + 32 <= |mem|
  {
    FromBytesIsWord(mem[offset..offset + 32]);
    FromBytes(mem[offset..offset + 32])
  }

  function Go(s: State, next: nat, stack: seq<Word>, gas: nat): Outcome {
    Next(s.(pc := next, stack := stack, gas := s.gas + gas))
  }

  function StepMemory(p: Program, s: State, i: Instr): Outcome
    requires i.op.MLoad? || i.op.MStore? || i.op.MStore8?
  {
    var st := s.stack;
    if i.op.MLoad? then
      if |st| < 1 then Raised else
      var mem := Expanded(s.mem, Top(st, 0), 32);
      Next(State(i.next, Drop(st, 1) + [WordOf(mem, Top(st, 0))], mem, s.gas + 3 + ExpansionGas(s.mem, Top(st, 0), 32)))
    else
      if |st| < 2 then Raised else
      var off, val := Top(st, 0), Top(st, 1);
      var n := if i.op.MStore? then 32 else 1;
      var data := if i.op.MStore? then ToBytes(val, 32) else [val % 256];
      var mem := Spliced(Expanded(s.mem, off, n), off, n, data);
      Next(State(i.next, Drop(st, 2), mem, s.gas + 3 + ExpansionGas(s.mem, off, n)))
  }

  /** The memory a copy works on, expanded for its destination and, for MCOPY, its source. */
  function CopyMemory(s: State, op: Op, dst: nat, src: nat, ln: nat): (m: seq<byte>)
    ensures s.mem <= m
    ensures ln > 0 ==> dst + ln <= |m|
    ensures ln > 0 && op.MCopy? ==> src + ln <= |m|
  {
    var m := Expanded(s.mem, dst, ln);
    if op.MCopy? then Expanded(m, src, ln) else m
  }

  function CopyData(p: Program, cd: seq<byte>, m: seq<byte>, op: Op, src: nat, ln: nat): seq<byte>
    requires op.MCopy? ==> src + ln <= |m|
  {
    match op
    case CallDataCopy => Rd(cd, src, ln)
    case CodeCopy => CodeSlice(p.code, src, ln)
    case _ => if op.MCopy? then m[src..src + ln] else []
  }

  /** Memory after a copy. */
  function CopyResult(p: Program, cd: seq<byte>, s: State, op: Op, dst: nat, src: nat, ln: nat): seq<byte> {
    var m := CopyMemory(s, op, dst, src, ln);
    if ln == 0 then m else Spliced(m, dst, ln, CopyData(p, cd, m, op, src, ln))
  }

  /** Gas a copy spends on growing memory. */
  function CopyGrowthGas(s: State, op: Op, dst: nat, src: nat, ln: nat): nat {
    ExpansionGas(s.mem, dst, ln) + (if op.MCopy? then ExpansionGas(Expanded(s.mem, dst, ln), src, ln) else 0)
  }

  function StepCopy(p: Program, cd: seq<byte>, s: State, i: Instr): Outcome
    requires i.op.CallDataCopy? || i.op.CodeCopy? || i.op.MCopy?
  {
    if |s.stack| < 3 then Raised
    else CopyNext(p, cd, s, i, Top(s.stack, 0), Top(s.stack, 1), Top(s.stack, 2))
  }

  function CopyNext(p: Program, cd: seq<byte>, s: State, i: Instr, dst: nat, src: nat, ln: nat): Outcome
    requires i.op.CallDataCopy? || i.op.CodeCopy? || i.op.MCopy?
    requires |s.stack| >= 3
  {
    Next(State(i.next, Drop(s.stack, 3), CopyResult(p, cd, s, i.op, dst, src, ln),
               s.gas + 3 + 3 * ((ln + 31) / 32) + CopyGrowthGas(s, i.op, dst, src, ln)))
  }

  /** One instruction. A size of 2^256 bytes or more, which no machine holds, is not a word and raises here. */
  function Step(p: Program, cd: seq<byte>, hash: Hash, s: State): Outcome {
    if s.pc !in p.ops then Raised else
    var i := p.ops[s.pc];
    var st := s.stack;
    match i.op
    case Push(v) => Go(s, i.next, st + [v], 3)
    case Push0 => Go(s, i.next, st + [0], 2)
    case Dup(n) => if n < 1 || |st| < n then Raised else Go(s, i.next, st + [Top(st, n - 1)], 3)
    case Swap(n) =>
      if |st| < n + 1 then Raised
      else Go(s, i.next, st[|st| - 1 := Top(st, n)][|st| - 1 - n := Top(st, 0)], 3)
    case Pop => if |st| < 1 then Raised else Go(s, i.next, Drop(st, 1), 2)
    case JumpDest => Go(s, i.next, st, 1)
    case Jump =>
      if |st| < 1 || Top(st, 0) !in JumpDests(p) then Raised else Go(s, Top(st, 0), Drop(st, 1), 8)
    case JumpI =>
      if |st| < 2 then Raised
      else if Top(st, 1) == 0 then Go(s, i.next, Drop(st, 2), 10)
      else if Top(st, 0) !in JumpDests(p) then Raised
      else Go(s, Top(st, 0), Drop(st, 2), 10)
    case Stop => Done(s.gas, [])
    case Return =>
      if |st| < 2 then Raised else
      var off: nat, ln: nat := Top(st, 0), Top(st, 1);
      var m := Expanded(s.mem, off, ln);
      Done(s.gas + ExpansionGas(s.mem, off, ln), if ln == 0 then [] else m[off..off + ln])
    case Abort => Reverted
    case CallDataLoad => if |st| < 1 then Raised else Go(s, i.next, Drop(st, 1) + [LoadWord(cd, Top(st, 0))], 3)
    case CallDataSize => if |cd| < TWO_256 then Go(s, i.next, st + [|cd|], 2) else Raised
    case PushZero => Go(s, i.next, st + [0], 2)
    case Environment => Raised
    case CodeSize => if |p.code| < TWO_256 then Go(s, i.next, st + [|p.code|], 2) else Raised
    case MSize => if |s.mem| < TWO_256 then Go(s, i.next, st + [|s.mem|], 2) else Raised
    case MLoad | MStore | MStore8 => StepMemory(p, s, i)
    case CallDataCopy | CodeCopy | MCopy => StepCopy(p, cd, s, i)
    case Keccak =>
      if |st| < 2 then Raised else
      var off: nat, ln: nat := Top(st, 0), Top(st, 1);
      var m := Expanded(s.mem, off, ln);
      Next(State(i.next, Drop(st, 2) + [hash(if ln == 0 then [] else m[off..off + ln])], m,
                 s.gas + 30 + 6 * ((ln + 31) / 32) + ExpansionGas(s.mem, off, ln)))
    case Exp =>
      if |st| < 2 then Raised
      else Go(s, i.next, Drop(st, 2) + [PowMod(Top(st, 0), Top(st, 1))], ExpCost(Top(st, 1)))
    case Alu(f) =>
      if |st| < Arity(f) then Raised
      else Go(s, i.next, Drop(st, Arity(f)) + [Eval(f, Popped(st, Arity(f)))], Cost(f))
    case Unsupported => Raised
  }

  /** At most `limit` further instructions from `s`. */
  function Run(p: Program, cd: seq<byte>, hash: Hash, s: State, limit: nat): (r: Outcome)
    ensures !r.Next?
    decreases limit
  {
    if limit == 0 then Raised
    else match Step(p, cd, hash, s)
         case Next(s') => Run(p, cd, hash, s', limit - 1)
         case r => r
  }

  /** `execute`: the loop over pc, stack, memory and gas. */
  method Execute(p: Program, cd: seq<byte>, hash: Hash, limit: nat) returns (r: Outcome)
    ensures r == Run(p, cd, hash, Initial, limit)
  {
    hide Step;
    var s := Initial;
    var steps := 0;
    while steps < limit
      invariant steps <= limit
      invariant Run(p, cd, hash, Initial, limit) == Run(p, cd, hash, s, limit - steps)
    {
      r := Step(p, cd, hash, s);
      if !r.Next? {
        return;
      }
      s := r.s;
      steps := steps + 1;
    }
    r := Raised;
  }

  /**
   * The copy instructions write exactly `ln` bytes if and only if nothing is copied or the source starts
   * inside the data; otherwise the Python slice assignment moves the rest of memory up.
   */
  lemma CopyKeepsMemoryLength(mem: seq<byte>, dst: nat, ln: nat, cd: seq<byte>, src: nat)
    requires 0 < ln && dst + ln <= |mem|
    ensures |Spliced(mem, dst, ln, Rd(cd, src, ln))| == |mem| <==> src <= |cd|
    ensures |Spliced(mem, dst, ln, CodeSlice(cd, src, ln))| == |mem| <==> src <= |cd|
  {
  }

  /** With one byte of calldata, copying a byte from offset 2 grows memory from 32 to 33 bytes. */
  lemma CopyPastTheEndGrowsMemory()
    ensures |Spliced(Zeros(32), 0, 1, Rd([7], 2, 1))| == 33
  {
  }
}
