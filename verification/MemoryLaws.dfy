/**
 * What the memory instructions do to bytes, and what memory costs, apart from how either is computed (concrete_oracle.py).
 * Memory reads as zeros beyond what is allocated.
 */
module MemoryLaws {
  import opened Binary
  import opened Bytes
  import opened Evm
  import opened ConcreteOracle

  function ByteAt(m: seq<byte>, i: nat): byte { if i < |m| then m[i] else 0 }

  function BytesFrom(m: seq<byte>, at: nat, n: nat): (b: seq<byte>)
    ensures |b| == n
    ensures forall i :: 0 <= i < n ==> b[i] == ByteAt(m, at + i)
  {
    seq<byte>(n, i requires 0 <= i < n => ByteAt(m, at + i))
  }

  /** The instruction goes on with `data` written at `at`, and no other byte changed. */
  ghost predicate Writes(o: Outcome, s: State, at: nat, data: seq<byte>) {
    o.Next? && forall i: nat :: ByteAt(o.s.mem, i) == if at <= i < at + |data| then data[i - at] else ByteAt(s.mem, i)
  }

  /** It takes `n` operands off the stack and leaves `w`. */
  ghost predicate Yields(o: Outcome, s: State, n: nat, w: Word) {
    o.Next? && n <= |s.stack| && o.s.stack == Drop(s.stack, n) + [w]
  }

  ghost predicate Takes(o: Outcome, s: State, n: nat) {
    o.Next? && n <= |s.stack| && o.s.stack == Drop(s.stack, n)
  }

  function WordFrom(m: seq<byte>, at: nat): Word {
    FromBytesIsWord(BytesFrom(m, at, 32));
    FromBytes(BytesFrom(m, at, 32))
  }

  lemma ExpandedBytes(m: seq<byte>, at: nat, n: nat, i: nat)
    ensures ByteAt(Expanded(m, at, n), i) == ByteAt(m, i)
  {
  }

  lemma SplicedBytes(m: seq<byte>, at: nat, n: nat, data: seq<byte>, i: nat)
    requires at + n <= |m| && |data| == n
    ensures ByteAt(Spliced(m, at, n, data), i) == if at <= i < at + n then data[i - at] else ByteAt(m, i)
  {
  }

  lemma SameBytes(m: seq<byte>, at: nat, n: nat)
    requires at + n <= |m|
    ensures m[at..at + n] == BytesFrom(m, at, n)
  {
  }

  lemma BytesOfExpanded(m: seq<byte>, at: nat, n: nat)
    requires n > 0
    ensures Expanded(m, at, n)[at..at + n] == BytesFrom(m, at, n)
  {
    hide Expanded;
    var e := Expanded(m, at, n);
    forall i | at <= i < at + n ensures e[i] == ByteAt(m, i) {
      ExpandedBytes(m, at, n, i);
    }
  }

  lemma LoadedWord(m: seq<byte>, at: nat)
    ensures WordOf(Expanded(m, at, 32), at) == WordFrom(m, at)
  {
    BytesOfExpanded(m, at, 32);
  }

  /** MLOAD reads 32 bytes, most significant first. */
  lemma LoadReads(p: Program, cd: seq<byte>, hash: Hash, s: State)
    requires s.pc in p.ops && p.ops[s.pc].op.MLoad? && |s.stack| >= 1
    ensures var o := Step(p, cd, hash, s);
      Yields(o, s, 1, WordFrom(s.mem, Top(s.stack, 0))) && Writes(o, s, 0, [])
  {
    hide Expanded, ExpansionGas, WordOf, WordFrom;
    var at := Top(s.stack, 0);
    LoadedWord(s.mem, at);
    forall i: nat ensures ByteAt(Expanded(s.mem, at, 32), i) == ByteAt(s.mem, i) {
      ExpandedBytes(s.mem, at, 32, i);
    }
  }

  lemma ReadsBytes(cd: seq<byte>, at: nat)
    ensures LoadWord(cd, at) == WordFrom(cd, at)
  {
    if at <= |cd| {
      assert Rd(cd, at, 32) == BytesFrom(cd, at, 32);
    } else {
      FromZeros(Rd(cd, at, 32));
      FromZeros(BytesFrom(cd, at, 32));
    }
  }

  /** So does CALLDATALOAD, from calldata padded with zeros. */
  lemma CallDataLoadReads(p: Program, cd: seq<byte>, hash: Hash, s: State)
    requires s.pc in p.ops && p.ops[s.pc].op.CallDataLoad? && |s.stack| >= 1
    ensures var o := Step(p, cd, hash, s);
      Yields(o, s, 1, WordFrom(cd, Top(s.stack, 0))) && Writes(o, s, 0, [])
  {
    hide LoadWord, WordFrom;
    ReadsBytes(cd, Top(s.stack, 0));
  }

  lemma StoredBytes(m: seq<byte>, at: nat, data: seq<byte>, i: nat)
    requires data != []
    ensures ByteAt(Spliced(Expanded(m, at, |data|), at, |data|, data), i)
         == if at <= i < at + |data| then data[i - at] else ByteAt(m, i)
  {
    hide Expanded;
    SplicedBytes(Expanded(m, at, |data|), at, |data|, data, i);
    ExpandedBytes(m, at, |data|, i);
  }

  /** MSTORE writes the 32 bytes of its word, MSTORE8 its lowest byte. */
  lemma StoreWrites(p: Program, cd: seq<byte>, hash: Hash, s: State)
    requires s.pc in p.ops && (p.ops[s.pc].op.MStore? || p.ops[s.pc].op.MStore8?) && |s.stack| >= 2
    ensures var o := Step(p, cd, hash, s);
      && Takes(o, s, 2)
      && Writes(o, s, Top(s.stack, 0), if p.ops[s.pc].op.MStore? then ToBytes(Top(s.stack, 1), 32) else [Top(s.stack, 1) % 256])
  {
    hide Expanded, Spliced, ExpansionGas;
    var at: nat, val: nat := Top(s.stack, 0), Top(s.stack, 1);
    var data: seq<byte> := if p.ops[s.pc].op.MStore? then ToBytes(val, 32) else [val % 256];
    forall i: nat ensures ByteAt(Spliced(Expanded(s.mem, at, |data|), at, |data|, data), i)
                       == if at <= i < at + |data| then data[i - at] else ByteAt(s.mem, i) {
      StoredBytes(s.mem, at, data, i);
    }
  }

  /** The bytes a copy takes: of calldata, of the code, or of memory before it. */
  function Source(p: Program, cd: seq<byte>, s: State, op: Op): seq<byte> {
    if op.CallDataCopy? then cd else if op.CodeCopy? then p.code else s.mem
  }

  /** A copy from inside its source moves its bytes, zeros past its end. */
  lemma CopyWrites(p: Program, cd: seq<byte>, hash: Hash, s: State, op: Op, dst: nat, src: nat, ln: nat)
    requires s.pc in p.ops && op == p.ops[s.pc].op && (op.CallDataCopy? || op.CodeCopy? || op.MCopy?) && |s.stack| >= 3
    requires dst == Top(s.stack, 0) && src == Top(s.stack, 1) && ln == Top(s.stack, 2)
    requires ln > 0 && !op.MCopy? ==> src <= |Source(p, cd, s, op)|
    ensures var o := Step(p, cd, hash, s);
      Takes(o, s, 3) && Writes(o, s, dst, BytesFrom(Source(p, cd, s, op), src, ln))
  {
    hide CopyResult, CopyGrowthGas, Source;
    forall i: nat ensures ByteAt(CopyResult(p, cd, s, op, dst, src, ln), i)
                       == if dst <= i < dst + ln then BytesFrom(Source(p, cd, s, op), src, ln)[i - dst] else ByteAt(s.mem, i) {
      CopiedByte(p, cd, s, op, dst, src, ln, i);
    }
  }

  lemma CopiedByte(p: Program, cd: seq<byte>, s: State, op: Op, dst: nat, src: nat, ln: nat, i: nat)
    requires op.CallDataCopy? || op.CodeCopy? || op.MCopy?
    requires ln > 0 && !op.MCopy? ==> src <= |Source(p, cd, s, op)|
    ensures ByteAt(CopyResult(p, cd, s, op, dst, src, ln), i)
         == if dst <= i < dst + ln then BytesFrom(Source(p, cd, s, op), src, ln)[i - dst] else ByteAt(s.mem, i)
  {
    hide Expanded, Spliced, Rd, CodeSlice;
    var m1 := Expanded(s.mem, dst, ln);
    var m := CopyMemory(s, op, dst, src, ln);
    ExpandedBytes(s.mem, dst, ln, i);
    ExpandedBytes(m1, src, ln, i);
    if ln > 0 {
      var data := CopyData(p, cd, m, op, src, ln);
      if op.MCopy? {
        MovedBytes(s, dst, src, ln, data);
      } else {
        SlicedBytes(Source(p, cd, s, op), src, ln);
      }
      SplicedBytes(m, dst, ln, data, i);
    }
  }

  lemma MovedBytes(s: State, dst: nat, src: nat, ln: nat, data: seq<byte>)
    requires ln > 0 && data == Expanded(Expanded(s.mem, dst, ln), src, ln)[src..src + ln]
    ensures data == BytesFrom(s.mem, src, ln)
  {
    hide Expanded;
    BytesOfExpanded(Expanded(s.mem, dst, ln), src, ln);
    forall k | 0 <= k < ln ensures data[k] == ByteAt(s.mem, src + k) {
      ExpandedBytes(s.mem, dst, ln, src + k);
    }
  }

  lemma SlicedBytes(b: seq<byte>, src: nat, ln: nat)
    requires src <= |b|
    ensures Rd(b, src, ln) == BytesFrom(b, src, ln) && CodeSlice(b, src, ln) == BytesFrom(b, src, ln)
  {
    var r, c := Rd(b, src, ln), CodeSlice(b, src, ln);
    assert |r| == ln && |c| == ln;
    forall k | 0 <= k < ln ensures r[k] == ByteAt(b, src + k) && c[k] == ByteAt(b, src + k) {
    }
  }

  lemma TakenBytes(m: seq<byte>, at: nat, ln: nat)
    ensures (if ln == 0 then [] else Expanded(m, at, ln)[at..at + ln]) == BytesFrom(m, at, ln)
  {
    if ln > 0 {
      BytesOfExpanded(m, at, ln);
    }
  }

  /** RETURN yields the bytes it names. */
  lemma ReturnYields(p: Program, cd: seq<byte>, hash: Hash, s: State)
    requires s.pc in p.ops && p.ops[s.pc].op.Return? && |s.stack| >= 2
    ensures var o := Step(p, cd, hash, s); o.Done? && o.ret == BytesFrom(s.mem, Top(s.stack, 0), Top(s.stack, 1))
  {
    hide Expanded, ExpansionGas;
    TakenBytes(s.mem, Top(s.stack, 0), Top(s.stack, 1));
  }

  /** KECCAK256 hashes them. */
  lemma HashTakes(p: Program, cd: seq<byte>, hash: Hash, s: State)
    requires s.pc in p.ops && p.ops[s.pc].op.Keccak? && |s.stack| >= 2
    ensures var o := Step(p, cd, hash, s);
      Yields(o, s, 2, hash(BytesFrom(s.mem, Top(s.stack, 0), Top(s.stack, 1)))) && Writes(o, s, 0, [])
  {
    hide Expanded, ExpansionGas;
    var at, ln := Top(s.stack, 0), Top(s.stack, 1);
    TakenBytes(s.mem, at, ln);
    forall i: nat ensures ByteAt(Expanded(s.mem, at, ln), i) == ByteAt(s.mem, i) {
      ExpandedBytes(s.mem, at, ln, i);
    }
  }

  // ---- Prices ---------------------------------------------------------------------------------------------------------

  /** An access needs the fewest words that hold its last byte. */
  lemma NeededIsLeast(at: nat, n: nat, w: nat)
    ensures w >= Needed(at, n) <==> 32 * w >= at + n
  {
  }

  /** The price of memory is three for each word and the whole part of the square over 512. */
  lemma MemCostIs(w: nat)
    ensures 0 <= w * w - 512 * (MemCost(w) - 3 * w) < 512
  {
  }

  lemma {:induction false} BitLengthIs(e: nat)
    ensures e < Pow2(BitLength(e)) && (e > 0 ==> Pow2(BitLength(e) - 1) <= e)
  {
    if e > 0 {
      BitLengthIs(e / 2);
    }
  }

  /** EXP is priced by the fewest bytes that hold its exponent. */
  lemma ExpCostIs(e: nat) returns (n: nat)
    ensures ExpCost(e) == 10 + 50 * n && e < Pow2(8 * n) && (n > 0 ==> Pow2(8 * (n - 1)) <= e)
  {
    n := (BitLength(e) + 7) / 8;
    BitLengthIs(e);
    Pow2Grows(BitLength(e), 8 * n);
    if n > 0 {
      Pow2Grows(8 * (n - 1), BitLength(e) - 1);
    }
  }

  lemma {:induction false} Pow2Grows(a: nat, b: nat)
    requires a <= b
    ensures Pow2(a) <= Pow2(b)
    decreases b - a
  {
    if a < b {
      Pow2Grows(a, b - 1);
    }
  }
}
