/** Big-endian byte strings and 256-bit words, as the EVM interpreters use them. */
module Bytes {
  import opened Binary

  const TWO_256: nat := 0x1_0000000000000000_0000000000000000_0000000000000000_0000000000000000

  type byte = x: int | 0 <= x < 256
  type Word = x: int | 0 <= x < TWO_256

  function Pow256(n: nat): (r: nat)
    ensures r > 0
  {
    if n == 0 then 1 else 256 * Pow256(n - 1)
  }

  lemma {:induction false} Pow256Add(a: nat, b: nat)
    ensures Pow256(a + b) == Pow256(a) * Pow256(b)
  {
    if a > 0 {
      Pow256Add(a - 1, b);
      Scale(256, Pow256(a - 1), Pow256(b));
    }
  }

  lemma Pow256Word()
    ensures Pow256(4) == 0x1_0000_0000
    ensures Pow256(28) == TWO_256 / 0x1_0000_0000
    ensures Pow256(32) == TWO_256
  {
    assert Pow256(1) == 256 && Pow256(2) == 0x1_0000;
    Pow256Add(2, 2);
    Pow256Add(4, 4);
    Pow256Add(8, 8);
    Pow256Add(16, 8);
    Pow256Add(24, 4);
    Pow256Add(16, 16);
  }

  /** The number a byte string spells, most significant byte first. */
  function FromBytes(b: seq<byte>): (v: nat)
    ensures v < Pow256(|b|)
  {
    if b == [] then 0 else FromBytes(b[..|b| - 1]) * 256 + b[|b| - 1]
  }

  function ToBytes(v: nat, n: nat): (b: seq<byte>)
    ensures |b| == n
  {
    if n == 0 then [] else ToBytes(v / 256, n - 1) + [v % 256]
  }

  lemma {:induction false} FromToBytes(v: nat, n: nat)
    requires v < Pow256(n)
    ensures FromBytes(ToBytes(v, n)) == v
  {
    if n > 0 {
      FromToBytes(v / 256, n - 1);
      var b := ToBytes(v, n);
      assert b[..|b| - 1] == ToBytes(v / 256, n - 1);
    }
  }

  lemma ScaleUp(x: nat, p: nat, y: nat, d: nat)
    ensures (x * p + y) * 256 + d == x * (256 * p) + (y * 256 + d)
  {
  }

  lemma {:induction false} FromBytesConcat(a: seq<byte>, b: seq<byte>)
    ensures FromBytes(a + b) == FromBytes(a) * Pow256(|b|) + FromBytes(b)
  {
    if b == [] {
      assert a + b == a;
    } else {
      var b' := b[..|b| - 1];
      assert (a + b)[..|a + b| - 1] == a + b';
      FromBytesConcat(a, b');
      ScaleUp(FromBytes(a), Pow256(|b'|), FromBytes(b'), b[|b| - 1]);
    }
  }

  function Zeros(n: nat): (b: seq<byte>)
    ensures |b| == n
    ensures forall i :: 0 <= i < n ==> b[i] == 0
  {
    seq(n, _ => 0)
  }

  lemma {:induction false} FromZeros(b: seq<byte>)
    requires forall i :: 0 <= i < |b| ==> b[i] == 0
    ensures FromBytes(b) == 0
  {
    if b != [] {
      FromZeros(b[..|b| - 1]);
    }
  }

  /** A byte string that is all zeros, or at most 32 bytes long, spells a word. */
  lemma FromBytesIsWord(b: seq<byte>)
    requires |b| == 32 || forall i :: 0 <= i < |b| ==> b[i] == 0
    ensures FromBytes(b) < TWO_256
  {
    if |b| == 32 {
      Pow256Word();
    } else {
      FromZeros(b);
    }
  }
}
