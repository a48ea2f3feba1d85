/** Small shared arithmetic: powers of two and binary lengths. */
module Binary {
  datatype Option<+T> = None | Some(value: T)

  function Min(a: int, b: int): int { if a < b then a else b }

  function Max(a: int, b: int): int { if a < b then b else a }

  function Pow2(n: nat): (r: nat)
    ensures r > 0
  {
    if n == 0 then 1 else 2 * Pow2(n - 1)
  }

  lemma {:induction false} Pow2Add(a: nat, b: nat)
    ensures Pow2(a + b) == Pow2(a) * Pow2(b)
  {
    if a > 0 {
      Pow2Add(a - 1, b);
      Scale(2, Pow2(a - 1), Pow2(b));
    }
  }

  lemma Scale(k: int, x: int, y: int)
    ensures k * (x * y) == (k * x) * y
  {
  }

  function BitLength(e: nat): nat {
    if e == 0 then 0 else 1 + BitLength(e / 2)
  }

  lemma {:induction false} BitLengthBound(e: nat, n: nat)
    requires e < Pow2(n)
    ensures BitLength(e) <= n
  {
    if e > 0 && n > 0 {
      BitLengthBound(e / 2, n - 1);
    }
  }
}
