/**
 * Endpoints of the tree as bit strings, most significant bit first, and the quantities the structural
 * dynamic programs count.
 */
module TreeBits {
  import opened Binary

  type Bits = seq<bool>

  function Bit(b: bool): nat { if b then 1 else 0 }

  /** The number a bit string spells. */
  function Val(bits: Bits): (v: nat)
    ensures v < Pow2(|bits|)
  {
    if bits == [] then 0 else 2 * Val(bits[..|bits| - 1]) + Bit(bits[|bits| - 1])
  }

  lemma {:induction false} ValConcat(a: Bits, b: Bits)
    ensures Val(a + b) == Val(a) * Pow2(|b|) + Val(b)
  {
    if b == [] {
      assert a + b == a;
    } else {
      var b' := b[..|b| - 1];
      assert (a + b)[..|a + b| - 1] == a + b';
      ValConcat(a, b');
      Shifted(Val(a), Pow2(|b'|), Val(b'), Bit(b[|b| - 1]));
    }
  }

  lemma Shifted(x: nat, p: nat, y: nat, d: nat)
    ensures 2 * (x * p + y) + d == x * (2 * p) + (2 * y + d)
  {
  }

  /** Number of zero bits. */
  function Zeros(bits: Bits): (z: nat)
    ensures z <= |bits|
  {
    if bits == [] then 0 else Zeros(bits[1..]) + Bit(!bits[0])
  }

  /** Width from the highest zero bit to the low end, 0 when there is none. */
  function HighZero(bits: Bits): (p: nat)
    ensures p <= |bits| && (p > 0 <==> Zeros(bits) > 0)
  {
    if bits == [] then 0 else if !bits[0] then |bits| else HighZero(bits[1..])
  }

  function PopCount(n: nat): nat {
    if n == 0 then 0 else PopCount(n / 2) + n % 2
  }

  /** Leaves to the right of an endpoint inside its subtree. */
  function Complement(bits: Bits): nat { Pow2(|bits|) - 1 - Val(bits) }

  lemma {:induction false} SnocCounts(bits: Bits, b: bool)
    ensures Zeros(bits + [b]) == Zeros(bits) + Bit(!b)
    ensures HighZero(bits + [b]) == if HighZero(bits) > 0 then HighZero(bits) + 1 else Bit(!b)
  {
    if bits != [] {
      assert (bits + [b])[1..] == bits[1..] + [b];
      SnocCounts(bits[1..], b);
    }
  }

  /** The complement's ones are the endpoint's zeros. */
  lemma {:induction false} ComplementCounts(bits: Bits)
    ensures BitLength(Complement(bits)) == HighZero(bits)
    ensures PopCount(Complement(bits)) == Zeros(bits)
  {
    if bits != [] {
      var front, last := bits[..|bits| - 1], bits[|bits| - 1];
      assert bits == front + [last];
      SnocCounts(front, last);
      ComplementCounts(front);
      assert Complement(bits) == 2 * Complement(front) + Bit(!last);
      assert Complement(bits) / 2 == Complement(front);
    }
  }

  // ---- Query cost ---------------------------------------------------------------------------------------------------

  /** Cost of the suffix query at a one bit above `rest`. */
  function QueryAt(rest: Bits): nat {
    if Zeros(rest) > 0 then 65 + 379 * Zeros(rest) + 133 * HighZero(rest) else 0
  }

  /** Cost of all suffix queries of an endpoint: one at each one bit with a zero bit below it. */
  function QueryCost(bits: Bits): nat {
    if bits == [] then 0 else QueryCost(bits[1..]) + (if bits[0] then QueryAt(bits[1..]) else 0)
  }

  lemma {:induction false} AllOnesFree(bits: Bits)
    requires Zeros(bits) == 0
    ensures QueryCost(bits) == 0
  {
    if bits != [] {
      AllOnesFree(bits[1..]);
    }
  }

  /** `n` is a multiple of 2^w. */
  ghost predicate Multiple(n: nat, w: nat) {
    w == 0 || (n % 2 == 0 && Multiple(n / 2, w - 1))
  }

  lemma {:induction false} MultipleOf(m: nat, w: nat)
    ensures Multiple(m * Pow2(w), w)
  {
    if w > 0 {
      MultipleOf(m, w - 1);
      Shifted(m, Pow2(w - 1), 0, 0);
      assert m * Pow2(w) == 2 * (m * Pow2(w - 1));
    }
  }

  /** One turn of the suffix loop halves the interval, reading the left index when its length is odd. */
  lemma Halving(left: nat, right: nat, w: nat)
    requires left <= right && Multiple(right + 1, w) && right + 1 - left < Pow2(w)
    ensures w > 0 && right % 2 == 1 && Multiple(right / 2 + 1, w - 1)
    ensures var left' := (left + left % 2) / 2;
      var d, d' := right + 1 - left, right / 2 + 1 - left';
      && 0 <= d' < d && d' < Pow2(w - 1)
      && BitLength(d) == 1 + BitLength(d') && PopCount(d) == PopCount(d') + left % 2
  {
    assert right / 2 + 1 == (right + 1) / 2;
  }

  /**
   * The suffix loop over segment-tree indices. The interval ends at a multiple of 2^width minus one, so `right`
   * is odd as long as the loop runs.
   */
  method SuffixLoop(left0: nat, right0: nat, ghost width: nat) returns (iterations: nat, covers: nat)
    requires Multiple(right0 + 1, width) && left0 <= right0 + 1
    requires right0 + 1 - left0 < Pow2(width)
    ensures iterations == BitLength(right0 + 1 - left0)
    ensures covers == PopCount(right0 + 1 - left0)
  {
    var left: nat, right: nat := left0, right0;
    iterations, covers := 0, 0;
    ghost var w := width;
    while left <= right
      invariant left <= right + 1 && Multiple(right + 1, w) && right + 1 - left < Pow2(w)
      invariant iterations + BitLength(right + 1 - left) == BitLength(right0 + 1 - left0)
      invariant covers + PopCount(right + 1 - left) == PopCount(right0 + 1 - left0)
      decreases right + 1 - left
    {
      Halving(left, right, w);
      iterations := iterations + 1;
      if left % 2 == 1 {
        covers := covers + 1;
        left := left + 1;
      }
      assert right % 2 == 1;
      left, right := left / 2, right / 2;
      w := w - 1;
    }
  }

  /** Shifting an offset right drops its low bits. */
  lemma HighBits(bits: Bits, depth: nat)
    requires depth <= |bits|
    ensures var p := Pow2(|bits| - depth);
      Val(bits) / p == Val(bits[..depth]) && Val(bits) == Val(bits[..depth]) * p + Val(bits[depth..])
  {
    hide Val;
    assert bits == bits[..depth] + bits[depth..];
    ValConcat(bits[..depth], bits[depth..]);
    Quotient(Val(bits[..depth]), Pow2(|bits| - depth), Val(bits[depth..]));
  }

  lemma EndIsMultiple(high: nat, depth: nat, width: nat)
    ensures Multiple(Pow2(depth + width) + (high * Pow2(width) + Pow2(width) - 1) + 1, width)
  {
    hide Multiple, Pow2;
    Pow2Add(depth, width);
    Distribute(Pow2(depth), high, Pow2(width));
    MultipleOf(Pow2(depth) + high + 1, width);
  }

  /** The last endpoint of the subtree below `depth` that holds `bits`. */
  method SubtreeEnd(bits: Bits, depth: nat) returns (end: nat)
    requires depth <= |bits|
    ensures end - Val(bits) == Complement(bits[depth..])
    ensures Multiple(Pow2(|bits|) + end + 1, |bits| - depth)
  {
    hide Val, Multiple, Pow2;
    var offset, width := Val(bits), |bits| - depth;
    HighBits(bits, depth);
    EndIsMultiple(Val(bits[..depth]), depth, width);
    var shifted := offset / Pow2(width);
    end := shifted * Pow2(width) + Pow2(width) - 1;
  }

  /** The direct count of the source, by its nested loops, equals the closed form for every height. */
  method DirectQueryCost(bits: Bits) returns (cost: nat)
    ensures cost == QueryCost(bits)
  {
    hide Val, Multiple, Pow2, QueryCost, Zeros, HighZero, BitLength;
    NothingToQuery();
    assert bits[0..] == bits && bits[|bits|..] == [];
    var h := |bits|;
    var offset := Val(bits);
    var calls: nat, iterations: nat, covers: nat := 0, 0, 0;
    var depth := 0;
    while depth < h
      invariant depth <= h
      invariant 65 * calls + 133 * iterations + 379 * covers + QueryCost(bits[depth..]) == QueryCost(bits)
    {
      var width := h - depth;
      var subtreeEnd := SubtreeEnd(bits, depth);
      ComplementCounts(bits[depth..]);
      if offset == subtreeEnd {
        AllOnesFree(bits[depth..]);
        break;
      }
      if bits[depth] {
        calls := calls + 1;
        var i, r := SuffixLoop(Pow2(h) + offset + 1, Pow2(h) + subtreeEnd, width);
        iterations, covers := iterations + i, covers + r;
      }
      QueryAtDepth(bits, depth);
      depth := depth + 1;
    }
    cost := 65 * calls + 133 * iterations + 379 * covers;
  }

  lemma NothingToQuery()
    ensures QueryCost([]) == 0
  {
  }

  lemma QueryAtDepth(bits: Bits, depth: nat)
    requires depth < |bits| && Complement(bits[depth..]) != 0
    requires PopCount(Complement(bits[depth..])) == Zeros(bits[depth..])
    ensures QueryCost(bits[depth..]) == QueryCost(bits[depth + 1..]) +
      if bits[depth] then 65 + 379 * Zeros(bits[depth..]) + 133 * HighZero(bits[depth..]) else 0
  {
    assert bits[depth..][1..] == bits[depth + 1..];
    ZerosFree(Complement(bits[depth..]));
  }

  lemma ZerosFree(n: nat)
    requires n > 0
    ensures PopCount(n) > 0
  {
  }

  lemma Distribute(a: nat, b: nat, p: nat)
    ensures (a + b + 1) * p == a * p + b * p + p
  {
  }

  lemma Quotient(q: nat, d: nat, r: nat)
    requires r < d
    ensures (q * d + r) / d == q
  {
    UniqueQuotient(q, r, (q * d + r) / d, (q * d + r) % d, d);
  }

  lemma UniqueQuotient(q: int, r: int, q': int, r': int, d: int)
    requires 0 <= r < d && 0 <= r' < d && q * d + r == q' * d + r'
    ensures q == q'
  {
    assert (q' - q) * d == r - r';
    assert (q - q') * d == r' - r;
    if q' > q {
      AtLeast(q' - q, d);
    } else if q > q' {
      AtLeast(q - q', d);
    }
  }

  lemma AtLeast(k: int, d: int)
    requires k >= 1 && d >= 0
    ensures k * d >= d
  {
  }
}
