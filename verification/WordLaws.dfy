/**
 * What the word operations compute, apart from how: laws that each determine the operation they are about (the arithmetic
 * of pure_module_bound.py and concrete_oracle.py).
 */
module WordLaws {
  import opened Binary
  import opened Bytes
  import opened Evm

  const MAX: Word := TWO_256 - 1

  // ---- Division --------------------------------------------------------------------------------------------------------

  lemma OneQuotient(q: int, r: int, d: int)
    requires 0 <= r < d
    ensures (q * d + r) / d == q && (q * d + r) % d == r
  {
    var x := q * d + r;
    var p, t := x / d, x % d;
    assert x == p * d + t;
    if p > q {
      Apart(p, q, d);
    } else if q > p {
      Apart(q, p, d);
    }
  }

  lemma Apart(p: int, q: int, d: int)
    requires p > q && d > 0
    ensures p * d >= q * d + d
  {
    assert (p - q - 1) * d >= 0;
    assert (p - q - 1) * d == p * d - q * d - d;
  }

  lemma Splits(x: int, d: int)
    requires d > 0
    ensures x == (x / d) * d + x % d && 0 <= x % d < d
  {
  }

  lemma QuotientOfQuotient(x: nat, a: nat, b: nat)
    requires a > 0 && b > 0
    ensures a * b > 0 && (x / a) / b == x / (a * b)
  {
    var q, r, t := (x / a) / b, (x / a) % b, x % a;
    Splits(x, a);
    Splits(x / a, b);
    Regroup(q, b, r, a);
    Apart(b, r, a);
    OneQuotient(q, r * a + t, a * b);
  }

  lemma Regroup(q: int, b: int, r: int, a: int)
    ensures (q * b + r) * a == q * (a * b) + r * a && a * b == b * a
  {
  }

  // ---- Addition, multiplication, powers -----------------------------------------------------------------------------------

  function Next(w: Word): Word { if w == MAX then 0 else w + 1 }

  /** Addition counts on from its first operand, around the end of the words. */
  lemma AddCounts(x: Word, y: Word)
    ensures Eval(Add, [x, 0]) == x
    ensures y < MAX ==> Eval(Add, [x, y + 1]) == Next(Eval(Add, [x, y]))
  {
  }

  lemma PlusWhole(q: int, r: int, d: int)
    requires d > 0
    ensures (q * d + r) % d == r % d
  {
    Splits(r, d);
    Gather(q, r / d, d);
    OneQuotient(q + r / d, r % d, d);
  }

  lemma Gather(a: int, b: int, d: int)
    ensures (a + b) * d == a * d + b * d
  {
  }

  lemma PlusReduced(a: int, b: int, d: int)
    requires d > 0
    ensures (a % d + b) % d == (a + b) % d
  {
    Splits(a, d);
    PlusWhole(a / d, a % d + b, d);
  }

  lemma TimesReduced(a: int, p: int, d: int)
    requires d > 0
    ensures (a * (p % d)) % d == (a * p) % d
  {
    Splits(p, d);
    Regroup(p / d, d, p % d, a);
    Swap(p / d, d, a, p % d, p);
    PlusWhole((p / d) * a, a * (p % d), d);
  }

  lemma Swap(q: int, d: int, a: int, r: int, p: int)
    requires (q * d + r) * a == q * (a * d) + r * a && p == q * d + r
    ensures a * p == (q * a) * d + a * r
  {
    assert a * p == p * a && a * r == r * a;
    assert q * (a * d) == (q * a) * d;
  }

  lemma WrapsOnce(a: int, b: int)
    ensures Wrap(Wrap(a) + b) == Wrap(a + b)
  {
    PlusReduced(a, b, TWO_256);
  }

  /** Multiplication adds its first operand as often as its second says. */
  lemma MulRepeatsAdd(x: Word, y: Word)
    ensures Eval(Mul, [x, 0]) == 0
    ensures y < MAX ==> Eval(Mul, [x, y + 1]) == Eval(Add, [Eval(Mul, [x, y]), x])
  {
    assert x * (y + 1) == x * y + x;
    WrapsOnce(x * y, x);
  }

  /** The power of a word, reduced at every step, is the power of the number, reduced once. */
  function Power(a: nat, e: nat): nat { if e == 0 then 1 else a * Power(a, e - 1) }

  lemma {:induction false} ExpIsPower(a: Word, e: nat)
    ensures PowMod(a, e) == Wrap(Power(a, e))
  {
    if e > 0 {
      ExpIsPower(a, e - 1);
      TimesWrapped(a, Power(a, e - 1));
    }
  }

  lemma TimesWrapped(a: int, p: int)
    ensures Wrap(a * Wrap(p)) == Wrap(a * p)
  {
    TimesReduced(a, p, TWO_256);
  }

  lemma AddsWhole(q: int, r: int)
    ensures Wrap(q * TWO_256 + r) == Wrap(r)
  {
    PlusWhole(q, r, TWO_256);
  }

  lemma SubUndoesAdd(x: Word, y: Word)
    ensures Eval(Sub, [Eval(Add, [x, y]), y]) == x
  {
  }

  // ---- Division and remainder ------------------------------------------------------------------------------------------------

  /** Quotient times divisor plus remainder is the dividend, the remainder below the divisor; by zero both are zero. */
  lemma DivMod(x: Word, y: Word)
    ensures var q, r := Eval(Div, [x, y]), Eval(Mod, [x, y]);
      if y == 0 then q == 0 && r == 0 else q * y + r == x && r < y
  {
  }

  const HALF: int := TWO_256 / 2

  /** The signed value lies in the signed range and differs from the word by nothing or by 2^256. */
  lemma SignedIs(x: Word)
    ensures -HALF <= ToSigned(x) < HALF && (ToSigned(x) == x || ToSigned(x) == x - TWO_256)
  {
  }

  lemma SignedOfWrap(v: int)
    requires -HALF <= v < HALF
    ensures ToSigned(Wrap(v)) == v
  {
    if v < 0 {
      OneQuotient(-1, v + TWO_256, TWO_256);
    } else {
      OneQuotient(0, v, TWO_256);
    }
  }

  lemma Times(a: nat, b: nat, q: nat, r: nat)
    requires b > 0 && a == q * b + r && 0 <= r < b
    ensures q <= a && (b > 1 && a > 0 ==> q < a)
  {
    assert q * b >= q;
    if b > 1 {
      assert q * b >= q * 2;
    }
  }

  lemma SignedProduct(sx: int, sy: int, q: int, r: int)
    requires Abs(sx) == q * Abs(sy) + r
    ensures var sq, sr := q * (if (sx < 0) == (sy < 0) then 1 else -1), r * (if sx >= 0 then 1 else -1); sx == sq * sy + sr
  {
  }

  /** The remainder is smaller than the divisor and has the sign of the dividend; the quotient that is no signed value wraps. */
  predicate Truncates(sx: int, sy: int, q: int, r: int) {
    if sy == 0 then q == 0 && r == 0
    else if sx == -HALF && sy == -1 then q == -HALF && r == 0
    else sx == q * sy + r && Abs(r) < Abs(sy) && (r == 0 || (r < 0 <==> sx < 0))
  }

  lemma Divided(sx: int, sy: int)
    requires sy != 0
    ensures var q, r := Abs(sx) / Abs(sy), Abs(sx) % Abs(sy); q >= 0 && 0 <= r < Abs(sy) && Abs(sx) == q * Abs(sy) + r
  {
    Splits(Abs(sx), Abs(sy));
    DivAtMost(Abs(sx), Abs(sy));
  }

  lemma SignedParts(x: Word, y: Word, q: nat, r: nat)
    requires var sx, sy := ToSigned(x), ToSigned(y); sy != 0 && q == Abs(sx) / Abs(sy) && r == Abs(sx) % Abs(sy)
    ensures Eval(SDiv, [x, y]) == Wrap(q * (if (ToSigned(x) < 0) == (ToSigned(y) < 0) then 1 else -1))
    ensures Eval(SMod, [x, y]) == Wrap(r * (if ToSigned(x) >= 0 then 1 else -1))
  {
    hide ToSigned, Wrap, Abs;
  }

  lemma TruncatesIs(sx: int, sy: int, q: nat, r: nat)
    requires -HALF <= sx < HALF && -HALF <= sy < HALF && sy != 0 && Abs(sx) == q * Abs(sy) + r && r < Abs(sy)
    ensures Truncates(sx, sy, ToSigned(Wrap(q * (if (sx < 0) == (sy < 0) then 1 else -1))), ToSigned(Wrap(r * (if sx >= 0 then 1 else -1))))
  {
    hide ToSigned, Wrap;
    SignedProduct(sx, sy, q, r);
    Times(Abs(sx), Abs(sy), q, r);
    SignedOfWrap(r * (if sx >= 0 then 1 else -1));
    if sx == -HALF && sy == -1 {
      MinimumWraps(q);
    } else {
      QuotientIsSigned(sx, sy, q, r);
      SignedOfWrap(q * (if (sx < 0) == (sy < 0) then 1 else -1));
    }
  }

  lemma MinimumWraps(q: nat)
    requires q == HALF
    ensures ToSigned(Wrap(q * 1)) == -HALF
  {
    OneQuotient(0, q, TWO_256);
  }

  /** Signed division truncates towards zero. */
  lemma SignedDivMod(x: Word, y: Word)
    ensures Truncates(ToSigned(x), ToSigned(y), ToSigned(Eval(SDiv, [x, y])), ToSigned(Eval(SMod, [x, y])))
  {
    SignedIs(x);
    SignedIs(y);
    if ToSigned(y) != 0 {
      hide Eval, Wrap, ToSigned, Truncates;
      Divided(ToSigned(x), ToSigned(y));
      var q: nat, r: nat := Abs(ToSigned(x)) / Abs(ToSigned(y)), Abs(ToSigned(x)) % Abs(ToSigned(y));
      SignedParts(x, y, q, r);
      TruncatesIs(ToSigned(x), ToSigned(y), q, r);
    }
  }

  lemma QuotientIsSigned(sx: int, sy: int, q: nat, r: nat)
    requires -HALF <= sx < HALF && sy != 0 && !(sx == -HALF && sy == -1)
    requires Abs(sx) == q * Abs(sy) + r && r < Abs(sy)
    ensures -HALF <= q * (if (sx < 0) == (sy < 0) then 1 else -1) < HALF
  {
    Times(Abs(sx), Abs(sy), q, r);
  }

  /** The reduced sum or product is below the modulus and differs from the unreduced one by a multiple of it. */
  lemma ModularLaws(x: Word, y: Word, m: Word)
    ensures var s, p := Eval(AddMod, [x, y, m]), Eval(MulMod, [x, y, m]);
      if m == 0 then s == 0 && p == 0
      else s < m && p < m && (exists k: nat :: x + y == k * m + s) && exists k: nat :: x * y == k * m + p
  {
    if m > 0 {
      Splits(x + y, m);
      Splits(x * y, m);
      DivAtMost(x + y, m);
      DivAtMost(x * y, m);
      var j: nat, k: nat := (x + y) / m, (x * y) / m;
      assert x + y == j * m + Eval(AddMod, [x, y, m]);
      assert x * y == k * m + Eval(MulMod, [x, y, m]);
    }
  }

  // ---- Comparisons -------------------------------------------------------------------------------------------------------------

  /** Comparisons yield 0 or 1, and follow the orders on words and on signed values. */
  lemma Comparisons(x: Word, y: Word)
    ensures forall f :: f in {Lt, Gt, SLt, SGt, Eq} ==> Eval(f, [x, y]) in {0, 1}
    ensures Eval(Lt, [x, y]) + Eval(Eq, [x, y]) + Eval(Gt, [x, y]) == 1 == Eval(SLt, [x, y]) + Eval(Eq, [x, y]) + Eval(SGt, [x, y])
    ensures Eval(Lt, [x, y]) == 1 <==> x < y
    ensures Eval(SLt, [x, y]) == 1 <==> ToSigned(x) < ToSigned(y)
    ensures Eval(Gt, [x, y]) == Eval(Lt, [y, x]) && Eval(SGt, [x, y]) == Eval(SLt, [y, x])
    ensures Eval(IsZero, [x]) == Eval(Eq, [x, 0])
  {
  }

  // ---- Bits ----------------------------------------------------------------------------------------------------------------------

  /** Bit `i` of a number, the lowest being bit 0. */
  predicate Bit(x: nat, i: nat)
    decreases i
  {
    if i == 0 then x % 2 == 1 else Bit(x / 2, i - 1)
  }

  lemma {:induction false} ZeroBits(i: nat)
    ensures !Bit(0, i)
  {
    if i > 0 {
      ZeroBits(i - 1);
    }
  }

  /** A low part of `n` bits and what stands above it. */
  lemma {:induction false} BitJoin(lo: nat, n: nat, hi: nat, i: nat)
    requires lo < Pow2(n)
    ensures Bit(lo + Pow2(n) * hi, i) == if i < n then Bit(lo, i) else Bit(hi, i - n)
    decreases n
  {
    if n > 0 {
      var t := Pow2(n - 1) * hi;
      assert Pow2(n) * hi == 2 * t;
      assert (lo + 2 * t) / 2 == lo / 2 + t && (lo + 2 * t) % 2 == lo % 2;
      if i > 0 {
        BitJoin(lo / 2, n - 1, hi, i - 1);
      }
    }
  }

  lemma ShiftedDown(x: nat, n: nat, i: nat)
    ensures x / Pow2(n) >= 0 && Bit(x / Pow2(n), i) == Bit(x, i + n)
  {
    Splits(x, Pow2(n));
    DivAtMost(x, Pow2(n));
    BitJoin(x % Pow2(n), n, x / Pow2(n), i + n);
  }

  lemma Truncated(x: nat, n: nat, i: nat)
    ensures Bit(x % Pow2(n), i) == (i < n && Bit(x, i))
  {
    Splits(x, Pow2(n));
    DivAtMost(x, Pow2(n));
    BitJoin(x % Pow2(n), n, x / Pow2(n), i);
    BitJoin(x % Pow2(n), n, 0, i);
    if i >= n {
      ZeroBits(i - n);
    }
  }

  lemma ShiftedUp(x: nat, n: nat, i: nat)
    ensures Bit(x * Pow2(n), i) == (i >= n && Bit(x, i - n))
  {
    BitJoin(0, n, x, i);
    if i < n {
      ZeroBits(i);
    }
  }

  lemma {:induction false} OnesBits(n: nat, i: nat)
    requires i < n
    ensures Bit(Pow2(n) - 1, i)
    decreases i
  {
    assert (Pow2(n) - 1) / 2 == Pow2(n - 1) - 1;
    if i > 0 {
      OnesBits(n - 1, i - 1);
    }
  }

  /** A number below 2^n is fixed by its first n bits. */
  lemma {:induction false} BitsDecide(x: nat, y: nat, n: nat)
    requires x < Pow2(n) && y < Pow2(n) && forall i :: 0 <= i < n ==> Bit(x, i) == Bit(y, i)
    ensures x == y
  {
    if n > 0 {
      assert Bit(x, 0) == Bit(y, 0);
      forall i | 0 <= i < n - 1 ensures Bit(x / 2, i) == Bit(y / 2, i) {
        assert Bit(x, i + 1) == Bit(y, i + 1);
      }
      BitsDecide(x / 2, y / 2, n - 1);
    }
  }

  /** So a word is fixed by its 256 bits, and each law below determines its operation. */
  lemma WordBitsDecide(x: Word, y: Word)
    requires forall i :: 0 <= i < 256 ==> Bit(x, i) == Bit(y, i)
    ensures x == y
  {
    Pow2Word();
    BitsDecide(x, y, 256);
  }

  lemma {:induction false} AndBits(x: nat, y: nat, i: nat)
    ensures Bit(BitAnd(x, y), i) == (Bit(x, i) && Bit(y, i))
    decreases i
  {
    if x == 0 || y == 0 {
      ZeroBits(i);
    } else if i > 0 {
      AndBits(x / 2, y / 2, i - 1);
      assert BitAnd(x, y) / 2 == BitAnd(x / 2, y / 2);
    }
  }

  lemma {:induction false} OrBits(x: nat, y: nat, i: nat)
    ensures Bit(BitOr(x, y), i) == (Bit(x, i) || Bit(y, i))
    ensures Bit(BitXor(x, y), i) == (Bit(x, i) != Bit(y, i))
    decreases i
  {
    if x == 0 || y == 0 {
      ZeroBits(i);
    } else if i > 0 {
      OrBits(x / 2, y / 2, i - 1);
      assert BitOr(x, y) / 2 == BitOr(x / 2, y / 2) && BitXor(x, y) / 2 == BitXor(x / 2, y / 2);
    }
  }

  lemma {:induction false} FlippedBits(x: nat, n: nat, i: nat)
    requires x < Pow2(n) && i < n
    ensures Bit(Pow2(n) - 1 - x, i) == !Bit(x, i)
    decreases i
  {
    var p := Pow2(n - 1);
    assert (2 * p - 1 - x) / 2 == p - 1 - x / 2 && (2 * p - 1 - x) % 2 == 1 - x % 2;
    if i > 0 {
      FlippedBits(x / 2, n - 1, i - 1);
    }
  }

  /** The bitwise operations work on every bit alone. */
  lemma Bitwise(x: Word, y: Word, i: nat)
    requires i < 256
    ensures Bit(Eval(And, [x, y]), i) == (Bit(x, i) && Bit(y, i))
    ensures Bit(Eval(Or, [x, y]), i) == (Bit(x, i) || Bit(y, i))
    ensures Bit(Eval(Xor, [x, y]), i) == (Bit(x, i) != Bit(y, i))
    ensures Bit(Eval(Not, [x]), i) == !Bit(x, i)
  {
    AndBits(x, y, i);
    OrBits(x, y, i);
    Pow2Word();
    FlippedBits(x, 256, i);
    hide Bit, BitAnd, BitOr, BitXor, Pow2;
  }

  /** A shift to the left moves every bit up, one to the right down; what leaves the word is lost, and zeros follow. */
  lemma Shifts(s: Word, y: Word, i: nat)
    requires i < 256
    ensures Bit(Eval(Shl, [s, y]), i) == (i >= s && Bit(y, i - s))
    ensures Bit(Eval(Shr, [s, y]), i) == (i + s < 256 && Bit(y, i + s))
  {
    ZeroBits(i);
    hide Bit, Pow2;
    if s < 256 {
      Pow2Word();
      ShiftedUp(y, s, i);
      Truncated(y * Pow2(s), 256, i);
      ShiftedDown(y, s, i);
      Truncated(y, 256, i + s);
      Small(y);
    }
  }

  lemma Small(y: Word)
    ensures y % TWO_256 == y
  {
  }

  /** The sign of a word is its top bit. */
  lemma SignBit(y: Word)
    ensures Bit(y, 255) <==> ToSigned(y) < 0
  {
    Pow2Word();
    assert Pow2(256) == 2 * Pow2(255);
    ShiftedDown(y, 255, 0);
    Splits(y, Pow2(255));
    TopBit(y, Pow2(255));
  }

  lemma TopBit(y: nat, p: nat)
    requires p > 0 && y < 2 * p
    ensures y / p == if y < p then 0 else 1
  {
    if y < p {
      OneQuotient(0, y, p);
    } else {
      OneQuotient(1, y - p, p);
    }
  }

  /** An arithmetic shift to the right moves every bit down and repeats the sign. */
  lemma SarBits(s: Word, y: Word, i: nat)
    requires i < 256
    ensures Bit(Eval(Sar, [s, y]), i) == Bit(y, if i + s < 256 then i + s else 255)
  {
    var t := Min(s, 256);
    SignBit(y);
    hide Bit, Pow2;
    if y < TWO_256 / 2 {
      SarOfPositive(y, t, i);
    } else {
      SarOfNegative(y, t, i);
    }
  }

  lemma SarOfPositive(y: Word, t: nat, i: nat)
    requires t <= 256 && i < 256 && !Bit(y, 255) && y < TWO_256 / 2
    ensures Bit(Wrap(y / Pow2(t)), i) == (i + t < 256 && Bit(y, i + t))
  {
    hide Bit, Pow2;
    Pow2Word();
    ShiftedDown(y, t, i);
    DivAtMost(y, Pow2(t));
    Small(y / Pow2(t));
    Small(y);
    Truncated(y, 256, i + t);
  }

  /** The word of a negative value shifted down is the word with ones above it, shifted down. */
  lemma SarOfNegative(y: Word, t: nat, i: nat)
    requires t <= 256 && i < 256 && Bit(y, 255)
    ensures Bit(Wrap((y - TWO_256) / Pow2(t)), i) == if i + t < 256 then Bit(y, i + t) else true
  {
    hide Bit, Pow2;
    Pow2Word();
    var p := Pow2(t);
    var n := y + TWO_256 * (p - 1);
    assert n == (y - TWO_256) + TWO_256 * p;
    Splits(y - TWO_256, p);
    assert n == ((y - TWO_256) / p + TWO_256) * p + (y - TWO_256) % p by {
      assert ((y - TWO_256) / p + TWO_256) * p == ((y - TWO_256) / p) * p + TWO_256 * p;
    }
    OneQuotient((y - TWO_256) / p + TWO_256, (y - TWO_256) % p, p);
    AddsWhole(1, (y - TWO_256) / p);
    assert Wrap((y - TWO_256) / p) == Wrap(n / p);
    ShiftedDown(n, t, i);
    Truncated(n / p, 256, i);
    BitJoin(y, 256, p - 1, i + t);
    if i + t >= 256 {
      OnesBits(t, i + t - 256);
    }
  }

  /** Sign extension keeps the bits up to the top one of byte `x` and repeats that one above. */
  lemma SignExtendBits(x: Word, y: Word, i: nat)
    requires i < 256
    ensures Bit(Eval(SignExtend, [x, y]), i) == Bit(y, if x < 31 && i > 8 * x + 7 then 8 * x + 7 else i)
  {
    if x < 31 {
      ExtendedBits(8 * x + 7, y, i);
    }
  }

  /** `low` with ones above its `b` bits. */
  lemma WithOnes(low: nat, b: nat, i: nat)
    requires b <= 256 && i < 256 && low < Pow2(b)
    ensures TWO_256 >= Pow2(b) && Bit(low + (TWO_256 - Pow2(b)), i) == if i < b then Bit(low, i) else true
  {
    hide Bit, Pow2;
    Pow2Word();
    Pow2Add(b, 256 - b);
    Pow2AtMostWord(b);
    var ones := Pow2(256 - b) - 1;
    assert TWO_256 - Pow2(b) == Pow2(b) * ones;
    BitJoin(low, b, ones, i);
    if i >= b {
      OnesBits(256 - b, i - b);
    }
  }

  lemma LowestBit(x: nat)
    ensures Bit(x, 0) <==> x % 2 == 1
  {
  }

  lemma ExtendedBits(bit: nat, y: Word, i: nat)
    requires bit < 255 && i < 256
    ensures var low := y % Pow2(bit + 1);
      var r := if (y / Pow2(bit)) % 2 == 1 then low + (TWO_256 - Pow2(bit + 1)) else low;
      r >= 0 && Bit(r, i) == Bit(y, if i > bit then bit else i)
  {
    hide Bit, Pow2;
    var b := bit + 1;
    ShiftedDown(y, bit, 0);
    LowestBit(y / Pow2(bit));
    Splits(y, Pow2(b));
    Truncated(y, b, i);
    WithOnes(y % Pow2(b), b, i);
  }

  lemma {:induction false} ByteOf(v: nat, n: nat, k: nat)
    requires k < n
    ensures ToBytes(v, n)[k] == (v / Pow2(8 * (n - 1 - k))) % 256
  {
    if k < n - 1 {
      ByteOf(v / 256, n - 1, k);
      var m := 8 * (n - 2 - k);
      QuotientOfQuotient(v, 256, Pow2(m));
      Pow2Add(8, m);
      assert Pow2(8) == 256;
    } else {
      assert Pow2(0) == 1;
    }
  }

  /** BYTE yields the byte of the word at that place, the first being the most significant. */
  lemma ByteIs(k: Word, y: Word)
    ensures Eval(Byte, [k, y]) == if k < 32 then ToBytes(y, 32)[k] else 0
  {
    if k < 32 {
      ByteOf(y, 32, k);
    }
  }
}
