/** The texts of numbers and addresses in checkpoints and logs (verify_governance.py): decimal, hex words, addresses. */
module Numerals {
  import opened Binary

  // ---- Decimal --------------------------------------------------------------------------------------------------------

  predicate IsDigit(c: char) { '0' <= c <= '9' }

  function DigitChar(d: nat): char
    requires d < 10
  {
    ('0' as int + d) as char
  }

  function DigitValue(c: char): (r: nat)
    requires IsDigit(c)
    ensures r < 10
  {
    c as int - '0' as int
  }

  function Decimal(n: nat): (r: string)
    ensures r != []
  {
    if n < 10 then [DigitChar(n)] else Decimal(n / 10) + [DigitChar(n % 10)]
  }

  predicate AllDigits(s: string) { forall i :: 0 <= i < |s| ==> IsDigit(s[i]) }

  function ParseDecimal(s: string): nat
    requires AllDigits(s)
  {
    if s == [] then 0 else 10 * ParseDecimal(s[..|s| - 1]) + DigitValue(s[|s| - 1])
  }

  /** A number's text has only digits, no leading zero unless it is zero, and reads back as the number. */
  lemma {:induction false} DecimalReadsBack(n: nat)
    ensures AllDigits(Decimal(n)) && ParseDecimal(Decimal(n)) == n && (Decimal(n)[0] == '0' <==> n == 0)
  {
    if n < 10 {
      assert Decimal(n)[..0] == [];
      assert ParseDecimal([]) == 0;
    } else {
      DecimalReadsBack(n / 10);
      assert Decimal(n)[..|Decimal(n)| - 1] == Decimal(n / 10);
    }
  }

  /** A pool ID as text: no leading zero, below 2**64. Zero has no such text. */
  predicate IsPoolText(s: string) { s != [] && AllDigits(s) && s[0] != '0' && ParseDecimal(s) < POOL_LIMIT }

  const POOL_LIMIT: nat := 0x1_0000_0000_0000_0000

  function ParsePool(s: string): Option<nat> {
    if IsPoolText(s) then Some(ParseDecimal(s)) else None
  }

  /** A pool's text is accepted exactly when the pool is not zero, and reads back as the pool. */
  lemma PoolReadsBack(pool: nat)
    requires pool < POOL_LIMIT
    ensures ParsePool(Decimal(pool)) == if pool == 0 then None else Some(pool)
  {
    DecimalReadsBack(pool);
  }

  lemma {:induction false} DecimalOfParsed(s: string)
    requires s != [] && AllDigits(s) && (s[0] != '0' || |s| == 1)
    ensures Decimal(ParseDecimal(s)) == s && (ParseDecimal(s) == 0 <==> s == "0")
  {
    var front := s[..|s| - 1];
    assert s == front + [s[|s| - 1]];
    if front == [] {
      assert ParseDecimal(front) == 0;
    } else {
      DecimalOfParsed(front);
    }
  }

  /** The texts accepted for a pool are exactly the decimal texts of the pools below 2**64 other than zero. */
  lemma PoolTextIff(s: string, pool: nat)
    ensures ParsePool(s) == Some(pool) <==> 0 < pool < 0x1_0000_0000_0000_0000 && s == Decimal(pool)
  {
    DecimalReadsBack(pool);
    if IsPoolText(s) {
      DecimalOfParsed(s);
    }
  }

  // ---- Hex --------------------------------------------------------------------------------------------------------------

  predicate IsHex(c: char) { IsDigit(c) || 'a' <= c <= 'f' || 'A' <= c <= 'F' }

  function Lower(c: char): char {
    if 'A' <= c <= 'Z' then (c as int + 32) as char else c
  }

  function HexValue(c: char): (r: nat)
    requires IsHex(c)
    ensures r < 16
  {
    if IsDigit(c) then c as int - '0' as int else Lower(c) as int - 'a' as int + 10
  }

  function HexChar(d: nat): (c: char)
    requires d < 16
    ensures IsHex(c) && HexValue(c) == d && Lower(c) == c
  {
    if d < 10 then ('0' as int + d) as char else ('a' as int + d - 10) as char
  }

  predicate AllHex(s: string) { forall i :: 0 <= i < |s| ==> IsHex(s[i]) }

  function LowerAll(s: string): (r: string)
    ensures |r| == |s| && forall i :: 0 <= i < |s| ==> r[i] == Lower(s[i])
  {
    seq(|s|, i requires 0 <= i < |s| => Lower(s[i]))
  }

  function Pow16(n: nat): (r: nat)
    ensures r >= 1
  {
    if n == 0 then 1 else 16 * Pow16(n - 1)
  }

  function HexDigits(n: nat, width: nat): (r: string)
    ensures |r| == width && AllHex(r)
  {
    if width == 0 then [] else HexDigits(n / 16, width - 1) + [HexChar(n % 16)]
  }

  function ParseHex(s: string): nat
    requires AllHex(s)
  {
    if s == [] then 0 else 16 * ParseHex(s[..|s| - 1]) + HexValue(s[|s| - 1])
  }

  lemma {:induction false} HexReadsBack(n: nat, width: nat)
    requires n < Pow16(width)
    ensures ParseHex(HexDigits(n, width)) == n
  {
    if width > 0 {
      HexReadsBack(n / 16, width - 1);
      assert HexDigits(n, width)[..width - 1] == HexDigits(n / 16, width - 1);
    }
  }

  lemma {:induction false} ParseHexBound(s: string)
    requires AllHex(s)
    ensures ParseHex(s) < Pow16(|s|)
  {
    if s != [] {
      ParseHexBound(s[..|s| - 1]);
    }
  }

  predicate HexText(s: string, digits: nat) { |s| == digits + 2 && s[..2] == "0x" && AllHex(s[2..]) }

  /** A 256-bit word as 64 hex digits. */
  function ParseWord(s: string): Option<nat> {
    if HexText(s, 64) then Some(ParseHex(s[2..])) else None
  }

  predicate IsWord(n: nat) { n < Pow16(64) }

  function HexWord(n: nat): string { "0x" + HexDigits(n, 64) }

  lemma WordReadsBack(n: nat)
    requires IsWord(n)
    ensures ParseWord(HexWord(n)) == Some(n)
  {
    assert HexWord(n)[2..] == HexDigits(n, 64);
    HexReadsBack(n, 64);
  }

  lemma ParsedIsWord(s: string)
    ensures ParseWord(s).Some? ==> IsWord(ParseWord(s).value)
  {
    if HexText(s, 64) {
      ParseHexBound(s[2..]);
    }
  }

  const HEX_CHARS: string := "0123456789abcdefABCDEF"

  lemma HexCharIff(c: char)
    ensures IsHex(c) <==> c in HEX_CHARS
  {
    if '0' <= c <= '9' {
      assert HEX_CHARS[c as int - 48] == c;
    } else if 'a' <= c <= 'f' {
      assert HEX_CHARS[c as int - 87] == c;
    } else if 'A' <= c <= 'F' {
      assert HEX_CHARS[c as int - 49] == c;
    }
  }

  lemma HexCharOfValue(c: char)
    requires IsHex(c)
    ensures HexChar(HexValue(c)) == Lower(c)
  {
  }

  lemma DigitsStep(p: nat, v: nat, width: nat)
    requires v < 16
    ensures HexDigits(16 * p + v, width + 1) == HexDigits(p, width) + [HexChar(v)]
  {
    hide HexChar;
  }

  lemma {:induction false} DigitsOfParsed(s: string)
    requires AllHex(s)
    ensures HexDigits(ParseHex(s), |s|) == LowerAll(s)
  {
    hide HexDigits, IsHex, HexChar, HexValue, Lower;
    if s == [] {
      assert HexDigits(0, 0) == [];
    } else {
      var front, c := s[..|s| - 1], s[|s| - 1];
      DigitsOfParsed(front);
      HexCharOfValue(c);
      DigitsStep(ParseHex(front), HexValue(c), |front|);
      assert LowerAll(s) == LowerAll(front) + [Lower(c)];
    }
  }

  lemma LowerOfDigits(d: string, n: nat)
    requires AllHex(d) && LowerAll(d) == HexDigits(n, |d|) && n < Pow16(|d|)
    ensures ParseHex(d) == n
  {
    DigitsOfParsed(d);
    HexReadsBack(n, |d|);
    ParseHexBound(d);
    HexReadsBack(ParseHex(d), |d|);
  }

  /** The texts read as a word are exactly its 64 digits behind 0x, each in either case. */
  lemma WordTextIff(s: string, n: nat)
    ensures ParseWord(s) == Some(n) <==>
      && |s| == 66 && s[..2] == "0x" && (forall i :: 2 <= i < 66 ==> s[i] in HEX_CHARS)
      && IsWord(n) && LowerAll(s[2..]) == HexDigits(n, 64)
  {
    hide IsWord, LowerAll, HexDigits, ParseHex;
    forall c: char ensures IsHex(c) <==> c in HEX_CHARS { HexCharIff(c); }
    if |s| == 66 {
      var d := s[2..];
      assert AllHex(d) <==> forall i :: 2 <= i < 66 ==> s[i] in HEX_CHARS by {
        assert forall i :: 2 <= i < 66 ==> s[i] == d[i - 2];
      }
      if HexText(s, 64) {
        DigitsOfParsed(d);
        ParsedIsWord(s);
        if IsWord(n) && LowerAll(d) == HexDigits(n, 64) {
          WordBound(n);
          LowerOfDigits(d, n);
        }
      }
    }
  }

  lemma WordBound(n: nat)
    ensures IsWord(n) <==> n < Pow16(64)
  {
  }

  // ---- Addresses -------------------------------------------------------------------------------------------------------------

  /** A lower-case address, as the replay keeps them. */
  predicate IsAddress(s: string) { HexText(s, 40) && forall i :: 0 <= i < |s| ==> Lower(s[i]) == s[i] }

  function ParseAddress(s: string): (r: Option<string>)
    ensures r.Some? ==> IsAddress(r.value)
  {
    if HexText(s, 40) then
      assert LowerAll(s)[..2] == "0x" && AllHex(LowerAll(s)[2..]);
      Some(LowerAll(s))
    else None
  }

  lemma AddressReadsBack(a: string)
    requires IsAddress(a)
    ensures ParseAddress(a) == Some(a)
  {
    assert LowerAll(a) == a;
  }

  lemma LowerIsAddress(digits: string)
    requires |digits| == 40 && AllHex(digits)
    ensures IsAddress("0x" + LowerAll(digits))
  {
    var a := "0x" + LowerAll(digits);
    assert a[2..] == LowerAll(digits) && AllHex(a[2..]);
    assert forall i :: 2 <= i < |a| ==> a[i] == a[2..][i - 2];
  }

  lemma LastDigits(s: string)
    requires HexText(s, 64)
    ensures |s[26..]| == 40 && AllHex(s[26..])
  {
    assert s[26..] == s[2..][24..];
  }

  /** The address in an indexed topic: a word below 2**160. */
  function TopicAddress(s: string): (r: Option<string>)
    ensures r.Some? ==> IsAddress(r.value)
  {
    var w := ParseWord(s);
    if w.Some? && w.value < Pow16(40) then
      LastDigits(s);
      LowerIsAddress(s[26..]);
      Some("0x" + LowerAll(s[26..]))
    else None
  }

  lemma {:induction false} LeadingZeros(s: string, n: nat)
    requires AllHex(s) && n <= |s|
    ensures ParseHex(s) < Pow16(n) <==> forall i :: 0 <= i < |s| - n ==> s[i] == '0'
    decreases |s|
  {
    if |s| == n {
      ParseHexBound(s);
    } else {
      var front, c := s[..|s| - 1], s[|s| - 1];
      if n == 0 {
        LeadingZeros(front, 0);
        assert HexValue(c) == 0 <==> c == '0';
        assert s == front + [c];
      } else {
        LeadingZeros(front, n - 1);
        assert forall i :: 0 <= i < |s| - n ==> s[i] == front[i];
      }
    }
  }

  /** An indexed topic names an address exactly when its 12 leading bytes are zero: the one of the other 20. */
  lemma TopicAddressIff(s: string, a: string)
    ensures TopicAddress(s) == Some(a) <==>
      ParseWord(s).Some? && (forall i :: 2 <= i < 26 ==> s[i] == '0') && a == "0x" + LowerAll(s[26..])
  {
    hide ParseHex, Pow16, LowerAll;
    if HexText(s, 64) {
      LeadingZeros(s[2..], 40);
      assert forall i :: 2 <= i < 26 ==> s[i] == s[2..][i - 2];
      assert (forall i :: 0 <= i < 24 ==> s[2..][i] == '0') <==> (forall i :: 2 <= i < 26 ==> s[i] == '0') by {
        assert forall i :: 0 <= i < 24 ==> s[2..][i] == s[i + 2];
      }
    }
  }

  /** The texts of an address are its 40 digits behind 0x, each in either case; the replay keeps them lower. */
  lemma AddressTextIff(s: string, a: string)
    ensures ParseAddress(s) == Some(a) <==>
      |s| == 42 && s[..2] == "0x" && (forall i :: 2 <= i < 42 ==> s[i] in HEX_CHARS) && a == LowerAll(s)
  {
    hide LowerAll;
    forall c: char ensures IsHex(c) <==> c in HEX_CHARS { HexCharIff(c); }
    if |s| == 42 {
      assert AllHex(s[2..]) <==> forall i :: 2 <= i < 42 ==> s[i] in HEX_CHARS by {
        assert forall i :: 2 <= i < 42 ==> s[i] == s[2..][i - 2];
      }
    }
  }

  // ---- Route keys ----------------------------------------------------------------------------------------------------------------

  /** The text before the first colon and the text after it. */
  function Partition(s: string): (string, string) {
    if s == [] then ([], [])
    else if s[0] == ':' then ([], s[1..])
    else
      var (head, tail) := Partition(s[1..]);
      ([s[0]] + head, tail)
  }

  lemma {:induction false} PartitionUndoes(a: string, b: string)
    requires ':' !in a
    ensures Partition(a + ":" + b) == (a, b)
  {
    if a == [] {
      assert (a + ":" + b)[1..] == b;
    } else {
      assert a == [a[0]] + a[1..] && a[0] in a;
      PartitionUndoes(a[1..], b);
      assert (a + ":" + b)[1..] == a[1..] + ":" + b;
    }
  }
}
