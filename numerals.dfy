/**
 * Positional numerals: the text of a natural number in a given base, drawn
 * from a digit table, together with the reading of such text back into a
 * number. Decimal and hexadecimal output in the logging code, the time-stamp
 * text and the option parsing of the build script are all stated with these.
 */
module Numerals {
  const DECIMAL: string := "0123456789"
  const HEX_LOWER: string := "0123456789abcdef"
  const HEX_UPPER: string := "0123456789ABCDEF"

  function Pow(b: nat, k: nat): (p: nat)
    ensures b >= 1 ==> p >= 1
  {
    if k == 0 then 1 else b * Pow(b, k - 1)
  }

  /** The first `base` characters of `table` are pairwise different digits. */
  ghost predicate IsTable(base: nat, table: string)
  {
    2 <= base <= |table| &&
    forall i, j :: 0 <= i < j < base ==> table[i] != table[j]
  }

  lemma DivFacts(n: nat, b: nat)
    requires b >= 2
    ensures n % b < b && n == n / b * b + n % b
    ensures n >= b ==> 1 <= n / b < n
    ensures n < b ==> n / b == 0
  {
  }

  /** Most significant digit first, no leading zero, "0" for zero. */
  function Text(n: nat, base: nat, table: string): (s: string)
    requires 2 <= base <= |table|
    ensures 1 <= |s|
    decreases n
  {
    if n < base then [table[n]]
    else
      DivFacts(n, base);
      Text(n / base, base, table) + [table[n % base]]
  }

  /** Position of the first occurrence of `c` among digits i.. of the table, `base` when absent. */
  function DigitIndexFrom(c: char, base: nat, table: string, i: nat): (d: nat)
    requires base <= |table| && i <= base
    ensures i <= d <= base
    ensures d < base ==> table[d] == c
    ensures forall j :: i <= j < d ==> table[j] != c
    decreases base - i
  {
    if i == base then base
    else if table[i] == c then i
    else DigitIndexFrom(c, base, table, i + 1)
  }

  /** The value of digit `c`, `base` when it is not a digit. */
  function DigitValue(c: char, base: nat, table: string): (d: nat)
    requires base <= |table|
    ensures d <= base
  {
    DigitIndexFrom(c, base, table, 0)
  }

  /** Reads digits most significant first. */
  function Value(s: string, base: nat, table: string): nat
    requires base <= |table|
  {
    if s == [] then 0 else Value(s[..|s| - 1], base, table) * base + DigitValue(s[|s| - 1], base, table)
  }

  /** Every character of `s` is one of the digits. */
  predicate AllDigits(s: string, base: nat, table: string)
    requires base <= |table|
  {
    forall i :: 0 <= i < |s| ==> s[i] in table[..base]
  }

  lemma DigitValueOfDigit(d: nat, base: nat, table: string)
    requires IsTable(base, table) && d < base
    ensures DigitValue(table[d], base, table) == d
  {
  }

  /** Reading the text of `n` gives `n` back. */
  lemma {:induction false} ValueOfText(n: nat, base: nat, table: string)
    requires IsTable(base, table)
    ensures Value(Text(n, base, table), base, table) == n
    decreases n
  {
    var s := Text(n, base, table);
    if n < base {
      DigitValueOfDigit(n, base, table);
      assert s[..0] == [];
    } else {
      DivFacts(n, base);
      ValueOfText(n / base, base, table);
      DigitValueOfDigit(n % base, base, table);
      assert s[..|s| - 1] == Text(n / base, base, table);
    }
  }

  /** The text has no leading zero digit unless it is the single digit zero. */
  lemma {:induction false} TextLeadingDigit(n: nat, base: nat, table: string)
    requires IsTable(base, table)
    ensures n > 0 ==> Text(n, base, table)[0] != table[0]
    ensures n == 0 ==> Text(n, base, table) == [table[0]]
    decreases n
  {
    if n >= base {
      DivFacts(n, base);
      TextLeadingDigit(n / base, base, table);
    }
  }

  /** A number below base^k needs at most k digits. */
  lemma {:induction false} TextLength(n: nat, base: nat, table: string, k: nat)
    requires 2 <= base <= |table| && 1 <= k && n < Pow(base, k)
    ensures |Text(n, base, table)| <= k
    decreases k
  {
    if n >= base {
      DivBound(n, base, Pow(base, k - 1));
      DivFacts(n, base);
      TextLength(n / base, base, table, k - 1);
    }
  }

  lemma DivBound(n: nat, b: nat, p: nat)
    requires b >= 2 && n < b * p
    ensures n / b < p
  {
  }

  /** Leading zero digits do not change the value read. */
  lemma {:induction false} ValueOfZeroPrefix(z: nat, s: string, base: nat, table: string)
    requires IsTable(base, table)
    ensures Value(Repeat(table[0], z) + s, base, table) == Value(s, base, table)
    decreases |s|
  {
    var t := Repeat(table[0], z) + s;
    if s == [] {
      assert t == Repeat(table[0], z);
      ValueOfZeros(z, base, table);
    } else {
      assert t[..|t| - 1] == Repeat(table[0], z) + s[..|s| - 1];
      ValueOfZeroPrefix(z, s[..|s| - 1], base, table);
    }
  }

  lemma {:induction false} ValueOfZeros(z: nat, base: nat, table: string)
    requires IsTable(base, table)
    ensures Value(Repeat(table[0], z), base, table) == 0
  {
    if z > 0 {
      var t := Repeat(table[0], z);
      assert t[..|t| - 1] == Repeat(table[0], z - 1);
      ValueOfZeros(z - 1, base, table);
      DigitValueOfDigit(0, base, table);
    }
  }

  function Repeat(c: char, k: nat): (s: string)
    ensures |s| == k && forall i :: 0 <= i < k ==> s[i] == c
  {
    if k == 0 then [] else [c] + Repeat(c, k - 1)
  }

  /** Decimal text of a natural number. */
  function Dec(n: nat): string
  {
    Text(n, 10, DECIMAL)
  }

  /** printf "%d": a minus sign before the magnitude of a negative value. */
  function SignedDec(v: int): string
  {
    if v < 0 then "-" + Dec(-v) else Dec(v)
  }

  /** Left-pads `t` with '0' up to `width` characters. */
  function PadZeros(t: string, width: nat): (s: string)
    ensures |s| == if |t| >= width then |t| else width
  {
    if |t| >= width then t else Repeat('0', width - |t|) + t
  }

  /** printf "%0<width>d": zero padding goes after the sign and the width counts the sign. */
  function PaddedSignedDec(v: int, width: nat): string
  {
    if v < 0 then "-" + PadZeros(Dec(-v), if width >= 1 then width - 1 else 0)
    else PadZeros(Dec(v), width)
  }

  lemma DecimalIsTable()
    ensures IsTable(10, DECIMAL)
  {
    AscendingIsTable(10, DECIMAL);
  }

  /** A table whose first `base` characters strictly ascend repeats no digit. */
  lemma AscendingIsTable(base: nat, table: string)
    requires 2 <= base <= |table|
    requires forall k :: 0 <= k < base - 1 ==> table[k] < table[k + 1]
    ensures IsTable(base, table)
  {
    forall i, j | 0 <= i < j < base
      ensures table[i] < table[j]
    {
      Ascending(table, i, j);
    }
  }

  lemma {:induction false} Ascending(table: string, i: nat, j: nat)
    requires i < j < |table|
    requires forall k :: i <= k < j ==> table[k] < table[k + 1]
    ensures table[i] < table[j]
    decreases j - i
  {
    if i + 1 < j {
      Ascending(table, i + 1, j);
    }
  }

  /** The decimal reading of a zero-padded decimal text is the number itself. */
  lemma {:induction false} DecValueOfPadded(n: nat, width: nat)
    ensures Value(PaddedSignedDec(n, width), 10, DECIMAL) == n
  {
    DecimalIsTable();
    ValueOfText(n, 10, DECIMAL);
    var t := Dec(n);
    if |t| < width {
      ValueOfZeroPrefix(width - |t|, t, 10, DECIMAL);
    }
  }

  /** A decimal of at most k digits fits: n < 10^k gives |Dec(n)| <= k. */
  lemma {:induction false} DecLength(n: nat, k: nat)
    requires 1 <= k && n < Pow(10, k)
    ensures |Dec(n)| <= k
  {
    TextLength(n, 10, DECIMAL, k);
  }

  predicate IsDigit(c: char)
  {
    '0' <= c <= '9'
  }

  /** The decimal text of a number consists of digits only. */
  lemma {:induction false} DecIsDigits(n: nat)
    ensures forall i :: 0 <= i < |Dec(n)| ==> IsDigit(Dec(n)[i])
    decreases n
  {
    assert forall k :: 0 <= k < 10 ==> IsDigit(DECIMAL[k]);
    if n >= 10 {
      DecIsDigits(n / 10);
      assert Dec(n) == Dec(n / 10) + [DECIMAL[n % 10]];
    }
  }

  /** The remainder is the only value below the divisor that completes a multiple of it to n. */
  lemma ModUnique(n: int, d: int, m: int, b: int)
    requires d > 0 && 0 <= b < d && n == m * d + b
    ensures n % d == b
  {
    var m', b' := n / d, n % d;
    MulSub(m, m', d);
    if m > m' {
      MulAtLeast(m - m', d);
    } else if m < m' {
      MulAtLeast(m' - m, d);
      MulSub(m', m, d);
    }
  }

  lemma MulSub(x: int, y: int, d: int)
    ensures x * d - y * d == (x - y) * d
  {
  }

  lemma MulAtLeast(x: int, d: int)
    requires x >= 1 && d > 0
    ensures x * d >= d
  {
  }

  lemma MulAssoc(x: int, y: int, z: int)
    ensures x * (y * z) == (x * y) * z
  {
  }
}
