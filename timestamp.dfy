/**
 * TimeStamp text (wind/TimeStamp.cpp, and the same toString in
 * src/base/TimeStamp.cpp): nanoseconds since the epoch printed as the whole
 * seconds, a point, and the sub-second part at one of four precisions, with
 * C's truncating division and printf's "%0<w>d" padding. The clock read by
 * now() and the calendar fields of toFormattedString are not modelled.
 */
module TimeStamp {
  import opened Wrappers
  import opened Numerals
  import CInt

  const NANO_SECS_PER_SECOND: nat := 1_000_000_000
  const NANO_SECS_PER_MILLISECOND: nat := 1_000_000
  const NANO_SECS_PER_MICROSECOND: nat := 1_000
  /** The size snprintf is given in toString: sizeof(buf) - 1 of a 32-byte buffer. */
  const TO_STRING_LIMIT: nat := 31

  datatype TimePrecision = SECOND | MILLI | MICRO | NANO

  predicate IsInt64(v: int)
  {
    -0x8000_0000_0000_0000 <= v < 0x8000_0000_0000_0000
  }

  /** Digits after the point: 3, 3, 6 and 9. */
  function FractionWidth(p: TimePrecision): nat
  {
    match p
    case SECOND => 3
    case MILLI => 3
    case MICRO => 6
    case NANO => 9
  }

  /** The nanoseconds one unit of the last printed digit stands for. */
  function Unit(p: TimePrecision): nat
  {
    match p
    case SECOND => NANO_SECS_PER_SECOND
    case MILLI => NANO_SECS_PER_MILLISECOND
    case MICRO => NANO_SECS_PER_MICROSECOND
    case NANO => 1
  }

  /** The whole seconds, truncated toward zero as C's division does. */
  function Seconds(ns: int): (s: int)
    ensures ns >= 0 ==> 0 <= ns - s * NANO_SECS_PER_SECOND < NANO_SECS_PER_SECOND
    ensures ns < 0 ==> -1_000_000_000 < ns - s * NANO_SECS_PER_SECOND <= 0
  {
    CInt.Div(ns, NANO_SECS_PER_SECOND)
  }

  /** The number printed after the point: zero at SECOND, else the sub-second part in units of the precision. */
  function Fraction(ns: int, p: TimePrecision): (f: int)
    ensures -1_000_000_000 < f < 1_000_000_000
    ensures ns >= 0 ==> 0 <= f
    ensures p == SECOND ==> f == 0
    ensures p == MILLI ==> -1000 < f < 1000
    ensures p == MICRO ==> -1_000_000 < f < 1_000_000
  {
    match p
    case SECOND => 0
    case MILLI => CInt.Div(CInt.Rem(ns, NANO_SECS_PER_SECOND), NANO_SECS_PER_MILLISECOND)
    case MICRO => CInt.Div(CInt.Rem(ns, NANO_SECS_PER_SECOND), NANO_SECS_PER_MICROSECOND)
    case NANO => CInt.Rem(ns, NANO_SECS_PER_SECOND)
  }

  /** toString: "<seconds>.<fraction>" with the fraction zero-padded to its width. */
  function ToString(ns: int, p: TimePrecision): (r: string)
    ensures var sec := SignedDec(Seconds(ns)); |r| > |sec| && r[..|sec|] == sec && r[|sec|] == '.'
  {
    SignedDec(Seconds(ns)) + "." + PaddedSignedDec(Fraction(ns, p), FractionWidth(p))
  }

  lemma Pow10Values()
    ensures Pow(10, 3) == 1000 && Pow(10, 6) == 1_000_000 && Pow(10, 9) == 1_000_000_000
    ensures Pow(10, 10) == 10_000_000_000 && Pow(10, 0) == 1
  {
    assert Pow(10, 3) == 1000;
    assert Pow(10, 6) == 1000 * Pow(10, 3);
    assert Pow(10, 9) == 1000 * Pow(10, 6);
  }

  /** A number of magnitude below 10^k prints in at most k digits after its sign. */
  lemma SignedDecLength(v: int, k: nat)
    requires 1 <= k && CInt.Abs(v) < Pow(10, k)
    ensures |SignedDec(v)| <= k + 1
    ensures v >= 0 ==> |SignedDec(v)| <= k
  {
    DecLength(CInt.Abs(v), k);
  }

  /** "%0<w>d" of a value of magnitude below 10^w is w characters, plus one for a sign. */
  lemma PaddedLength(v: int, w: nat)
    requires 1 <= w && CInt.Abs(v) < Pow(10, w)
    ensures v >= 0 ==> |PaddedSignedDec(v, w)| == w
    ensures |PaddedSignedDec(v, w)| <= w + 1
  {
    DecLength(CInt.Abs(v), w);
  }

  /**
   * The text always fits what snprintf may write: at most 11 characters
   * for the seconds of a 64-bit value, the point, and at most 10 for the
   * fraction, so nothing is ever cut off.
   */
  lemma ToStringFits(ns: int, p: TimePrecision)
    requires IsInt64(ns)
    ensures |ToString(ns, p)| < TO_STRING_LIMIT
  {
    Pow10Values();
    var sec := Seconds(ns);
    assert CInt.Abs(sec) < 10_000_000_000;
    SignedDecLength(sec, 10);
    var f := Fraction(ns, p);
    var w := FractionWidth(p);
    assert CInt.Abs(f) < Pow(10, 9);
    if p == NANO {
      PaddedLength(f, 9);
    } else if p == MICRO {
      PaddedLength(f, 6);
    } else {
      PaddedLength(f, 3);
    }
  }

  /** The index of the first '.', if any. */
  function DotIndex(s: string): (r: Option<nat>)
    ensures r.Some? ==> r.value < |s|
  {
    if s == [] then None
    else if s[0] == '.' then Some(0)
    else match DotIndex(s[1..])
      case None => None
      case Some(i) => Some(i + 1)
  }

  /** A dot after a prefix without one is found right after that prefix. */
  lemma {:induction false} DotAfter(a: string, b: string)
    requires forall j :: 0 <= j < |a| ==> a[j] != '.'
    ensures DotIndex(a + "." + b) == Some(|a|)
  {
    if a != [] {
      assert (a + "." + b)[1..] == a[1..] + "." + b;
      DotAfter(a[1..], b);
    }
  }

  /** sec seconds and frac units of 10^(9 - w) nanoseconds, as nanoseconds. */
  function Nanos(sec: int, frac: int, w: nat): int
    requires w <= 9
  {
    sec * NANO_SECS_PER_SECOND + frac * Pow(10, 9 - w)
  }

  /** ns cut down to whole units of the precision. */
  function Truncated(ns: int, p: TimePrecision): int
  {
    ns - ns % Unit(p)
  }

  /** Seconds digits and fraction digits as nanoseconds: the fraction digits are the leading ones of nine. */
  function Combine(secText: string, fracText: string): int
    requires |fracText| <= 9
  {
    Nanos(Value(secText, 10, DECIMAL), Value(fracText, 10, DECIMAL), |fracText|)
  }

  /** Reading a time text back: split at the first point, with at most nine digits after it. */
  function ReadBack(s: string): Option<int>
  {
    match DotIndex(s)
    case None => None
    case Some(i) => if |s| - i - 1 > 9 then None else Some(Combine(s[..i], s[i + 1..]))
  }

  /** Cutting the remainder modulo 10^9 down to whole milliseconds loses exactly ns % 1_000_000. */
  lemma TruncateMilli(ns: nat)
    ensures ns / 1_000_000_000 * 1_000_000_000 + (ns % 1_000_000_000) / 1_000_000 * 1_000_000 == ns - ns % 1_000_000
  {
    TruncateWithin(ns, 1_000_000_000, 1_000_000, 1000);
  }

  /** Cutting the remainder modulo 10^9 down to whole microseconds loses exactly ns % 1000. */
  lemma TruncateMicro(ns: nat)
    ensures ns / 1_000_000_000 * 1_000_000_000 + (ns % 1_000_000_000) / 1000 * 1000 == ns - ns % 1000
  {
    TruncateWithin(ns, 1_000_000_000, 1000, 1_000_000);
  }

  /** When small divides big, truncating to big and then the rest to small truncates to small. */
  lemma TruncateWithin(ns: nat, big: nat, small: nat, k: nat)
    requires small > 0 && k > 0 && big == k * small
    ensures ns / big * big + (ns % big) / small * small == ns - ns % small
  {
    var q, r := ns / big, ns % big;
    var a, b := r / small, r % small;
    assert ns == q * big + r;
    assert r == a * small + b;
    MulAssoc(q, k, small);
    assert ns == (q * k + a) * small + b;
    ModUnique(ns, small, q * k + a, b);
  }

  /** The seconds and the printed fraction recombine to ns truncated to the precision. */
  lemma Recombine(ns: nat, p: TimePrecision)
    ensures Nanos(Seconds(ns), Fraction(ns, p), FractionWidth(p)) == Truncated(ns, p)
  {
    Pow10Values();
    assert Seconds(ns) == ns / NANO_SECS_PER_SECOND;
    var r := ns % NANO_SECS_PER_SECOND;
    assert CInt.Rem(ns, NANO_SECS_PER_SECOND) == r;
    match p
    case SECOND =>
    case MILLI =>
      TruncateMilli(ns);
    case MICRO =>
      TruncateMicro(ns);
    case NANO =>
  }

  /** A digit text, a point and at most nine more characters read back piece by piece. */
  lemma ReadBackParts(head: string, tail: string)
    requires forall j :: 0 <= j < |head| ==> IsDigit(head[j])
    requires |tail| <= 9
    ensures ReadBack(head + "." + tail) == Some(Combine(head, tail))
  {
    var s := head + "." + tail;
    DotAfter(head, tail);
    assert s[..|head|] == head;
    assert s[|head| + 1..] == tail;
  }

  /**
   * toString reads back as ns truncated to milliseconds, microseconds or
   * whole seconds, and as ns itself at NANO.
   */
  lemma ToStringReadsBack(ns: nat, p: TimePrecision)
    ensures ReadBack(ToString(ns, p)) == Some(Truncated(ns, p))
  {
    ToStringOfNat(ns, p);
    FractionFits(ns, p);
    NumbersReadBack(Seconds(ns), Fraction(ns, p), FractionWidth(p));
    Recombine(ns, p);
  }

  /** A non-negative time stamp prints its seconds without a sign. */
  lemma ToStringOfNat(ns: nat, p: TimePrecision)
    ensures ToString(ns, p) == Dec(Seconds(ns)) + "." + PaddedSignedDec(Fraction(ns, p), FractionWidth(p))
  {
  }

  /** The fraction of a non-negative time stamp has at most as many digits as its width. */
  lemma FractionFits(ns: nat, p: TimePrecision)
    ensures Seconds(ns) >= 0 && 0 <= Fraction(ns, p) < Pow(10, FractionWidth(p))
  {
    Pow10Values();
  }

  /** Digits of sec, a point and frac padded to w digits read back as sec seconds and frac units of 10^(9 - w). */
  lemma NumbersReadBack(sec: nat, frac: nat, w: nat)
    requires 1 <= w <= 9 && frac < Pow(10, w)
    ensures ReadBack(Dec(sec) + "." + PaddedSignedDec(frac, w)) == Some(Nanos(sec, frac, w))
  {
    var head := Dec(sec);
    var tail := PaddedSignedDec(frac, w);
    PaddedLength(frac, w);
    DecIsDigits(sec);
    ReadBackParts(head, tail);
    DecimalIsTable();
    ValueOfText(sec, 10, DECIMAL);
    DecValueOfPadded(frac, w);
  }

  /** The NANO text of a non-negative time stamp reads back as exactly that time stamp. */
  lemma NanoRoundTrip(ns: nat)
    ensures ReadBack(ToString(ns, NANO)) == Some(ns)
  {
    ToStringReadsBack(ns, NANO);
  }

  /**
   * The fraction toFormattedString prints: at MILLI and MICRO the
   * remainder is first cast to int, then divided.
   */
  function FormattedFraction(ns: int, p: TimePrecision): (f: int)
    ensures -1_000_000_000 < f < 1_000_000_000
    ensures p == MILLI ==> -1000 < f < 1000
  {
    match p
    case SECOND => 0
    case MILLI => CInt.Div(CInt.ToInt32(CInt.Rem(ns, NANO_SECS_PER_SECOND)), NANO_SECS_PER_MILLISECOND)
    case MICRO => CInt.Div(CInt.ToInt32(CInt.Rem(ns, NANO_SECS_PER_SECOND)), NANO_SECS_PER_MICROSECOND)
    case NANO => CInt.Rem(ns, NANO_SECS_PER_SECOND)
  }

  /** The cast never changes the remainder, so both functions print the same fraction. */
  lemma FormattedFractionAgrees(ns: int, p: TimePrecision)
    ensures FormattedFraction(ns, p) == Fraction(ns, p)
  {
    var r := CInt.Rem(ns, NANO_SECS_PER_SECOND);
    assert -1_000_000_000 < r < 1_000_000_000;
    assert CInt.ToInt32(r) == r;
  }
}
