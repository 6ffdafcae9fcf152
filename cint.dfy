/**
 * C and C++ integer arithmetic: division by a positive divisor, where the
 * quotient is truncated toward zero and the remainder takes the sign of the
 * dividend (Dafny's own `/` and `%` are Euclidean, so they differ on
 * negative dividends), and the conversion of a wider integer to `int`.
 */
module CInt {
  function Abs(x: int): (r: nat)
    ensures r == x || r == -x
  {
    if x < 0 then -x else x
  }

  /** Euclidean division of a non-negative number: a non-negative quotient and a remainder below b. */
  lemma DivMod(n: nat, b: int)
    requires b > 0
    ensures n / b >= 0 && 0 <= n % b < b && n == (n / b) * b + n % b
  {
  }

  lemma NegMul(x: int, b: int)
    ensures (-x) * b == -(x * b)
  {
  }

  /** `a / b` in C. */
  function Div(a: int, b: int): (q: int)
    requires b > 0
    ensures Abs(q) == Abs(a) / b
    ensures a >= 0 ==> q >= 0
    ensures a <= 0 ==> q <= 0
  {
    if a >= 0 then
      DivMod(a, b);
      a / b
    else
      DivMod(-a, b);
      -((-a) / b)
  }

  /** `a % b` in C. */
  function Rem(a: int, b: int): (r: int)
    requires b > 0
    ensures a == Div(a, b) * b + r
    ensures Abs(r) == Abs(a) % b
    ensures a >= 0 ==> 0 <= r
    ensures a <= 0 ==> r <= 0
  {
    if a >= 0 then
      DivMod(a, b);
      a % b
    else
      DivMod(-a, b);
      NegMul((-a) / b, b);
      -((-a) % b)
  }

  const INT_MIN: int := -0x8000_0000
  const INT_MAX: int := 0x7FFF_FFFF
  const U32: int := 0x1_0000_0000

  /**
   * static_cast<int> of a wider integer, as GCC and Clang define it: the
   * value modulo 2^32 read as a signed 32-bit number.
   */
  function ToInt32(x: int): (r: int)
    ensures INT_MIN <= r <= INT_MAX
    ensures (x - r) % U32 == 0
    ensures INT_MIN <= x <= INT_MAX ==> r == x
  {
    var m := x % U32;
    if m > INT_MAX then m - U32 else m
  }
}
