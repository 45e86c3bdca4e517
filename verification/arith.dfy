/** Small facts of integer arithmetic that the solver does not find on its
    own once multiplication by a variable is involved. */
module Arith {

  /** `SIZE_MAX` of a 64-bit `size_t`. */
  const SizeMax: int := 0xffff_ffff_ffff_ffff

  /** Euclidean division is determined by quotient and remainder. */
  lemma DivMod(x: int, d: int, a: int, b: int)
    requires d > 0 && 0 <= b < d && x == a * d + b
    ensures x / d == a && x % d == b
  {
    var q, r := x / d, x % d;
    assert q * d + r == x;
    assert (a - q) * d == r - b;
    MulSign(a - q, d);
  }

  /** A nonzero multiple of d is at least d in size. */
  lemma MulSign(e: int, d: int)
    requires d > 0
    ensures e >= 1 ==> e * d >= d
    ensures e <= -1 ==> e * d <= -d
  {
    if e >= 1 {
      MulLe(1, e, d);
    } else if e <= -1 {
      MulLe(e, -1, d);
    }
  }

  /** Multiplying by a non-negative factor keeps the order. */
  lemma MulLe(a: int, b: int, c: int)
    requires a <= b && c >= 0
    ensures a * c <= b * c
  {
    assert b * c - a * c == (b - a) * c;
  }

  /** One more factor adds one more summand. */
  lemma MulSucc(k: int, c: int)
    ensures (k + 1) * c == k * c + c
  {
  }
}
