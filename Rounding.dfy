// `rounded(.toNearestOrEven)` applied to an exact rational n / d: the nearest
// integer, and on a tie the even one of the two nearest.
module Rounding {

  type Positive = n: int | n > 0 witness 1

  function Abs(n: int): (r: nat)
  {
    if n < 0 then -n else n
  }

  /** Round n / d to the nearest integer, ties to even. */
  function RoundHalfEven(n: int, d: Positive): (r: int)
    ensures 2 * Abs(r * d - n) <= d
    ensures 2 * Abs(r * d - n) == d ==> r % 2 == 0
  {
    var q, m := n / d, n % d;
    assert n == q * d + m && 0 <= m < d;
    assert (q + 1) * d - n == d - m;
    if 2 * m < d || (2 * m == d && q % 2 == 0) then q else q + 1
  }

  /** Two different multiples of d are at least d apart, and at least
      2 * d apart when the factors are two or more apart. */
  lemma MultiplesApart(k: int, r: int, d: Positive)
    ensures k != r ==> Abs(k * d - r * d) >= d
    ensures Abs(k - r) >= 2 ==> Abs(k * d - r * d) >= 2 * d
  {
    var a := k - r;
    assert k * d - r * d == a * d;
    if a >= 1 {
      assert a * d == d + (a - 1) * d;
      assert (a - 1) * d >= 0;
      assert a >= 2 ==> (a - 1) * d >= d;
    } else if a <= -1 {
      assert a * d == -(-a * d);
      assert -a * d == d + (-a - 1) * d;
      assert (-a - 1) * d >= 0;
      assert a <= -2 ==> (-a - 1) * d >= d;
    }
  }

  /** The linear core of uniqueness: k and r are within half of d from the
      target (distances e and f), even on a tie, and their own distance g is
      at least d (at least 2 * d two apart) unless they coincide; then they do. */
  lemma HalfwayNeighboursCoincide(k: int, r: int, e: int, f: int, g: int, d: Positive)
    requires g == e - f
    requires 2 * Abs(e) <= d && (2 * Abs(e) == d ==> k % 2 == 0)
    requires 2 * Abs(f) <= d && (2 * Abs(f) == d ==> r % 2 == 0)
    requires k != r ==> Abs(g) >= d
    requires Abs(k - r) >= 2 ==> Abs(g) >= 2 * d
    ensures k == r
  {
  }

  /** The two properties of RoundHalfEven's contract single out its result:
      any integer within half of n / d that is even on a tie is that result. */
  lemma RoundHalfEvenUnique(n: int, d: Positive, k: int)
    requires 2 * Abs(k * d - n) <= d
    requires 2 * Abs(k * d - n) == d ==> k % 2 == 0
    ensures k == RoundHalfEven(n, d)
  {
    var r := RoundHalfEven(n, d);
    MultiplesApart(k, r, d);
    HalfwayNeighboursCoincide(k, r, k * d - n, r * d - n, k * d - r * d, d);
  }

  /** No integer is strictly nearer to n / d than the rounded value. */
  lemma RoundHalfEvenNearest(n: int, d: Positive, k: int)
    ensures Abs(RoundHalfEven(n, d) * d - n) <= Abs(k * d - n)
  {
    var r := RoundHalfEven(n, d);
    MultiplesApart(k, r, d);
  }

  /** A value that is already an integer is left unchanged. */
  lemma RoundHalfEvenExact(k: int, d: Positive)
    ensures RoundHalfEven(k * d, d) == k
  {
    RoundHalfEvenUnique(k * d, d, k);
  }
}
