/** Draws from the C library generator random(), passed to the model as explicit values. */
module Random {

  /** The largest value random() returns (2^31 - 1). */
  const RANDOM_MAX: int := 0x7fff_ffff

  /** A value random() can return. */
  predicate IsDraw(d: int) {
    0 <= d <= RANDOM_MAX
  }

  /** At least n values random() can return. */
  predicate IsDraws(ds: seq<int>, n: nat) {
    n <= |ds| && forall i :: 0 <= i < |ds| ==> IsDraw(ds[i])
  }

  function Abs(n: int): nat {
    if n < 0 then -n else n
  }

  /** C's `%`: division truncates toward zero, so a non-zero remainder has the sign of the dividend. */
  function CRem(a: int, n: int): (r: int)
    requires n != 0
    ensures Abs(r) < Abs(n)
    ensures a >= 0 ==> r >= 0
    ensures a <= 0 ==> r <= 0
    ensures exists q :: a == q * n + r
  {
    CRemQuotient(a, n);
    if a >= 0 then a % Abs(n) else -((-a) % Abs(n))
  }

  /** The truncated remainder leaves a multiple of n: the quotient is |a| / |n| with the signs of a and n applied. */
  lemma CRemQuotient(a: int, n: int)
    requires n != 0
    ensures exists q :: a == q * n + (if a >= 0 then a % Abs(n) else -((-a) % Abs(n)))
  {
    var m := Abs(n);
    if a >= 0 {
      QuotientSign(a, n, a / m, a % m);
    } else {
      var q, rem := (-a) / m, (-a) % m;
      assert -a == q * m + rem;
      assert (-q) * m == -(q * m);
      QuotientSign(a, n, -q, -rem);
    }
  }

  /** A division by |n| is also one by n, with the quotient negated when n is negative. */
  lemma QuotientSign(a: int, n: int, q: int, r: int)
    requires n != 0 && a == q * Abs(n) + r
    ensures a == (if n > 0 then q else -q) * n + r
  {
    if n < 0 {
      assert q * Abs(n) == (-q) * n;
    }
  }

  /** `random() % n` for a positive n: an index below n. */
  function Below(d: int, n: int): (r: int)
    requires IsDraw(d) && n > 0
    ensures 0 <= r < n
  {
    d % n
  }

  /** randbetween: `min + random() % (max - min + 1)`; the divisor must not be zero. */
  function RandBetween(min: int, max: int, d: int): (r: int)
    requires IsDraw(d)
    requires max - min + 1 != 0
    ensures min <= r
    ensures min <= max ==> r <= max
  {
    min + CRem(d, max - min + 1)
  }

  /** Every value of [min, max] is the result of some draw, so the range is covered, not only bounded. */
  lemma RandBetweenReaches(min: int, max: int, v: int)
    requires min <= v <= max && v - min <= RANDOM_MAX
    ensures IsDraw(v - min) && RandBetween(min, max, v - min) == v
  {
    var d, m := v - min, max - min + 1;
    assert 0 <= d < m;
    assert CRem(d, m) == d % m == d;
  }
}
