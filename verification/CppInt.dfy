/** C++ integer division: the quotient is truncated toward zero, so the
    remainder takes the sign of the dividend.  Dafny's own `/` and `%` are
    Euclidean and agree with it only for a non-negative dividend. */
module CppInt {

  function Quot(n: int, d: int): (q: int)
    requires d > 0
  {
    if n >= 0 then n / d else -(-n / d)
  }

  function Rem(n: int, d: int): int
    requires d > 0
  {
    n - d * Quot(n, d)
  }

  lemma QuotNonNegative(n: int, d: int)
    requires d > 0 && n >= 0
    ensures Quot(n, d) == n / d
  {
  }

  /** The remainder is smaller than the divisor and has the dividend's sign. */
  lemma RemSign(n: int, d: int)
    requires d > 0
    ensures n == d * Quot(n, d) + Rem(n, d)
    ensures -d < Rem(n, d) < d
    ensures n >= 0 ==> Rem(n, d) == n % d
    ensures n <= 0 ==> Rem(n, d) == -(-n % d)
  {
    if n >= 0 {
      EuclideanRemainder(n, d);
    } else {
      EuclideanRemainder(-n, d);
      assert d * -(-n / d) == -(d * (-n / d));
    }
  }

  lemma EuclideanRemainder(n: int, d: int)
    requires d > 0
    ensures n - d * (n / d) == n % d
  {
  }

  function Abs(n: int): (a: nat)
    ensures a == n || a == -n
  {
    if n < 0 then -n else n
  }

  function Max(a: int, b: int): (m: int)
    ensures m >= a && m >= b && (m == a || m == b)
  {
    if a < b then b else a
  }
}
