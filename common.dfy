/**
 * Small shared definitions: an optional value, the minimum of two
 * integers, and facts of integer arithmetic the other modules rely on.
 */
module Common {

  datatype Option<T> = None | Some(value: T)

  function Min(a: int, b: int): int
  {
    if a <= b then a else b
  }

  lemma MulMono(a: nat, b: nat, k: nat)
    requires a <= b
    ensures a * k <= b * k
  {
  }

  lemma Distribute(c: nat, a: nat, b: nat)
    ensures c * (a + b) == c * a + c * b
  {
  }

  /** A quotient of naturals is at most `c` when the dividend is at most
      `c` times the divisor. */
  lemma QuotientBound(a: nat, b: nat, c: nat)
    requires b > 0 && a <= c * b
    ensures 0.0 <= a as real / b as real <= c as real
  {
    assert (c * b) as real == c as real * b as real;
  }

  /** A quotient of naturals is zero exactly when the dividend is. */
  lemma QuotientZero(a: nat, b: nat)
    requires b > 0
    ensures a as real / b as real == 0.0 <==> a == 0
  {
    if a > 0 {
      assert a as real / b as real > 0.0;
    }
  }

  /** The quotient `n / k` is at least `q` exactly when `n` is at least
      `q` times `k`. */
  lemma QuotientAtLeast(n: nat, k: nat, q: nat)
    requires k > 0
    ensures n / k >= q <==> n >= q * k
  {
    var d, r := n / k, n % k;
    assert n == d * k + r;
    if d >= q {
      MulMono(q, d, k);
    } else {
      MulMono(d + 1, q, k);
      assert (d + 1) * k == d * k + k;
    }
  }

  lemma {:induction false} MulAtLeast(d: nat, n: nat)
    requires d >= 1
    ensures d * n >= n
  {
    if d > 1 {
      MulAtLeast(d - 1, n);
      assert d * n == (d - 1) * n + n;
    }
  }

  /** Euclidean division has one remainder: `a == q * n + r` with
      `0 <= r < n` makes `r` the remainder of `a` by `n`. */
  lemma ModUnique(a: int, n: nat, q: int, r: int)
    requires n > 0 && 0 <= r < n && a == q * n + r
    ensures a % n == r
  {
    var q', r' := a / n, a % n;
    assert a == q' * n + r';
    assert (q' - q) * n == r - r';
    if q' > q {
      MulAtLeast(q' - q, n);
    } else if q > q' {
      MulAtLeast(q - q', n);
    }
  }
}
