/** The few facts about products, quotients and remainders that ring indexing needs. */
module Arith {

  lemma MulStrict(a: int, b: int, n: int)
    requires n > 0 && a < b
    ensures a * n + n <= b * n
  {
    var d := b - a - 1;
    MulLe(0, d, n);
    assert b * n == (a + 1 + d) * n == a * n + n + d * n;
  }

  lemma MulInjective(i: int, j: int, n: int)
    requires n > 0 && i * n == j * n
    ensures i == j
  {
    if i < j {
      MulStrict(i, j, n);
    } else if j < i {
      MulStrict(j, i, n);
    }
  }

  lemma ModUnique(i: int, j: int, n: int)
    requires n > 0 && 0 <= i <= j < i + n && i % n == j % n
    ensures i == j
  {
    var qi, qj := i / n, j / n;
    assert i == qi * n + i % n && j == qj * n + j % n;
    if qi < qj {
      MulStrict(qi, qj, n);
    } else if qj < qi {
      MulStrict(qj, qi, n);
    }
  }

  lemma DivMono(a: int, b: int, n: int)
    requires n > 0 && a <= b
    ensures a / n <= b / n
  {
    var qa, qb := a / n, b / n;
    assert a == qa * n + a % n && b == qb * n + b % n;
    if qb < qa {
      MulStrict(qb, qa, n);
    }
  }

  /** A quotient is pinned down by its multiple. */
  lemma DivUnique(a: int, q: int, n: int)
    requires n > 0 && q * n <= a < q * n + n
    ensures a / n == q
  {
    var p := a / n;
    assert a == p * n + a % n;
    if p < q {
      MulStrict(p, q, n);
    } else if q < p {
      MulStrict(q, p, n);
    }
  }

  /** Flooring to a slot start and then to a coarser slot is flooring to the coarser slot. */
  lemma DivNest(t: int, n: int, k: int)
    requires n > 0 && k > 0 && t >= 0
    ensures (t / n * n) / (k * n) == t / (k * n)
  {
    var m := k * n;
    var q := t / m;
    var y := t / n;
    MulStrict(0, k, n);
    assert t == q * m + t % m;
    assert t == y * n + t % n;
    assert q * m == (q * k) * n;
    assert q * m + m == (q * k + k) * n by { assert (q * k + k) * n == (q * k) * n + k * n; }
    // q*k <= y < q*k + k
    if y < q * k {
      MulStrict(y, q * k, n);
    }
    assert y >= q * k;
    if q * k + k <= y {
      MulLe(q * k + k, y, n);
    }
    assert y < q * k + k;
    MulLe(q * k, y, n);
    MulStrict(y, q * k + k, n);
    DivUnique(y * n, q, m);
  }

  lemma MulLe(a: int, b: int, n: int)
    requires n >= 0 && a <= b
    ensures a * n <= b * n
  {
  }

  lemma SmallMod(j: int, n: int)
    requires 0 <= j < n
    ensures j % n == j
  {
  }

  /** Two multiples of n with the same quotient are equal. */
  lemma SameQuotient(a: int, b: int, n: int)
    requires n > 0 && a % n == 0 && b % n == 0 && a / n == b / n
    ensures a == b
  {
    assert a == a / n * n + a % n && b == b / n * n + b % n;
  }

  lemma ExactDiv(i: int, n: int)
    requires n > 0
    ensures i * n / n == i && i * n % n == 0
  {
    DivUnique(i * n, i, n);
    assert i * n == (i * n / n) * n + i * n % n;
  }
}
