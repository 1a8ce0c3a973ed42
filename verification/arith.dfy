/** Facts about Euclidean division by positive numbers, used to read
    calendar fields and `timedelta` components off microsecond counts. */
module Arith {

  /** `(t / m) % n == (t % (m * n)) / m` for positive `m` and `n`. */
  lemma DivMod(t: int, m: int, n: int)
    requires m > 0 && n > 0
    ensures (t / m) % n == (t % (m * n)) / m
  {
    var q, r := t / (m * n), t % (m * n);
    assert t == q * (m * n) + r;
    var a, c := r / m, r % m;
    assert r == a * m + c;
    assert t == (q * n + a) * m + c;
    DivUnique(t, m, q * n + a, c);
    assert 0 <= a < n;
    DivUnique(t / m, n, q, a);
  }

  /** `(t % (m * n)) % m == t % m` for positive `m` and `n`. */
  lemma ModMod(t: int, m: int, n: int)
    requires m > 0 && n > 0
    ensures (t % (m * n)) % m == t % m
  {
    var q, r := t / (m * n), t % (m * n);
    assert t == (q * n) * m + r;
    DivUnique(r, m, r / m, r % m);
    assert t == (q * n + r / m) * m + r % m;
    DivUnique(t, m, q * n + r / m, r % m);
  }

  /** Division is determined by a quotient and a remainder in range. */
  lemma DivUnique(t: int, m: int, q: int, r: int)
    requires m > 0 && 0 <= r < m && t == q * m + r
    ensures t / m == q && t % m == r
  {
    var q2, r2 := t / m, t % m;
    var d := q2 - q;
    assert d * m == r - r2;
    if d > 0 {
      MulAtLeast(d, m);
    } else if d < 0 {
      MulAtLeast(-d, m);
    }
  }

  lemma MulAtLeast(a: int, m: int)
    requires a >= 1 && m >= 1
    ensures a * m >= m
  {
    assert a * m == (a - 1) * m + m;
  }

  /** Multiplying by a non-negative number keeps the order. */
  lemma MulMono(a: int, b: int, m: int)
    requires a <= b && m >= 0
    ensures a * m <= b * m
  {
    assert b * m == a * m + (b - a) * m;
  }

  /** Adding one to `m` moves its remainder on by one, wrapping to zero. */
  lemma ModSucc(m: int, n: int)
    requires n > 0
    ensures (m + 1) % n == if m % n == n - 1 then 0 else m % n + 1
  {
    var q, r := m / n, m % n;
    assert m == q * n + r;
    if r == n - 1 {
      DivUnique(m + 1, n, q + 1, 0);
    } else {
      DivUnique(m + 1, n, q, r + 1);
    }
  }
}
