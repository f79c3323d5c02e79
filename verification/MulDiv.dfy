/** The few facts of multiplication and division that the cadence needs. */
module MulDiv {
  lemma MulLe(a: int, b: int, c: int)
    requires a <= b && c >= 0
    ensures a * c <= b * c
  {}

  lemma QuotientUnique(m: int, q: int, r: int, q': int, r': int)
    requires q * m + r == q' * m + r'
    requires 0 <= r < m && 0 <= r' < m
    ensures q == q' && r == r'
  {
    assert (q + 1) * m == q * m + m;
    assert (q' + 1) * m == q' * m + m;
    if q < q' {
      MulLe(q + 1, q', m);
    } else if q' < q {
      MulLe(q' + 1, q, m);
    }
  }

  lemma QuotientIs(a: int, m: int, q: int, r: int)
    requires 0 <= r < m && a == q * m + r
    ensures a % m == r && a / m == q
  {
    QuotientUnique(m, a / m, a % m, q, r);
  }

  lemma NextModulo(a: int, m: int)
    requires a >= 0 && m >= 1
    ensures (a + 1) % m == if a % m + 1 == m then 0 else a % m + 1
  {
    var q, r := a / m, a % m;
    if r + 1 == m {
      assert (q + 1) * m == q * m + m;
      QuotientIs(a + 1, m, q + 1, 0);
    } else {
      QuotientIs(a + 1, m, q, r + 1);
    }
  }

  lemma Scale(q: int, m: int, r: int, c: int)
    ensures (q * m + r) * c == q * (m * c) + r * c
  {
    assert (q * m) * c == q * (m * c);
  }

  lemma ScaledModulo(n: int, m: int, c: int)
    requires m >= 1 && c >= 1
    ensures m * c >= 1
    ensures (n * c) % (m * c) == 0 <==> n % m == 0
  {
    var q, r := n / m, n % m;
    MulLe(1, m, c);
    MulLe(0, r, c);
    MulLe(r + 1, m, c);
    assert (r + 1) * c == r * c + c;
    Scale(q, m, r, c);
    QuotientIs(n * c, m * c, q, r * c);
    if r > 0 {
      MulLe(1, r, c);
    }
  }

  /** Rounding up to a whole number of polls. */
  lemma Ceil(interval: int, poll: int, cycles: int)
    requires poll > 0 && interval > 0
    requires cycles == interval / poll + (if interval % poll != 0 then 1 else 0)
    ensures (cycles - 1) * poll < interval <= cycles * poll
    ensures cycles >= 1
  {
    var q := interval / poll;
    assert (q + 1) * poll == q * poll + poll;
    assert (q - 1) * poll == q * poll - poll;
    if cycles <= 0 {
      MulLe(cycles, 0, poll);
    }
  }

  /** `m * poll` is within `top` exactly when `interval` is within the largest multiple that is. */
  lemma CeilWithin(interval: int, poll: int, m: int, top: int)
    requires poll > 0
    requires (m - 1) * poll < interval <= m * poll
    ensures m * poll <= top <==> interval <= top - top % poll
  {
    var q := top / poll;
    assert top - top % poll == q * poll;
    assert (q + 1) * poll == q * poll + poll;
    if m <= q {
      MulLe(m, q, poll);
    } else {
      MulLe(q, m - 1, poll);
      MulLe(q + 1, m, poll);
    }
  }

  /** What is within `top` is within its largest multiple that is. */
  lemma MultipleWithin(poll: int, top: int)
    requires 0 < poll <= top
    ensures poll <= top - top % poll
  {
    assert top - top % poll == (top / poll) * poll;
    MulLe(1, top / poll, poll);
  }
}
