/** Facts about products, quotients and remainders that the solver does not find by itself. */
module Arithmetic {
  function Min(a: nat, b: nat): nat {
    if a < b then a else b
  }

  lemma MulLe(a: nat, b: nat, c: nat)
    requires a <= b
    ensures a * c <= b * c
  {
  }

  /** What a quotient and a remainder are. */
  lemma DivIs(n: nat, c: nat, q: nat, r: nat)
    requires n == q * c + r && r < c
    ensures n / c == q && n % c == r
  {
    var q', r' := n / c, n % c;
    assert (q - q') * c == r' - r;
    if q > q' {
      MulLe(1, q - q', c);
    } else if q < q' {
      MulLe(1, q' - q, c);
    }
  }

  lemma DivBasics(n: nat, c: nat)
    requires c >= 1
    ensures n / c >= 0 && 0 <= n % c < c && n % c <= n && n / c * c <= n && n == n / c * c + n % c
  {
  }

  lemma DivBelow(n: nat, m: nat, c: nat)
    requires c >= 1 && n < m * c
    ensures n / c < m
  {
    if n / c >= m {
      MulLe(m, n / c, c);
    }
  }

  lemma DivMonotone(a: nat, b: nat, c: nat)
    requires a <= b && c >= 1
    ensures 0 <= a / c <= b / c
  {
    if a / c > b / c {
      MulLe(b / c + 1, a / c, c);
    }
  }

  /** Counting `n + 1` into groups of `c`. */
  lemma DivStep(n: nat, c: nat)
    requires c >= 1
    ensures if n % c + 1 >= c then (n + 1) / c == n / c + 1 && (n + 1) % c == 0
            else (n + 1) / c == n / c && (n + 1) % c == n % c + 1
  {
    if n % c + 1 >= c {
      DivIs(n + 1, c, n / c + 1, 0);
    } else {
      DivIs(n + 1, c, n / c, n % c + 1);
    }
  }

  lemma Distribute(a: int, b: int, c: int)
    ensures (a + b) * c == a * c + b * c
  {
  }

  lemma Associate(a: int, b: int, c: int)
    ensures a * (b * c) == (a * b) * c
  {
  }

  lemma DivTwice(v: nat, m: nat)
    requires m > 0
    ensures v / (2 * m) == v / m / 2
  {
    var q, r := v / m, v % m;
    var h, b := q / 2, q % 2;
    DivBasics(v, m);
    Distribute(2 * h, b, m);
    Associate(h, 2, m);
    assert b * m <= m;
    DivIs(v, 2 * m, h, b * m + r);
  }

  /** The low digit of a number and the number above it. */
  lemma ModTwice(v: nat, m: nat)
    requires m > 0
    ensures v % (2 * m) == 2 * (v / 2 % m) + v % 2
  {
    var w := v / 2;
    var q, r := w / m, w % m;
    DivBasics(w, m);
    Associate(q, 2, m);
    DivIs(v, 2 * m, q, 2 * r + v % 2);
  }

  /** Shifting a number that is kept modulo `m * p` by a factor `p`, and putting `c` in the gap. */
  lemma ShiftModulo(v: nat, m: nat, p: nat, c: nat)
    requires m > 0 && p > 0 && c < p
    ensures m * p > 0
    ensures v % (m * p) * p % (m * p) + c == (v * p + c) % (m * p)
  {
    var u := m * p;
    MulLe(1, m, p);
    var a, w := v / u, v % u;
    DivBasics(v, u);
    var b, x := w * p / u, w * p % u;
    DivBasics(w * p, u);
    Multiple(w, b, m, p, x);
    assert v * p == a * u * p + w * p by {
      Distribute(a * u, w, p);
    }
    assert a * u * p == a * p * u by {
      Associate(a, u, p);
      Associate(a, p, u);
    }
    Distribute(a * p, b, u);
    assert v * p + c == (a * p + b) * u + (x + c);
    DivIs(v * p + c, u, a * p + b, x + c);
  }

  lemma Multiple(w: nat, b: nat, m: nat, p: nat, x: nat)
    requires m > 0 && p > 0 && w * p == b * (m * p) + x && x < m * p
    ensures x + p <= m * p
  {
    Associate(b, m, p);
    Distribute(w - b * m, b * m, p);
    assert x == (w - b * m) * p;
    if w - b * m >= m {
      MulLe(m, w - b * m, p);
    } else if w - b * m >= 0 {
      MulLe(w - b * m + 1, m, p);
      Distribute(w - b * m, 1, p);
    } else {
      MulLe(1, b * m - w, p);
      Distribute(w - b * m, b * m - w, p);
    }
  }
}
