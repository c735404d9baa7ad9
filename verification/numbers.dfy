/** Powers of two and the few facts about products and quotients the other modules need. */
module Numbers {
  const TWO32 := 0x1_0000_0000

  function Min(a: int, b: int): int { if a < b then a else b }
  function Max(a: int, b: int): int { if a < b then b else a }

  /** A 32-bit number as a fraction of 2^32, scaled to the range below n. */
  function FastRange(x: nat, n: nat): (r: nat)
    requires x < TWO32 && n > 0
    ensures r < n
    ensures r * 0x1_0000_0000 <= x * n < (r + 1) * 0x1_0000_0000
  {
    assert (TWO32 - x) * n == TWO32 * n - x * n;
    assert (TWO32 - x) * n > 0;
    x * n / TWO32
  }

  function Pow2(n: nat): (p: nat)
    ensures p >= 1
  {
    if n == 0 then 1 else 2 * Pow2(n - 1)
  }

  lemma {:induction false} Pow2Add(a: nat, b: nat)
    ensures Pow2(a + b) == Pow2(a) * Pow2(b)
  {
    if a != 0 {
      Pow2Add(a - 1, b);
      assert Pow2(a + b) == 2 * Pow2(a - 1 + b);
      assert 2 * (Pow2(a - 1) * Pow2(b)) == (2 * Pow2(a - 1)) * Pow2(b);
    }
  }

  lemma {:induction false} Pow2Mono(a: nat, b: nat)
    requires a <= b
    ensures Pow2(a) <= Pow2(b)
    ensures a < b ==> 2 * Pow2(a) <= Pow2(b)
  {
    if a < b {
      Pow2Mono(a, b - 1);
    }
  }

  lemma Pow2Small()
    ensures Pow2(0) == 1 && Pow2(8) == 0x100 && Pow2(15) == 0x8000 && Pow2(16) == 0x1_0000
    ensures Pow2(23) == 0x80_0000 && Pow2(24) == 0x100_0000 && Pow2(32) == 0x1_0000_0000
  {
    assert Pow2(1) == 2 && Pow2(2) == 4 && Pow2(3) == 8 && Pow2(4) == 16;
    assert Pow2(5) == 32 && Pow2(6) == 64 && Pow2(7) == 128 && Pow2(8) == 256;
    Pow2Add(7, 8);
    Pow2Add(8, 8);
    Pow2Add(8, 15);
    Pow2Add(8, 16);
    Pow2Add(16, 16);
  }

  lemma Assoc(a: int, b: int, c: int)
    ensures a * b * c == a * (b * c)
  {
  }

  lemma Distribute(a: int, b: int, c: int)
    ensures (a + b) * c == a * c + b * c
  {
  }

  lemma MulMono(a: int, b: int, c: int)
    requires a <= b && c >= 0
    ensures a * c <= b * c
  {
    assert (b - a) * c >= 0;
    assert (b - a) * c == b * c - a * c;
  }

  lemma MulBound(a: int, b: int, c: int)
    requires 0 <= a <= c && 0 <= b <= c
    ensures 0 <= a * b <= c * c
  {
    MulMono(0, a, b);
    MulMono(a, c, b);
    MulMono(b, c, c);
  }

  /** Quotient and remainder are unique. */
  lemma DivUnique(x: int, m: int, q: int, r: int)
    requires m > 0 && x == q * m + r && 0 <= r < m
    ensures x / m == q && x % m == r
  {
    var p, s := x / m, x % m;
    assert x == p * m + s;
    assert (p - q) * m == r - s;
    if p - q >= 1 {
      MulMono(1, p - q, m);
    } else if p - q <= -1 {
      MulMono(p - q, -1, m);
    }
  }

  lemma QuotNonnegative(x: int, m: int)
    requires m > 0 && x >= 0
    ensures x / m >= 0 && 0 <= x % m < m && x == (x / m) * m + x % m
  {
    var q, r := x / m, x % m;
    assert x == q * m + r;
    if q < 0 {
      MulMono(q, -1, m);
    }
  }

  /** The quotient and the remainder of natural numbers. */
  function Quot(x: nat, m: nat): nat
    requires m > 0
  {
    QuotNonnegative(x, m);
    x / m
  }

  function Rem(x: nat, m: nat): nat
    requires m > 0
  {
    QuotNonnegative(x, m);
    x % m
  }

  lemma QuotRem(x: nat, m: nat)
    requires m > 0
    ensures x == Quot(x, m) * m + Rem(x, m) && 0 <= Rem(x, m) < m
    ensures m >= 2 && x > 0 ==> Quot(x, m) < x
  {
    QuotNonnegative(x, m);
    var q := x / m;
    if m >= 2 && q > 0 {
      MulMono(2, m, q);
    }
  }

  lemma QuotUnique(x: nat, m: nat, q: nat, r: nat)
    requires m > 0 && x == q * m + r && r < m
    ensures Quot(x, m) == q && Rem(x, m) == r
  {
    DivUnique(x, m, q, r);
  }

  /** Splitting at d a number below d * p, and moving it up by a factor p. */
  lemma SplitAt(w: int, d: int, p: int, q: int, r: int)
    requires d > 0 && p > 0 && w == q * d + r && 0 <= r < d && 0 <= w < d * p
    ensures w * p == q * (d * p) + r * p
    ensures 0 <= r * p && r * p + p <= d * p
    ensures 0 <= q < p
  {
    Distribute(q * d, r, p);
    Assoc(q, d, p);
    MulMono(r + 1, d, p);
    Distribute(r, 1, p);
    MulMono(0, r, p);
    if q < 0 {
      MulMono(q, -1, d);
    }
    if q >= p {
      MulMono(p, q, d);
    }
  }
}
