/** The heights that skip pointers lead to, and how many of them a walk to an ancestor follows, src/chain.cpp. */
module BlockSkips {
  import opened Numbers

  /** The bitwise and of two numbers. */
  function And(x: nat, y: nat): (r: nat)
    ensures r <= y
  {
    if x == 0 || y == 0 then 0 else 2 * And(x / 2, y / 2) + (if x % 2 == 1 && y % 2 == 1 then 1 else 0)
  }

  function InvertLowestOne(n: nat): (r: nat)
    ensures n > 0 ==> r < n
  {
    if n == 0 then 0 else And(n, n - 1)
  }

  lemma {:induction false} AndSame(x: nat)
    ensures And(x, x) == x
  {
    if x != 0 {
      AndSame(x / 2);
    }
  }

  /** The lowest one of a number is turned into a zero. */
  lemma {:induction false} LowestOneCleared(k: nat, j: nat)
    ensures InvertLowestOne((2 * k + 1) * Pow2(j)) == 2 * k * Pow2(j)
  {
    if j == 0 {
      AndSame(k);
    } else {
      LowestOneCleared(k, j - 1);
      var p := Pow2(j - 1);
      assert Pow2(j) == 2 * p;
      hide Pow2, InvertLowestOne;
      var m := (2 * k + 1) * p;
      MulMono(1, 2 * k + 1, p);
      TwiceProduct(2 * k, p);
      TwiceProduct(2 * k + 1, p);
      Doubled(m);
    }
  }

  lemma TwiceProduct(a: int, p: int)
    ensures a * (2 * p) == 2 * (a * p)
  {
    Assoc(a, p, 2);
  }

  lemma Doubled(m: nat)
    requires m > 0
    ensures InvertLowestOne(2 * m) == 2 * InvertLowestOne(m)
  {
    assert (2 * m - 1) / 2 == m - 1 && (2 * m) / 2 == m;
  }

  function GetSkipHeight(height: nat): (h: nat)
    ensures height >= 1 ==> h < height
  {
    if height < 2 then 0
    else if height % 2 == 1 then InvertLowestOne(InvertLowestOne(height - 1)) + 1
    else InvertLowestOne(height)
  }

  // ---------------------------------------------------------------- one step of a walk

  /** Whether a walk from height `n` to height `h` follows the skip pointer. */
  predicate TakesSkip(n: nat, h: nat)
    requires h < n
  {
    var skip, skipPrev := GetSkipHeight(n), GetSkipHeight(n - 1);
    skip == h || (skip > h && !(skipPrev < skip - 2 && skipPrev >= h))
  }

  /** A walk takes the skip pointer unless that leads too far down, or the parent's skip pointer does not and saves more
      than two steps over it. */
  lemma TakesSkipMeans(n: nat, h: nat)
    requires h < n
    ensures TakesSkip(n, h) <==>
      GetSkipHeight(n) >= h &&
      (GetSkipHeight(n) == h || GetSkipHeight(n - 1) < h || GetSkipHeight(n - 1) + 3 > GetSkipHeight(n))
  {
  }

  function NextHeight(n: nat, h: nat): (m: nat)
    requires h < n
    ensures h <= m < n
  {
    if TakesSkip(n, h) then GetSkipHeight(n) else n - 1
  }

  /** The ones in the binary representation. */
  function Ones(n: nat): nat {
    if n == 0 then 0 else Ones(n / 2) + n % 2
  }

  lemma {:induction false} OnesLess(n: nat)
    requires n > 0
    ensures InvertLowestOne(n) < n && Ones(InvertLowestOne(n)) + 1 == Ones(n)
  {
    if n % 2 == 1 {
      OddInverted(n / 2);
    } else {
      Doubled(n / 2);
      OnesLess(n / 2);
      hide InvertLowestOne;
      assert (2 * InvertLowestOne(n / 2)) / 2 == InvertLowestOne(n / 2);
    }
  }

  lemma OddInverted(m: nat)
    ensures InvertLowestOne(2 * m + 1) == 2 * m
  {
    AndSame(m);
    assert (2 * m + 1) / 2 == m && (2 * m) / 2 == m;
  }

  lemma FourFold(q: nat)
    ensures InvertLowestOne(4 * q) == 4 * InvertLowestOne(q)
  {
    if q > 0 {
      Doubled(q);
      Doubled(2 * q);
    }
  }

  lemma TwoMore(q: nat)
    ensures InvertLowestOne(4 * q + 2) == 4 * q
  {
    OddInverted(q);
    Doubled(2 * q + 1);
  }

  /** What every skip, and every step to a parent from a height that four does not divide, makes smaller. */
  function Weight(n: nat): nat {
    4 * Ones(n / 4) + n % 4
  }

  lemma WeightOf(q: nat, c: nat)
    requires c < 4
    ensures Weight(4 * q + c) == 4 * Ones(q) + c
  {
    assert (4 * q + c) / 4 == q && (4 * q + c) % 4 == c;
  }

  /** The skip heights, by what is left modulo four. */
  lemma SkipIs(q: nat)
    ensures q > 0 ==> GetSkipHeight(4 * q) == 4 * InvertLowestOne(q)
    ensures q > 0 ==> GetSkipHeight(4 * q + 1) == 4 * InvertLowestOne(InvertLowestOne(q)) + 1
    ensures GetSkipHeight(4 * q + 2) == 4 * q
    ensures GetSkipHeight(4 * q + 3) == 4 * InvertLowestOne(q) + 1
  {
    SkipOf(2 * q);
    SkipOf(2 * q + 1);
    hide GetSkipHeight, InvertLowestOne;
    TwoMore(q);
    FourFold(q);
    FourFold(InvertLowestOne(q));
  }

  lemma SkipOf(m: nat)
    ensures m > 0 ==> GetSkipHeight(2 * m) == InvertLowestOne(2 * m)
    ensures m > 0 ==> GetSkipHeight(2 * m + 1) == InvertLowestOne(InvertLowestOne(2 * m)) + 1
  {
    hide InvertLowestOne;
    assert (2 * m + 1) % 2 == 1;
  }

  lemma SkipLighter(q: nat, c: nat)
    requires c < 4 && 4 * q + c > 0
    ensures Weight(GetSkipHeight(4 * q + c)) < Weight(4 * q + c)
  {
    Nothing();
    hide Weight, Ones, InvertLowestOne, GetSkipHeight;
    SkipIs(q);
    WeightOf(q, c);
    if q == 0 {
      WeightOf(0, 0);
      WeightOf(0, 1);
    } else if c == 2 {
      WeightOf(q, 0);
    } else {
      LighterByOne(q);
    }
  }

  lemma Nothing()
    ensures InvertLowestOne(0) == 0 && Ones(0) == 0 && Weight(0) == 0 && GetSkipHeight(1) == 0
  {
  }

  lemma {:induction false} LighterByOne(q: nat)
    requires q > 0
    ensures Weight(4 * InvertLowestOne(q)) + 4 == 4 * Ones(q)
    ensures Weight(4 * InvertLowestOne(q) + 1) + 4 == 4 * Ones(q) + 1
    ensures Weight(4 * InvertLowestOne(InvertLowestOne(q)) + 1) <= 4 * Ones(q) - 3
  {
    Nothing();
    hide Weight, Ones, InvertLowestOne;
    OnesLess(q);
    var r := InvertLowestOne(q);
    WeightOf(r, 0);
    WeightOf(r, 1);
    WeightOf(InvertLowestOne(r), 1);
    if r > 0 {
      OnesLess(r);
    }
  }

  /** A walk passes by a skip pointer that does not lead too far only for a parent that is lighter. */
  lemma ParentLighter(q: nat, c: nat, h: nat)
    requires c < 4 && h < 4 * q + c && !TakesSkip(4 * q + c, h) && GetSkipHeight(4 * q + c) >= h
    ensures Weight(4 * q + c - 1) < Weight(4 * q + c)
  {
    hide Weight, GetSkipHeight, TakesSkip;
    if c > 0 {
      LightParent(q, c);
    } else {
      ParentOfFour(q, 4 * q, h);
    }
  }

  lemma ParentOfFour(q: nat, n: nat, h: nat)
    requires n == 4 * q && h < n && !TakesSkip(n, h) && GetSkipHeight(n) >= h
    ensures Weight(n - 1) < Weight(n)
  {
    if q % 2 == 1 {
      OddParent(q);
    } else {
      EvenParent(q);
      hide Weight, GetSkipHeight;
    }
  }

  lemma OddParent(q: nat)
    requires q % 2 == 1
    ensures Weight(4 * q - 1) < Weight(4 * q)
  {
    hide Weight, Ones;
    assert 4 * q - 1 == 4 * (q - 1) + 3;
    WeightOf(q, 0);
    WeightOf(q - 1, 3);
    OneMore(q / 2);
  }

  lemma EvenParent(q: nat)
    requires q > 0 && q % 2 == 0
    ensures GetSkipHeight(4 * q - 1) > GetSkipHeight(4 * q)
  {
    hide GetSkipHeight, InvertLowestOne;
    assert 4 * q - 1 == 4 * (q - 1) + 3;
    SkipIs(q);
    SkipIs(q - 1);
    EvenKeeps(q);
  }

  lemma LightParent(q: nat, c: nat)
    requires 0 < c < 4
    ensures Weight(4 * q + c - 1) < Weight(4 * q + c)
  {
    hide Weight, Ones;
    WeightOf(q, c);
    WeightOf(q, c - 1);
  }

  lemma OneMore(m: nat)
    ensures Ones(2 * m + 1) == Ones(2 * m) + 1
  {
    assert (2 * m + 1) / 2 == m && (2 * m) / 2 == m;
  }

  lemma {:induction false} EvenKeeps(q: nat)
    requires q > 0 && q % 2 == 0
    ensures InvertLowestOne(q - 1) == q - 2 >= InvertLowestOne(q)
  {
    OddInverted(q / 2 - 1);
    Doubled(q / 2);
    OnesLess(q / 2);
  }

  // ---------------------------------------------------------------- whole walks

  /** The bits it takes to write a number. */
  function BitLength(n: nat): (k: nat)
    ensures n < Pow2(k) && (n > 0 ==> k > 0 && Pow2(k - 1) <= n)
  {
    if n == 0 then 0 else 1 + BitLength(n / 2)
  }

  lemma {:induction false} OnesBound(n: nat, k: nat)
    requires n < Pow2(k)
    ensures Ones(n) <= k
    decreases k
  {
    if n > 0 {
      OnesBound(n / 2, k - 1);
    }
  }

  lemma {:induction false} WeightBound(n: nat, k: nat)
    requires n < Pow2(k)
    ensures Weight(n) <= 4 * k + 3
  {
    hide Pow2, Ones;
    OnesBound(n / 4, k);
  }

  lemma {:induction false} LowestOne(n: nat) returns (t: nat, j: nat)
    requires n > 0
    ensures n == (2 * t + 1) * Pow2(j) && InvertLowestOne(n) == 2 * t * Pow2(j)
  {
    if n % 2 == 1 {
      t, j := n / 2, 0;
      assert n == 2 * t + 1 && Pow2(0) == 1;
    } else {
      t, j := LowestOne(n / 2);
      assert Pow2(j + 1) == 2 * Pow2(j);
      TwiceProduct(2 * t + 1, Pow2(j));
      j := j + 1;
    }
    LowestOneCleared(t, j);
  }

  /** Both heights lie in the block of 2^k heights that begins at a * 2^k. */
  ghost predicate Near(n: nat, h: nat, a: nat, k: nat) {
    a * Pow2(k) <= h <= n < (a + 1) * Pow2(k)
  }

  lemma StartNear(n: nat, h: nat, bits: nat)
    requires h <= n < Pow2(bits)
    ensures Near(n, h, 0, bits)
  {
    hide Pow2;
  }

  /** Past its skip height, a walk stays within a smaller block. */
  lemma {:induction false} Closer(n: nat, h: nat, a: nat, k: nat) returns (b: nat, j: nat)
    requires Near(n, h, a, k) && h < n && InvertLowestOne(n) <= h
    ensures j < k && Near(n - 1, h, b, j)
  {
    var t;
    t, j := LowestOne(n);
    b := 2 * t;
    Distribute(b, 1, Pow2(j));
    if j >= k {
      Pow2Add(j - k, k);
      Assoc(b + 1, Pow2(j - k), Pow2(k));
      NoMultiple((b + 1) * Pow2(j - k), a, Pow2(k));
    }
  }

  /** Strictly between two neighbouring multiples there is no third. */
  lemma NoMultiple(c: int, a: int, p: nat)
    ensures c * p <= a * p || (a + 1) * p <= c * p
  {
    if c <= a {
      MulMono(c, a, p);
    } else {
      MulMono(a + 1, c, p);
    }
  }

  /** What is left of a walk: blocks still to be left, and the weight within them. */
  function Left(n: nat, k: nat, bits: nat): nat {
    k * (4 * bits + 4) + Weight(n)
  }

  /** Every step of a walk makes it smaller. */
  lemma {:induction false} StepNearer(n: nat, h: nat, a: nat, k: nat, bits: nat) returns (b: nat, j: nat)
    requires h < n < Pow2(bits) && Near(n, h, a, k)
    ensures Near(NextHeight(n, h), h, b, j) && Left(NextHeight(n, h), j, bits) < Left(n, k, bits)
  {
    hide Weight, Pow2, InvertLowestOne;
    b, j := a, k;
    var q, c := n / 4, n % 4;
    assert n == 4 * q + c;
    if TakesSkip(n, h) {
      SkipLighter(q, c);
    } else if GetSkipHeight(n) >= h {
      ParentLighter(q, c, h);
    } else if c > 0 {
      LightParent(q, c);
    } else {
      b, j := Closer(n, h, a, k);
      WeightBound(n - 1, bits);
      MulMono(j + 1, k, 4 * bits + 4);
      Distribute(j, 1, 4 * bits + 4);
    }
  }

  /** The rounds of a walk down from a height of so many bits. */
  function RoundLimit(bits: nat): nat {
    4 * (bits + 1) * (bits + 1)
  }

  lemma {:induction false} StartLeft(n: nat, bits: nat)
    requires n < Pow2(bits)
    ensures Left(n, bits, bits) < RoundLimit(bits)
  {
    hide Weight, Pow2;
    WeightBound(n, bits);
  }

  /** The rounds a walk takes from height `n` down to height `h`. */
  function Rounds(n: nat, h: nat): nat
    requires h <= n
    decreases n
  {
    if n == h then 0 else 1 + Rounds(NextHeight(n, h), h)
  }

  lemma {:induction false} RoundsLeft(n: nat, h: nat, a: nat, k: nat, bits: nat)
    requires h <= n < Pow2(bits) && Near(n, h, a, k)
    ensures Rounds(n, h) <= Left(n, k, bits)
    decreases n
  {
    hide Near, Left, Pow2, NextHeight;
    if h < n {
      var b, j := StepNearer(n, h, a, k, bits);
      RoundsLeft(NextHeight(n, h), h, b, j, bits);
    }
  }

  /** A walk takes fewer rounds than four times the square of one more than the bits of the height. */
  lemma RoundsBound(n: nat, h: nat)
    requires h <= n
    ensures Rounds(n, h) < RoundLimit(BitLength(n)) == 4 * (BitLength(n) + 1) * (BitLength(n) + 1)
  {
    hide Near, Left, Pow2, Rounds, BitLength;
    var bits := BitLength(n);
    StartNear(n, h, bits);
    StartLeft(n, bits);
    RoundsLeft(n, h, 0, bits, bits);
  }
}
