/** The field with 1024 elements in which the Bech32 generator has its roots, as vectors of ten bits. Only
    multiplication by powers of one element e, with e^10 = e^9 + e^5 + e^2 + 1, is needed. */
module Field1024 {
  import opened Numbers
  import opened Bech32Checksum

  predicate Element(v: bv32) {
    v < 1024
  }

  predicate Single(bit: bv32) {
    || bit == 1 || bit == 2 || bit == 4 || bit == 8 || bit == 16
    || bit == 32 || bit == 64 || bit == 128 || bit == 256 || bit == 512
  }

  predicate Has(v: bv32, bit: bv32) {
    v & bit != 0
  }

  /** `k` if the given bit of `v` is set. */
  function Pick(v: bv32, bit: bv32, k: bv32): bv32 {
    if Has(v, bit) then k else 0
  }

  lemma HasLinear(a: bv32, b: bv32, bit: bv32)
    requires Single(bit)
    ensures Has(Xor(a, b), bit) == (Has(a, bit) != Has(b, bit))
  {
    if bit == 1 {
    } else if bit == 2 {
    } else if bit == 4 {
    } else if bit == 8 {
    } else if bit == 16 {
    } else if bit == 32 {
    } else if bit == 64 {
    } else if bit == 128 {
    } else if bit == 256 {
    }
  }

  lemma PickLinear(a: bv32, b: bv32, bit: bv32, k: bv32)
    requires Single(bit)
    ensures Pick(Xor(a, b), bit, k) == Xor(Pick(a, bit, k), Pick(b, bit, k))
  {
    hide Has, Xor, Single;
    HasLinear(a, b, bit);
    XorSelf(k);
    XorSelf(0);
  }

  // ---------------------------------------------------------------- multiplication by e

  function Doubled(v: bv32): bv32 {
    (v & 0x1ff) << 1
  }

  /** Multiplication by e. */
  function TimesE(v: bv32): bv32 {
    Xor(Doubled(v), Pick(v, 0x200, 0x225))
  }

  lemma DoubledLinear(a: bv32, b: bv32)
    ensures Doubled(Xor(a, b)) == Xor(Doubled(a), Doubled(b))
  {
  }

  lemma TimesELinear(a: bv32, b: bv32)
    ensures TimesE(Xor(a, b)) == Xor(TimesE(a), TimesE(b))
  {
    hide Doubled, Pick, Xor;
    DoubledLinear(a, b);
    PickLinear(a, b, 0x200, 0x225);
    XorPairs(Doubled(a), Doubled(b), Pick(a, 0x200, 0x225), Pick(b, 0x200, 0x225));
  }

  lemma TimesEElement(v: bv32)
    ensures Element(TimesE(v)) && TimesE(0) == 0
  {
  }

  lemma TimesEInjective(v: bv32)
    requires Element(v) && TimesE(v) == 0
    ensures v == 0
  {
  }

  lemma XorElement(a: bv32, b: bv32)
    requires Element(a) && Element(b)
    ensures Element(Xor(a, b))
  {
  }

  lemma XorZeroSame(a: bv32, b: bv32)
    ensures Xor(a, b) == 0 <==> a == b
  {
  }

  /** Multiplication by the n-th power of e. */
  function TimesPower(n: nat, v: bv32): bv32 {
    if n == 0 then v else TimesE(TimesPower(n - 1, v))
  }

  lemma {:induction false} PowerSum(m: nat, n: nat, v: bv32)
    ensures TimesPower(m + n, v) == TimesPower(m, TimesPower(n, v))
  {
    hide TimesE;
    if m > 0 {
      PowerSum(m - 1, n, v);
    }
  }

  lemma {:induction false} PowerLinear(n: nat, a: bv32, b: bv32)
    ensures TimesPower(n, Xor(a, b)) == Xor(TimesPower(n, a), TimesPower(n, b))
  {
    hide TimesE, Xor;
    if n > 0 {
      PowerLinear(n - 1, a, b);
      TimesELinear(TimesPower(n - 1, a), TimesPower(n - 1, b));
    }
  }

  lemma {:induction false} PowerElement(n: nat, v: bv32)
    requires Element(v)
    ensures Element(TimesPower(n, v))
  {
    hide TimesE, Element;
    if n > 0 {
      TimesEElement(TimesPower(n - 1, v));
    }
  }

  lemma {:induction false} PowerZero(n: nat, v: bv32)
    requires Element(v)
    ensures TimesPower(n, v) == 0 <==> v == 0
  {
    hide TimesE, Element;
    if n > 0 {
      PowerZero(n - 1, v);
      PowerElement(n - 1, v);
      TimesEElement(0);
      if TimesE(TimesPower(n - 1, v)) == 0 {
        TimesEInjective(TimesPower(n - 1, v));
      }
    }
  }

  lemma {:induction false} PowerInjective(n: nat, v: bv32, w: bv32)
    requires Element(v) && Element(w) && TimesPower(n, v) == TimesPower(n, w)
    ensures v == w
  {
    hide TimesPower, Element, Xor;
    PowerLinear(n, v, w);
    XorZeroSame(TimesPower(n, v), TimesPower(n, w));
    XorElement(v, w);
    PowerZero(n, Xor(v, w));
    XorZeroSame(v, w);
  }

  // ---------------------------------------------------------------- powers of e as elements

  /** The product of two elements. */
  function Product(w: bv32, v: bv32): bv32 {
    var w1 := TimesE(w);
    var w2 := TimesE(w1);
    var w3 := TimesE(w2);
    var w4 := TimesE(w3);
    var w5 := TimesE(w4);
    var w6 := TimesE(w5);
    var w7 := TimesE(w6);
    var w8 := TimesE(w7);
    var w9 := TimesE(w8);
    Xor(Pick(v, 1, w), Xor(Pick(v, 2, w1), Xor(Pick(v, 4, w2), Xor(Pick(v, 8, w3), Xor(Pick(v, 16, w4),
        Xor(Pick(v, 32, w5), Xor(Pick(v, 64, w6), Xor(Pick(v, 128, w7), Xor(Pick(v, 256, w8), Pick(v, 512, w9))))))))))
  }

  function Only(v: bv32, bit: bv32): bv32 {
    v & bit
  }

  lemma PickSelf(v: bv32, bit: bv32)
    requires Single(bit)
    ensures Pick(v, bit, bit) == Only(v, bit)
  {
    if bit == 1 {
    } else if bit == 2 {
    } else if bit == 4 {
    } else if bit == 8 {
    } else if bit == 16 {
    } else if bit == 32 {
    } else if bit == 64 {
    } else if bit == 128 {
    } else if bit == 256 {
    }
  }

  lemma AllBits(v: bv32)
    requires Element(v)
    ensures Xor(Only(v, 1), Xor(Only(v, 2),
      Xor(Only(v, 4), Xor(Only(v, 8), Xor(Only(v, 16), Xor(Only(v, 32), Xor(Only(v, 64),
                Xor(Only(v, 128), Xor(Only(v, 256), Only(v, 512)))))))))) == v
  {
  }

  lemma ProductOne(v: bv32)
    requires Element(v)
    ensures Product(1, v) == v
  {
    assert TimesE(0x1) == 0x2 && TimesE(0x2) == 0x4 && TimesE(0x4) == 0x8 && TimesE(0x8) == 0x10 &&
      TimesE(0x10) == 0x20;
    assert TimesE(0x20) == 0x40 && TimesE(0x40) == 0x80 && TimesE(0x80) == 0x100 && TimesE(0x100) == 0x200;
    hide TimesE, Pick, Xor, Only, Element;
    PickSelf(v, 1);
    PickSelf(v, 2);
    PickSelf(v, 4);
    PickSelf(v, 8);
    PickSelf(v, 16);
    PickSelf(v, 32);
    PickSelf(v, 64);
    PickSelf(v, 128);
    PickSelf(v, 256);
    PickSelf(v, 512);
    AllBits(v);
  }

  lemma PickTimesE(v: bv32, bit: bv32, k: bv32)
    ensures TimesE(Pick(v, bit, k)) == Pick(v, bit, TimesE(k))
  {
    hide TimesE, Has;
    TimesEElement(0);
  }

  /** One more term of a product, multiplied by e. */
  lemma TermTimesE(v: bv32, bit: bv32, k: bv32, rest: bv32)
    ensures TimesE(Xor(Pick(v, bit, k), rest)) == Xor(Pick(v, bit, TimesE(k)), TimesE(rest))
  {
    hide TimesE, Pick, Xor;
    TimesELinear(Pick(v, bit, k), rest);
    PickTimesE(v, bit, k);
  }

  lemma ProductTimesE(w: bv32, v: bv32)
    ensures TimesE(Product(w, v)) == Product(TimesE(w), v)
  {
    hide TimesE, Pick, Xor;
    var w1 := TimesE(w);
    var w2 := TimesE(w1);
    var w3 := TimesE(w2);
    var w4 := TimesE(w3);
    var w5 := TimesE(w4);
    var w6 := TimesE(w5);
    var w7 := TimesE(w6);
    var w8 := TimesE(w7);
    var w9 := TimesE(w8);
    var t8 := Xor(Pick(v, 256, w8), Pick(v, 512, w9));
    var t7 := Xor(Pick(v, 128, w7), t8);
    var t6 := Xor(Pick(v, 64, w6), t7);
    var t5 := Xor(Pick(v, 32, w5), t6);
    var t4 := Xor(Pick(v, 16, w4), t5);
    var t3 := Xor(Pick(v, 8, w3), t4);
    var t2 := Xor(Pick(v, 4, w2), t3);
    var t1 := Xor(Pick(v, 2, w1), t2);
    PickTimesE(v, 512, w9);
    TermTimesE(v, 256, w8, Pick(v, 512, w9));
    TermTimesE(v, 128, w7, t8);
    TermTimesE(v, 64, w6, t7);
    TermTimesE(v, 32, w5, t6);
    TermTimesE(v, 16, w4, t5);
    TermTimesE(v, 8, w3, t4);
    TermTimesE(v, 4, w2, t3);
    TermTimesE(v, 2, w1, t2);
    TermTimesE(v, 1, w, t1);
  }

  /** Multiplying by a power of e is multiplying by that element. */
  lemma {:induction false} PowerProduct(n: nat, v: bv32)
    requires Element(v)
    ensures TimesPower(n, v) == Product(TimesPower(n, 1), v)
  {
    hide TimesE, Product, Element;
    if n == 0 {
      ProductOne(v);
    } else {
      PowerProduct(n - 1, v);
      ProductTimesE(TimesPower(n - 1, 1), v);
    }
  }

  ghost predicate IsPower(n: nat, w: bv32) {
    TimesPower(n, 1) == w && Element(w)
  }

  lemma AddPowers(m: nat, a: bv32, n: nat, b: bv32, c: bv32)
    requires IsPower(m, a) && IsPower(n, b) && Product(a, b) == c && Element(c)
    ensures IsPower(m + n, c)
  {
    hide TimesPower, Product, Element;
    PowerSum(m, n, 1);
    PowerProduct(m, b);
  }

  lemma SmallProducts()
    ensures Product(2, 2) == 4 && Product(4, 4) == 0x10 && Product(0x10, 2) == 0x20 && Product(0x10, 0x10) == 0x100
    ensures Product(0x100, 0x20) == 0x3d3 && Product(0x100, 0x100) == 0x29 && Product(0x29, 0x20) == 0x305
    ensures Product(0x29, 0x3d3) == 0x35e && Product(0x29, 0x29) == 0x264 && Product(0x264, 2) == 0x2ed
    ensures Product(0x264, 0x20) == 0x149
  {
  }

  lemma LargeProducts()
    ensures Product(0x264, 0x264) == 0x6a && Product(0x6a, 0x305) == 0x1a6 && Product(0x6a, 0x35e) == 0xd9
    ensures Product(0x6a, 0x149) == 0x311 && Product(0x6a, 0x6a) == 0x9a && Product(0x9a, 0x311) == 0x1e3
    ensures Product(0x9a, 0x9a) == 0xc7 && Product(0xc7, 0x1a6) == 0x96 && Product(0xc7, 0x1e3) == 0x3a5
    ensures Product(0xc7, 0xc7) == 0x36d && Product(0x36d, 0x3a5) == 0xd && Product(0x36d, 0x36d) == 2
    ensures Product(2, 0xd) == 0x1a && Product(2, 0x1a) == 0x34
  {
  }

  lemma FirstPower()
    ensures IsPower(1, 2)
  {
    assert TimesE(1) == 2;
    hide TimesE;
    assert TimesPower(1, 1) == TimesE(TimesPower(0, 1));
  }

  lemma SmallPowers()
    ensures IsPower(5, 0x20) && IsPower(21, 0x305) && IsPower(29, 0x35e) && IsPower(32, 0x264) && IsPower(33, 0x2ed)
    ensures IsPower(37, 0x149)
  {
    FirstPower();
    SmallProducts();
    hide Product, IsPower;
    AddPowers(1, 2, 1, 2, 4);
    AddPowers(2, 4, 2, 4, 0x10);
    AddPowers(4, 0x10, 1, 2, 0x20);
    AddPowers(4, 0x10, 4, 0x10, 0x100);
    AddPowers(8, 0x100, 5, 0x20, 0x3d3);
    AddPowers(8, 0x100, 8, 0x100, 0x29);
    AddPowers(16, 0x29, 5, 0x20, 0x305);
    AddPowers(16, 0x29, 13, 0x3d3, 0x35e);
    AddPowers(16, 0x29, 16, 0x29, 0x264);
    AddPowers(32, 0x264, 1, 2, 0x2ed);
    AddPowers(32, 0x264, 5, 0x20, 0x149);
  }

  /** The powers of e that matter: the roots of the generator, the maximal proper divisors of 1023, and 1024. */
  lemma Powers()
    ensures IsPower(997, 0xd) && IsPower(998, 0x1a) && IsPower(999, 0x34)
    ensures IsPower(33, 0x2ed) && IsPower(93, 0xd9) && IsPower(341, 0x96) && IsPower(1024, 2) && IsPower(1, 2)
  {
    FirstPower();
    SmallPowers();
    LargeProducts();
    hide Product, IsPower;
    AddPowers(32, 0x264, 32, 0x264, 0x6a);
    AddPowers(64, 0x6a, 21, 0x305, 0x1a6);
    AddPowers(64, 0x6a, 29, 0x35e, 0xd9);
    AddPowers(64, 0x6a, 37, 0x149, 0x311);
    AddPowers(64, 0x6a, 64, 0x6a, 0x9a);
    AddPowers(128, 0x9a, 101, 0x311, 0x1e3);
    AddPowers(128, 0x9a, 128, 0x9a, 0xc7);
    AddPowers(256, 0xc7, 85, 0x1a6, 0x96);
    AddPowers(256, 0xc7, 229, 0x1e3, 0x3a5);
    AddPowers(256, 0xc7, 256, 0xc7, 0x36d);
    AddPowers(512, 0x36d, 485, 0x3a5, 0xd);
    AddPowers(512, 0x36d, 512, 0x36d, 2);
    AddPowers(1, 2, 997, 0xd, 0x1a);
    AddPowers(1, 2, 998, 0x1a, 0x34);
  }

  // ---------------------------------------------------------------- e has order 1023

  lemma NotFixed33(v: bv32)
    requires Element(v) && Product(0x2ed, v) == v
    ensures v == 0
  {
    assert TimesE(0x2ed) == 0x3ff && TimesE(0x3ff) == 0x1db && TimesE(0x1db) == 0x3b6 && TimesE(0x3b6) == 0x149;
    assert TimesE(0x149) == 0x292;
    assert TimesE(0x292) == 0x301 && TimesE(0x301) == 0x27 && TimesE(0x27) == 0x4e && TimesE(0x4e) == 0x9c;
    hide TimesE;
  }

  lemma NotFixed93(v: bv32)
    requires Element(v) && Product(0xd9, v) == v
    ensures v == 0
  {
    assert TimesE(0xd9) == 0x1b2 && TimesE(0x1b2) == 0x364 && TimesE(0x364) == 0xed && TimesE(0xed) == 0x1da;
    assert TimesE(0x1da) == 0x3b4;
    assert TimesE(0x3b4) == 0x14d && TimesE(0x14d) == 0x29a && TimesE(0x29a) == 0x311 && TimesE(0x311) == 0x7;
    hide TimesE;
  }

  lemma NotFixed341(v: bv32)
    requires Element(v) && Product(0x96, v) == v
    ensures v == 0
  {
    assert TimesE(0x96) == 0x12c && TimesE(0x12c) == 0x258 && TimesE(0x258) == 0x295 && TimesE(0x295) == 0x30f;
    assert TimesE(0x30f) == 0x3b;
    assert TimesE(0x3b) == 0x76 && TimesE(0x76) == 0xec && TimesE(0xec) == 0x1d8 && TimesE(0x1d8) == 0x3b0;
    hide TimesE;
  }

  ghost predicate Fixes(n: nat, v: bv32) {
    TimesPower(n, v) == v
  }

  /** The 1023rd power of e is one. */
  lemma FullTurn(v: bv32)
    requires Element(v)
    ensures Fixes(1023, v)
  {
    Powers();
    hide TimesE, Product, Element;
    PowerProduct(1024, v);
    PowerProduct(1, v);
    hide TimesPower;
    PowerSum(1, 1023, v);
    PowerElement(1023, v);
    PowerInjective(1, TimesPower(1023, v), v);
  }

  lemma FixesLess(m: nat, n: nat, v: bv32)
    requires Element(v) && Fixes(m, v) && Fixes(n, v) && m <= n
    ensures Fixes(n - m, v)
  {
    hide TimesPower, Element;
    PowerSum(m, n - m, v);
    PowerElement(n - m, v);
    PowerInjective(m, TimesPower(n - m, v), v);
  }

  lemma {:induction false} FixesMultiple(d: nat, k: nat, v: bv32)
    requires Fixes(d, v)
    ensures d * k >= 0 && Fixes(d * k, v)
  {
    hide TimesE;
    if k > 0 {
      FixesMultiple(d, k - 1, v);
      Distribute(k - 1, 1, d);
      PowerSum(d * (k - 1), d, v);
    }
  }

  /** Euclid's algorithm: the greatest common divisor of two exponents that fix an element fixes it too. */
  lemma {:induction false} FixesCommon(m: nat, n: nat, v: bv32) returns (d: nat, p: nat, q: nat)
    requires m > 0 && n > 0 && Element(v) && Fixes(m, v) && Fixes(n, v)
    ensures 0 < d <= m && d <= n && m == d * p && n == d * q && Fixes(d, v)
    decreases m + n
  {
    hide Fixes, Element;
    if m == n {
      d, p, q := m, 1, 1;
    } else if m < n {
      FixesLess(m, n, v);
      d, p, q := FixesCommon(m, n - m, v);
      Distribute(p, q, d);
      q := p + q;
    } else {
      FixesLess(n, m, v);
      d, p, q := FixesCommon(m - n, n, v);
      Distribute(p, q, d);
      p := p + q;
    }
  }

  lemma SmallDivisor(d: nat, q: nat)
    requires 1 <= d <= 31 && d * q == 1023
    ensures d == 1 || d == 3 || d == 11 || d == 31
  {
    if d == 1 {
    } else if d == 2 {
    } else if d == 3 {
    } else if d == 4 {
    } else if d == 5 {
    } else if d == 6 {
    } else if d == 7 {
    } else if d == 8 {
    } else if d == 9 {
    } else if d == 10 {
    } else if d == 11 {
    } else if d == 12 {
    } else if d == 13 {
    } else if d == 14 {
    } else if d == 15 {
    } else if d == 16 {
    } else if d == 17 {
    } else if d == 18 {
    } else if d == 19 {
    } else if d == 20 {
    } else if d == 21 {
    } else if d == 22 {
    } else if d == 23 {
    } else if d == 24 {
    } else if d == 25 {
    } else if d == 26 {
    } else if d == 27 {
    } else if d == 28 {
    } else if d == 29 {
    } else if d == 30 {
    } else if d == 31 {
    }
  }

  lemma Divisor(d: nat, q: nat)
    requires d * q == 1023 && d < 1023
    ensures d == 1 || d == 3 || d == 11 || d == 31 || d == 33 || d == 93 || d == 341
  {
    if d <= 31 {
      SmallDivisor(d, q);
    } else {
      if q >= 32 {
        MulMono(32, d, q);
        MulMono(32, q, 32);
      }
      SmallDivisor(q, d);
    }
  }

  lemma MultipleOf33(d: nat, v: bv32)
    requires d == 1 || d == 3 || d == 11
    requires Fixes(d, v)
    ensures Fixes(33, v)
  {
    hide Fixes;
    FixesMultiple(d, if d == 1 then 33 else if d == 3 then 11 else 3, v);
  }

  lemma FixesDivisor(n: nat, v: bv32)
    requires 0 < n < 1023 && Element(v) && Fixes(n, v)
    ensures Fixes(33, v) || Fixes(93, v) || Fixes(341, v)
  {
    hide Fixes, Element;
    FullTurn(v);
    var d, p, q := FixesCommon(n, 1023, v);
    Divisor(d, q);
    if d == 31 {
      FixesMultiple(31, 3, v);
    } else if d < 31 {
      MultipleOf33(d, v);
    }
  }

  /** No power of e below the 1023rd, other than the zeroth, fixes an element. */
  lemma {:induction false} Free(n: nat, v: bv32)
    requires 0 < n < 1023 && Element(v) && TimesPower(n, v) == v
    ensures v == 0
  {
    hide TimesPower, Product, Element;
    FixesDivisor(n, v);
    Powers();
    PowerProduct(33, v);
    PowerProduct(93, v);
    PowerProduct(341, v);
    if Product(0x2ed, v) == v {
      NotFixed33(v);
    } else if Product(0xd9, v) == v {
      NotFixed93(v);
    } else {
      NotFixed341(v);
    }
  }

  // ---------------------------------------------------------------- three terms

  lemma CancelLast(a: bv32, b: bv32, c: bv32, d: bv32, z: bv32)
    requires Xor(Xor(a, b), z) == 0 && Xor(Xor(c, d), z) == 0
    ensures Xor(a, c) == Xor(b, d)
  {
    hide Xor;
    XorZeroSame(Xor(a, b), z);
    XorZeroSame(Xor(c, d), z);
    XorZeroSame(Xor(a, b), Xor(c, d));
    XorPairs(a, b, c, d);
    XorZeroSame(Xor(a, c), Xor(b, d));
  }

  lemma {:induction false} TwicePower(n: nat, v: bv32)
    ensures TimesPower(2 * n, v) == TimesPower(n, TimesPower(n, v))
  {
    hide TimesPower;
    PowerSum(n, n, v);
    assert n + n == 2 * n;
  }

  lemma Eliminate(x: bv32, y: bv32, x1: bv32, y1: bv32, x2: bv32, y2: bv32, z: bv32)
    requires Xor(Xor(x, y), z) == 0 && Xor(Xor(x1, y1), z) == 0 && Xor(Xor(x2, y2), z) == 0
    ensures Xor(x, x1) == Xor(y, y1) && Xor(x1, x2) == Xor(y1, y2)
  {
    hide Xor;
    CancelLast(x, y, x1, y1, z);
    CancelLast(x1, y1, x2, y2, z);
  }

  /** What is left after the last term is eliminated. */
  lemma {:induction false} Eliminated(x: bv32, y: bv32, z: bv32, m: nat, n: nat)
    requires Xor(Xor(x, y), z) == 0
    requires Xor(Xor(TimesPower(m, x), TimesPower(n, y)), z) == 0
    requires Xor(Xor(TimesPower(2 * m, x), TimesPower(2 * n, y)), z) == 0
    ensures Xor(x, TimesPower(m, x)) == Xor(y, TimesPower(n, y))
    ensures TimesPower(m, Xor(x, TimesPower(m, x))) == TimesPower(n, Xor(y, TimesPower(n, y)))
  {
    hide TimesPower, Xor;
    Eliminate(x, y, TimesPower(m, x), TimesPower(n, y), TimesPower(2 * m, x), TimesPower(2 * n, y), z);
    TwicePower(m, x);
    TwicePower(n, y);
    PowerLinear(m, x, TimesPower(m, x));
    PowerLinear(n, y, TimesPower(n, y));
  }

  lemma SumOfTwo(x: bv32, y: bv32, z: bv32)
    requires Xor(Xor(x, y), z) == 0 && x == 0 && y == 0
    ensures z == 0
  {
  }

  /** An element that two different powers of e take to the same place is zero. */
  lemma {:induction false} SamePlace(p: bv32, m: nat, n: nat)
    requires Element(p) && 0 < n < m < 1023 && TimesPower(m, p) == TimesPower(n, p)
    ensures p == 0
  {
    hide TimesPower, Element;
    PowerSum(n, m - n, p);
    PowerElement(m - n, p);
    PowerInjective(n, TimesPower(m - n, p), p);
    Free(m - n, p);
  }

  /** Three terms that cancel at three consecutive powers of e are all zero: a Vandermonde determinant. */
  lemma {:induction false} Vandermonde(x: bv32, y: bv32, z: bv32, m: nat, n: nat)
    requires Element(x) && Element(y) && 0 < n < m < 1023
    requires Xor(Xor(x, y), z) == 0
    requires Xor(Xor(TimesPower(m, x), TimesPower(n, y)), z) == 0
    requires Xor(Xor(TimesPower(2 * m, x), TimesPower(2 * n, y)), z) == 0
    ensures x == 0 && y == 0 && z == 0
  {
    hide TimesPower, Xor, Element;
    Eliminated(x, y, z, m, n);
    PowerElement(m, x);
    XorElement(x, TimesPower(m, x));
    SamePlace(Xor(x, TimesPower(m, x)), m, n);
    XorZeroSame(x, TimesPower(m, x));
    Free(m, x);
    XorZeroSame(y, TimesPower(n, y));
    Free(n, y);
    SumOfTwo(x, y, z);
  }
}
