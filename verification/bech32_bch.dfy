/** Detection of three errors, src/bech32.cpp: the generator has three consecutive powers of e as roots. */
module Bech32Bch {
  import opened Numbers
  import opened Bech32Checksum
  import opened Field1024

  // ---------------------------------------------------------------- symbols as field elements

  /** A five-bit symbol as one of the 1024 elements. */
  function Embedded(s: bv32): bv32 {
    Xor(Pick(s, 1, 0x1), Xor(Pick(s, 2, 0x14d), Xor(Pick(s, 4, 0x283), Xor(Pick(s, 8, 0x267), Pick(s, 16, 0x122)))))
  }

  lemma TermLinear(a: bv32, b: bv32, bit: bv32, k: bv32, ra: bv32, rb: bv32, rest: bv32)
    requires Single(bit) && rest == Xor(ra, rb)
    ensures Xor(Pick(Xor(a, b), bit, k), rest) == Xor(Xor(Pick(a, bit, k), ra), Xor(Pick(b, bit, k), rb))
  {
    hide Pick, Xor, Single;
    PickLinear(a, b, bit, k);
    XorPairs(Pick(a, bit, k), Pick(b, bit, k), ra, rb);
  }

  lemma EmbeddedLinear(a: bv32, b: bv32)
    ensures Embedded(Xor(a, b)) == Xor(Embedded(a), Embedded(b))
  {
    hide Pick, Xor;
    var c := Xor(a, b);
    var a3, b3 := Xor(Pick(a, 8, 0x267), Pick(a, 16, 0x122)), Xor(Pick(b, 8, 0x267), Pick(b, 16, 0x122));
    var a2, b2 := Xor(Pick(a, 4, 0x283), a3), Xor(Pick(b, 4, 0x283), b3);
    var a1, b1 := Xor(Pick(a, 2, 0x14d), a2), Xor(Pick(b, 2, 0x14d), b2);
    PickLinear(a, b, 16, 0x122);
    TermLinear(a, b, 8, 0x267, Pick(a, 16, 0x122), Pick(b, 16, 0x122), Pick(c, 16, 0x122));
    TermLinear(a, b, 4, 0x283, a3, b3, Xor(a3, b3));
    TermLinear(a, b, 2, 0x14d, a2, b2, Xor(a2, b2));
    TermLinear(a, b, 1, 0x1, a1, b1, Xor(a1, b1));
  }

  lemma EmbeddedElement(s: bv32)
    ensures Element(Embedded(s)) && Embedded(0) == 0
  {
  }

  lemma EmbeddedInjective(s: Symbol)
    requires Embedded(s) == 0
    ensures s == 0
  {
  }

  // ---------------------------------------------------------------- evaluation of a remainder

  /** Multiplication by the root 1 + e^2 + e^3, which is the 997th power of e, or by one of the next two powers. */
  function ByRoot(t: nat, x: bv32): bv32 {
    if t == 0 then Xor(x, TimesE(TimesE(Xor(x, TimesE(x))))) else TimesE(ByRoot(t - 1, x))
  }

  lemma {:induction false} ByRootLinear(t: nat, a: bv32, b: bv32)
    ensures ByRoot(t, Xor(a, b)) == Xor(ByRoot(t, a), ByRoot(t, b))
  {
    hide TimesE, Xor;
    if t == 0 {
      TimesELinear(a, b);
      XorPairs(a, b, TimesE(a), TimesE(b));
      var x, y := Xor(a, TimesE(a)), Xor(b, TimesE(b));
      TimesELinear(x, y);
      TimesELinear(TimesE(x), TimesE(y));
      XorPairs(a, b, TimesE(TimesE(x)), TimesE(TimesE(y)));
    } else {
      ByRootLinear(t - 1, a, b);
      TimesELinear(ByRoot(t - 1, a), ByRoot(t - 1, b));
    }
  }

  lemma {:induction false} ByRootNothing(t: nat)
    ensures ByRoot(t, 0) == 0
  {
    TimesEElement(0);
    XorSelf(0);
    hide TimesE, Xor;
    if t > 0 {
      ByRootNothing(t - 1);
    }
  }

  /** The sum of two elements times a third, term by term. */
  lemma TermSum(v: bv32, bit: bv32, a: bv32, b: bv32, ra: bv32, rb: bv32)
    ensures Xor(Pick(v, bit, Xor(a, b)), Xor(ra, rb)) == Xor(Xor(Pick(v, bit, a), ra), Xor(Pick(v, bit, b), rb))
  {
    PickSum(v, bit, a, b);
    hide Pick, Xor;
    XorPairs(Pick(v, bit, a), Pick(v, bit, b), ra, rb);
  }

  lemma PickSum(v: bv32, bit: bv32, a: bv32, b: bv32)
    ensures Pick(v, bit, Xor(a, b)) == Xor(Pick(v, bit, a), Pick(v, bit, b))
  {
    hide Has, Xor;
    XorSelf(0);
  }

  lemma ProductSum(a: bv32, b: bv32, v: bv32)
    ensures Product(Xor(a, b), v) == Xor(Product(a, v), Product(b, v))
  {
    hide Pick, Xor, TimesE;
    var a1, b1 := TimesE(a), TimesE(b);
    var a2, b2 := TimesE(a1), TimesE(b1);
    var a3, b3 := TimesE(a2), TimesE(b2);
    var a4, b4 := TimesE(a3), TimesE(b3);
    var a5, b5 := TimesE(a4), TimesE(b4);
    var a6, b6 := TimesE(a5), TimesE(b5);
    var a7, b7 := TimesE(a6), TimesE(b6);
    var a8, b8 := TimesE(a7), TimesE(b7);
    var a9, b9 := TimesE(a8), TimesE(b8);
    TimesELinear(a, b);
    TimesELinear(a1, b1);
    TimesELinear(a2, b2);
    TimesELinear(a3, b3);
    TimesELinear(a4, b4);
    TimesELinear(a5, b5);
    TimesELinear(a6, b6);
    TimesELinear(a7, b7);
    TimesELinear(a8, b8);
    PickSum(v, 512, a9, b9);
    var p8, q8 := Xor(Pick(v, 256, a8), Pick(v, 512, a9)), Xor(Pick(v, 256, b8), Pick(v, 512, b9));
    TermSum(v, 256, a8, b8, Pick(v, 512, a9), Pick(v, 512, b9));
    var p7, q7 := Xor(Pick(v, 128, a7), p8), Xor(Pick(v, 128, b7), q8);
    TermSum(v, 128, a7, b7, p8, q8);
    var p6, q6 := Xor(Pick(v, 64, a6), p7), Xor(Pick(v, 64, b6), q7);
    TermSum(v, 64, a6, b6, p7, q7);
    var p5, q5 := Xor(Pick(v, 32, a5), p6), Xor(Pick(v, 32, b5), q6);
    TermSum(v, 32, a5, b5, p6, q6);
    var p4, q4 := Xor(Pick(v, 16, a4), p5), Xor(Pick(v, 16, b4), q5);
    TermSum(v, 16, a4, b4, p5, q5);
    var p3, q3 := Xor(Pick(v, 8, a3), p4), Xor(Pick(v, 8, b3), q4);
    TermSum(v, 8, a3, b3, p4, q4);
    var p2, q2 := Xor(Pick(v, 4, a2), p3), Xor(Pick(v, 4, b2), q3);
    TermSum(v, 4, a2, b2, p3, q3);
    var p1, q1 := Xor(Pick(v, 2, a1), p2), Xor(Pick(v, 2, b1), q2);
    TermSum(v, 2, a1, b1, p2, q2);
    TermSum(v, 1, a, b, p1, q1);
  }

  lemma RootProduct(v: bv32)
    requires Element(v)
    ensures Product(0xd, v) == ByRoot(0, v)
  {
    assert TimesE(1) == 2 && Xor(1, 2) == 3 && TimesE(3) == 6 && TimesE(6) == 12 && Xor(1, 12) == 0xd;
    hide Product, TimesE, Xor, Element;
    ProductOne(v);
    ProductTimesE(1, v);
    ProductSum(1, 2, v);
    ProductTimesE(3, v);
    ProductTimesE(6, v);
    ProductSum(1, 12, v);
  }

  /** The three points are powers of e. */
  lemma {:induction false} RootPower(t: nat, v: bv32)
    requires Element(v)
    ensures ByRoot(t, v) == TimesPower(997 + t, v)
  {
    hide TimesE, Element, Product, Xor;
    if t == 0 {
      Powers();
      PowerProduct(997, v);
      RootProduct(v);
    } else {
      RootPower(t - 1, v);
    }
  }

  /** One step of Horner's rule at a root. */
  function Horner(t: nat, x: bv32, s: bv32): bv32 {
    Xor(ByRoot(t, x), Embedded(s))
  }

  lemma HornerLinear(t: nat, x: bv32, y: bv32, s: bv32, r: bv32)
    ensures Horner(t, Xor(x, y), Xor(s, r)) == Xor(Horner(t, x, s), Horner(t, y, r))
  {
    hide ByRoot, Embedded, Xor;
    ByRootLinear(t, x, y);
    EmbeddedLinear(s, r);
    XorPairs(ByRoot(t, x), ByRoot(t, y), Embedded(s), Embedded(r));
  }

  lemma HornerNothing(t: nat, x: bv32, s: bv32)
    ensures Horner(t, 0, s) == Embedded(s) && Horner(t, x, 0) == ByRoot(t, x)
  {
    hide ByRoot, Embedded, Xor;
    ByRootNothing(t);
    EmbeddedElement(0);
    XorSelf(Embedded(s));
    XorSelf(ByRoot(t, x));
  }

  /** The i-th symbol of a remainder, the lowest first. */
  function Coefficient(c: bv32, i: nat): bv32 {
    if i == 0 then c & 31 else if i == 1 then (c >> 5) & 31 else if i == 2 then (c >> 10) & 31
    else if i == 3 then (c >> 15) & 31 else if i == 4 then (c >> 20) & 31 else (c >> 25) & 31
  }

  lemma SymbolLinear(a: bv32, b: bv32, i: nat)
    ensures Coefficient(Xor(a, b), i) == Xor(Coefficient(a, i), Coefficient(b, i))
  {
    if i == 0 {
    } else if i == 1 {
    } else if i == 2 {
    } else if i == 3 {
    } else if i == 4 {
    }
  }

  /** The polynomial whose coefficients are the six symbols, at a root. */
  function At(t: nat, c: bv32): bv32 {
    Horner(t, Horner(t, Horner(t,
        Horner(t, Horner(t, Embedded(Coefficient(c, 5)), Coefficient(c, 4)), Coefficient(c, 3)), Coefficient(c, 2)),
                     Coefficient(c, 1)), Coefficient(c, 0))
  }

  lemma AtLinear(t: nat, a: bv32, b: bv32)
    ensures At(t, Xor(a, b)) == Xor(At(t, a), At(t, b))
  {
    hide Horner, Coefficient, Embedded, Xor;
    var x5, y5 := Embedded(Coefficient(a, 5)), Embedded(Coefficient(b, 5));
    var x4, y4 := Horner(t, x5, Coefficient(a, 4)), Horner(t, y5, Coefficient(b, 4));
    var x3, y3 := Horner(t, x4, Coefficient(a, 3)), Horner(t, y4, Coefficient(b, 3));
    var x2, y2 := Horner(t, x3, Coefficient(a, 2)), Horner(t, y3, Coefficient(b, 2));
    var x1, y1 := Horner(t, x2, Coefficient(a, 1)), Horner(t, y2, Coefficient(b, 1));
    SymbolLinear(a, b, 0);
    SymbolLinear(a, b, 1);
    SymbolLinear(a, b, 2);
    SymbolLinear(a, b, 3);
    SymbolLinear(a, b, 4);
    SymbolLinear(a, b, 5);
    EmbeddedLinear(Coefficient(a, 5), Coefficient(b, 5));
    HornerLinear(t, x5, y5, Coefficient(a, 4), Coefficient(b, 4));
    HornerLinear(t, x4, y4, Coefficient(a, 3), Coefficient(b, 3));
    HornerLinear(t, x3, y3, Coefficient(a, 2), Coefficient(b, 2));
    HornerLinear(t, x2, y2, Coefficient(a, 1), Coefficient(b, 1));
    HornerLinear(t, x1, y1, Coefficient(a, 0), Coefficient(b, 0));
  }

  lemma OneSymbol(s: Symbol)
    ensures Coefficient(s, 0) == s && Coefficient(s, 1) == 0 && Coefficient(s, 2) == 0 && Coefficient(s, 3) == 0
    ensures Coefficient(s, 4) == 0 && Coefficient(s, 5) == 0
  {
  }

  lemma AtSymbol(t: nat, s: Symbol)
    ensures At(t, s) == Embedded(s) && At(t, 0) == 0
  {
    hide Horner, Coefficient, Embedded;
    OneSymbol(s);
    OneSymbol(0);
    EmbeddedElement(0);
    HornerNothing(t, 0, 0);
    HornerNothing(t, 0, s);
  }

  // ---------------------------------------------------------------- the roots of the generator

  /** At a root, multiplication by x modulo the generator is multiplication by the root. */
  ghost predicate Agrees(t: nat, x: bv32) {
    At(t, Turn(x)) == ByRoot(t, At(t, x))
  }

  lemma AgreesXor(t: nat, a: bv32, b: bv32)
    requires Agrees(t, a) && Agrees(t, b)
    ensures Agrees(t, Xor(a, b))
  {
    hide Xor, Turn, At, ByRoot;
    TurnLinear(a, b);
    AtLinear(t, a, b);
    AtLinear(t, Turn(a), Turn(b));
    ByRootLinear(t, At(t, a), At(t, b));
  }

  function Up(x: bv32): bv32 {
    x << 5
  }

  lemma UpSymbols(x: bv32)
    requires x < 0x200_0000
    ensures Coefficient(Up(x), 0) == 0 && Coefficient(x, 5) == 0
    ensures Coefficient(Up(x), 1) == Coefficient(x, 0) && Coefficient(Up(x), 2) == Coefficient(x, 1)
    ensures Coefficient(Up(x), 3) == Coefficient(x, 2)
    ensures Coefficient(Up(x), 4) == Coefficient(x, 3) && Coefficient(Up(x), 5) == Coefficient(x, 4)
  {
  }

  lemma AgreesUnder(t: nat, x: bv32)
    requires x < 0x200_0000
    ensures Agrees(t, x)
  {
    hide Turn, Horner, Coefficient, Embedded, ByRoot, Up;
    TurnShift(x);
    UpIs(x);
    UpSymbols(x);
    EmbeddedElement(0);
    HornerNothing(t, 0, Coefficient(x, 4));
    HornerNothing(t, At(t, x), 0);
  }

  lemma UpIs(x: bv32)
    ensures Up(x) == x << 5
  {
  }

  lemma TurnTop()
    ensures Turn(0x0200_0000) == 0x3b6a57b2 && Turn(0x0400_0000) == 0x26508e6d && Turn(0x0800_0000) == 0x1ea119fa
    ensures Turn(0x1000_0000) == 0x3d4233dd && Turn(0x2000_0000) == 0x2a1462b3
  {
  }

  lemma TopSymbols()
    ensures Coefficient(0x3b6a57b2, 0) == 18 && Coefficient(0x3b6a57b2, 1) == 29 && Coefficient(0x3b6a57b2, 2) == 21
    ensures Coefficient(0x3b6a57b2, 3) == 20 && Coefficient(0x3b6a57b2, 4) == 22 && Coefficient(0x3b6a57b2, 5) == 29
    ensures Coefficient(0x26508e6d, 0) == 13 && Coefficient(0x26508e6d, 1) == 19 && Coefficient(0x26508e6d, 2) == 3
    ensures Coefficient(0x26508e6d, 3) == 1 && Coefficient(0x26508e6d, 4) == 5 && Coefficient(0x26508e6d, 5) == 19
    ensures Coefficient(0x1ea119fa, 0) == 26 && Coefficient(0x1ea119fa, 1) == 15 && Coefficient(0x1ea119fa, 2) == 6
    ensures Coefficient(0x1ea119fa, 3) == 2 && Coefficient(0x1ea119fa, 4) == 10 && Coefficient(0x1ea119fa, 5) == 15
    ensures Coefficient(0x3d4233dd, 0) == 29 && Coefficient(0x3d4233dd, 1) == 30 && Coefficient(0x3d4233dd, 2) == 12
    ensures Coefficient(0x3d4233dd, 3) == 4 && Coefficient(0x3d4233dd, 4) == 20 && Coefficient(0x3d4233dd, 5) == 30
    ensures Coefficient(0x2a1462b3, 0) == 19 && Coefficient(0x2a1462b3, 1) == 21 && Coefficient(0x2a1462b3, 2) == 24
    ensures Coefficient(0x2a1462b3, 3) == 8 && Coefficient(0x2a1462b3, 4) == 1 && Coefficient(0x2a1462b3, 5) == 21
  {
  }

  lemma TopAlone()
    ensures Coefficient(0x0200_0000, 0) == 0 && Coefficient(0x0200_0000, 1) == 0 && Coefficient(0x0200_0000, 2) == 0
    ensures Coefficient(0x0200_0000, 3) == 0 && Coefficient(0x0200_0000, 4) == 0 && Coefficient(0x0200_0000, 5) == 1
    ensures Coefficient(0x0400_0000, 0) == 0 && Coefficient(0x0400_0000, 1) == 0 && Coefficient(0x0400_0000, 2) == 0
    ensures Coefficient(0x0400_0000, 3) == 0 && Coefficient(0x0400_0000, 4) == 0 && Coefficient(0x0400_0000, 5) == 2
    ensures Coefficient(0x0800_0000, 0) == 0 && Coefficient(0x0800_0000, 1) == 0 && Coefficient(0x0800_0000, 2) == 0
    ensures Coefficient(0x0800_0000, 3) == 0 && Coefficient(0x0800_0000, 4) == 0 && Coefficient(0x0800_0000, 5) == 4
    ensures Coefficient(0x1000_0000, 0) == 0 && Coefficient(0x1000_0000, 1) == 0 && Coefficient(0x1000_0000, 2) == 0
    ensures Coefficient(0x1000_0000, 3) == 0 && Coefficient(0x1000_0000, 4) == 0 && Coefficient(0x1000_0000, 5) == 8
    ensures Coefficient(0x2000_0000, 0) == 0 && Coefficient(0x2000_0000, 1) == 0 && Coefficient(0x2000_0000, 2) == 0
    ensures Coefficient(0x2000_0000, 3) == 0 && Coefficient(0x2000_0000, 4) == 0 && Coefficient(0x2000_0000, 5) == 16
  {
  }

  lemma Embeddings()
    ensures Embedded(0) == 0x0 && Embedded(1) == 0x1 && Embedded(2) == 0x14d && Embedded(3) == 0x14c
    ensures Embedded(4) == 0x283
    ensures Embedded(5) == 0x282
    ensures Embedded(6) == 0x3ce && Embedded(8) == 0x267 && Embedded(10) == 0x32a && Embedded(12) == 0xe4
    ensures Embedded(13) == 0xe5 && Embedded(15) == 0x1a8
    ensures Embedded(16) == 0x122 && Embedded(18) == 0x6f && Embedded(19) == 0x6e && Embedded(20) == 0x3a1
    ensures Embedded(21) == 0x3a0 && Embedded(22) == 0x2ec
    ensures Embedded(24) == 0x345 && Embedded(26) == 0x208 && Embedded(29) == 0x1c7 && Embedded(30) == 0x8b
  {
  }

  lemma Root0Top1()
    ensures At(0, 0x3b6a57b2) == ByRoot(0, At(0, 0x0200_0000))
  {
    assert Horner(0, 0x1c7, 22) == 0x60 && Horner(0, 0x60, 20) == 0x141 && Horner(0, 0x141, 21) == 0x1a7;
    assert Horner(0, 0x1a7, 29) == 0x1ab && Horner(0, 0x1ab, 18) == 0x5f;
    assert Horner(0, 0x1, 0) == 0xd && Horner(0, 0xd, 0) == 0x51 && Horner(0, 0x51, 0) == 0x39d;
    assert Horner(0, 0x39d, 0) == 0x3fa && Horner(0, 0x3fa, 0) == 0x139 && ByRoot(0, 0x139) == 0x5f;
    hide Horner, Embedded, Coefficient, ByRoot;
    TopSymbols();
    TopAlone();
    Embeddings();
  }

  lemma Root0Top2()
    ensures At(0, 0x26508e6d) == ByRoot(0, At(0, 0x0400_0000))
  {
    assert Horner(0, 0x6e, 5) == 0x24 && Horner(0, 0x24, 1) == 0x195 && Horner(0, 0x195, 3) == 0x4a;
    assert Horner(0, 0x4a, 19) == 0x35c && Horner(0, 0x35c, 13) == 0xf7;
    assert Horner(0, 0x14d, 0) == 0x25b && Horner(0, 0x25b, 0) == 0x17b && Horner(0, 0x17b, 0) == 0x305;
    assert Horner(0, 0x305, 0) == 0x3e7 && Horner(0, 0x3e7, 0) == 0x1b8 && ByRoot(0, 0x1b8) == 0xf7;
    hide Horner, Embedded, Coefficient, ByRoot;
    TopSymbols();
    TopAlone();
    Embeddings();
  }

  lemma Root0Top4()
    ensures At(0, 0x1ea119fa) == ByRoot(0, At(0, 0x0800_0000))
  {
    assert Horner(0, 0x1a8, 10) == 0x30d && Horner(0, 0x30d, 2) == 0x2c2 && Horner(0, 0x2c2, 6) == 0x2a5;
    assert Horner(0, 0x2a5, 15) == 0x200 && Horner(0, 0x200, 26) == 0x9c;
    assert Horner(0, 0x283, 0) == 0x226 && Horner(0, 0x226, 0) == 0x31a && Horner(0, 0x31a, 0) == 0x37c;
    assert Horner(0, 0x37c, 0) == 0x1b2 && Horner(0, 0x1b2, 0) == 0x85 && ByRoot(0, 0x85) == 0x9c;
    hide Horner, Embedded, Coefficient, ByRoot;
    TopSymbols();
    TopAlone();
    Embeddings();
  }

  lemma Root0Top8()
    ensures At(0, 0x3d4233dd) == ByRoot(0, At(0, 0x1000_0000))
  {
    assert Horner(0, 0x8b, 20) == 0x37b && Horner(0, 0x37b, 4) == 0x312 && Horner(0, 0x312, 12) == 0x3f0;
    assert Horner(0, 0x3f0, 30) == 0x1c0 && Horner(0, 0x1c0, 29) == 0x368;
    assert Horner(0, 0x267, 0) == 0x57 && Horner(0, 0x57, 0) == 0x3b3 && Horner(0, 0x3b3, 0) == 0x21c;
    assert Horner(0, 0x21c, 0) == 0x218 && Horner(0, 0x218, 0) == 0x22c && ByRoot(0, 0x22c) == 0x368;
    hide Horner, Embedded, Coefficient, ByRoot;
    TopSymbols();
    TopAlone();
    Embeddings();
  }

  lemma Root0Top16()
    ensures At(0, 0x2a1462b3) == ByRoot(0, At(0, 0x2000_0000))
  {
    assert Horner(0, 0x3a0, 1) == 0x2da && Horner(0, 0x2da, 8) == 0x3b4 && Horner(0, 0x3b4, 24) == 0x17a;
    assert Horner(0, 0x17a, 21) == 0xa8 && Horner(0, 0xa8, 19) == 0x103;
    assert Horner(0, 0x122, 0) == 0xf0 && Horner(0, 0xf0, 0) == 0x295 && Horner(0, 0x295, 0) == 0x2d8;
    assert Horner(0, 0x2d8, 0) == 0x1c9 && Horner(0, 0x1c9, 0) == 0x2ca && ByRoot(0, 0x2ca) == 0x103;
    hide Horner, Embedded, Coefficient, ByRoot;
    TopSymbols();
    TopAlone();
    Embeddings();
  }

  lemma Root1Top1()
    ensures At(1, 0x3b6a57b2) == ByRoot(1, At(1, 0x0200_0000))
  {
    assert Horner(1, 0x1c7, 22) == 0x1d1 && Horner(1, 0x1d1, 20) == 0x160 && Horner(1, 0x160, 21) == 0x2d1;
    assert Horner(1, 0x2d1, 29) == 0x29f && Horner(1, 0x29f, 18) == 0x31e;
    assert Horner(1, 0x1, 0) == 0x1a && Horner(1, 0x1a, 0) == 0x144 && Horner(1, 0x144, 0) == 0x259;
    assert Horner(1, 0x259, 0) == 0x2c2 && Horner(1, 0x2c2, 0) == 0x2d6 && ByRoot(1, 0x2d6) == 0x31e;
    hide Horner, Embedded, Coefficient, ByRoot;
    TopSymbols();
    TopAlone();
    Embeddings();
  }

  lemma Root1Top2()
    ensures At(1, 0x26508e6d) == ByRoot(1, At(1, 0x0400_0000))
  {
    assert Horner(1, 0x6e, 5) == 0x1eb && Horner(1, 0x1eb, 1) == 0xc4 && Horner(1, 0xc4, 3) == 0xcb;
    assert Horner(1, 0xcb, 19) == 0x17f && Horner(1, 0x17f, 13) == 0xa2;
    assert Horner(1, 0x14d, 0) == 0x293 && Horner(1, 0x293, 0) == 0x3c9 && Horner(1, 0x3c9, 0) == 0xbc;
    assert Horner(1, 0xbc, 0) == 0x312 && Horner(1, 0x312, 0) == 0xd && ByRoot(1, 0xd) == 0xa2;
    hide Horner, Embedded, Coefficient, ByRoot;
    TopSymbols();
    TopAlone();
    Embeddings();
  }

  lemma Root1Top4()
    ensures At(1, 0x1ea119fa) == ByRoot(1, At(1, 0x0800_0000))
  {
    assert Horner(1, 0x1a8, 10) == 0x364 && Horner(1, 0x364, 2) == 0x359 && Horner(1, 0x359, 6) == 0x398;
    assert Horner(1, 0x398, 15) == 0xb && Horner(1, 0xb, 26) == 0x2f6;
    assert Horner(1, 0x283, 0) == 0x269 && Horner(1, 0x269, 0) == 0x22 && Horner(1, 0x22, 0) == 0x374;
    assert Horner(1, 0x374, 0) == 0x3b4 && Horner(1, 0x3b4, 0) == 0x25b && ByRoot(1, 0x25b) == 0x2f6;
    hide Horner, Embedded, Coefficient, ByRoot;
    TopSymbols();
    TopAlone();
    Embeddings();
  }

  lemma Root1Top8()
    ensures At(1, 0x3d4233dd) == ByRoot(1, At(1, 0x1000_0000))
  {
    assert Horner(1, 0x8b, 20) == 0x215 && Horner(1, 0x215, 4) == 0x5c && Horner(1, 0x5c, 12) == 0x159;
    assert Horner(1, 0x159, 30) == 0x3d0 && Horner(1, 0x3d0, 29) == 0x11;
    assert Horner(1, 0x267, 0) == 0xae && Horner(1, 0xae, 0) == 0x286 && Horner(1, 0x286, 0) == 0x21b;
    assert Horner(1, 0x21b, 0) == 0x253 && Horner(1, 0x253, 0) == 0x226 && ByRoot(1, 0x226) == 0x11;
    hide Horner, Embedded, Coefficient, ByRoot;
    TopSymbols();
    TopAlone();
    Embeddings();
  }

  lemma Root1Top16()
    ensures At(1, 0x2a1462b3) == ByRoot(1, At(1, 0x2000_0000))
  {
    assert Horner(1, 0x3a0, 1) == 0x392 && Horner(1, 0x392, 8) == 0x320 && Horner(1, 0x320, 24) == 0x19c;
    assert Horner(1, 0x19c, 21) == 0x166 && Horner(1, 0x166, 19) == 0x143;
    assert Horner(1, 0x122, 0) == 0x1e0 && Horner(1, 0x1e0, 0) == 0x3b && Horner(1, 0x3b, 0) == 0x21e;
    assert Horner(1, 0x21e, 0) == 0x221 && Horner(1, 0x221, 0) == 0x57 && ByRoot(1, 0x57) == 0x143;
    hide Horner, Embedded, Coefficient, ByRoot;
    TopSymbols();
    TopAlone();
    Embeddings();
  }

  lemma Root2Top1()
    ensures At(2, 0x3b6a57b2) == ByRoot(2, At(2, 0x0200_0000))
  {
    assert Horner(2, 0x1c7, 22) == 0x2b3 && Horner(2, 0x2b3, 20) == 0x2b3 && Horner(2, 0x2b3, 21) == 0x2b2;
    assert Horner(2, 0x2b2, 29) == 0xe1 && Horner(2, 0xe1, 18) == 0x320;
    assert Horner(2, 0x1, 0) == 0x34 && Horner(2, 0x34, 0) == 0x335 && Horner(2, 0x335, 0) == 0x33;
    assert Horner(2, 0x33, 0) == 0x3b9 && Horner(2, 0x3b9, 0) == 0x3d7 && ByRoot(2, 0x3d7) == 0x320;
    hide Horner, Embedded, Coefficient, ByRoot;
    TopSymbols();
    TopAlone();
    Embeddings();
  }

  lemma Root2Top2()
    ensures At(2, 0x26508e6d) == ByRoot(2, At(2, 0x0400_0000))
  {
    assert Horner(2, 0x6e, 5) == 0x275 && Horner(2, 0x275, 1) == 0x275 && Horner(2, 0x275, 3) == 0x338;
    assert Horner(2, 0x338, 19) == 0x119 && Horner(2, 0x119, 13) == 0x13c;
    assert Horner(2, 0x14d, 0) == 0x303 && Horner(2, 0x303, 0) == 0x36e && Horner(2, 0x36e, 0) == 0x3c5;
    assert Horner(2, 0x3c5, 0) == 0x8 && Horner(2, 0x8, 0) == 0x1a0 && ByRoot(2, 0x1a0) == 0x13c;
    hide Horner, Embedded, Coefficient, ByRoot;
    TopSymbols();
    TopAlone();
    Embeddings();
  }

  lemma Root2Top4()
    ensures At(2, 0x1ea119fa) == ByRoot(2, At(2, 0x0800_0000))
  {
    assert Horner(2, 0x1a8, 10) == 0x3b6 && Horner(2, 0x3b6, 2) == 0x3b6 && Horner(2, 0x3b6, 6) == 0x135;
    assert Horner(2, 0x135, 15) == 0x1a4 && Horner(2, 0x1a4, 26) == 0x3e4;
    assert Horner(2, 0x283, 0) == 0x2f7 && Horner(2, 0x2f7, 0) == 0x88 && Horner(2, 0x88, 0) == 0x334;
    assert Horner(2, 0x334, 0) == 0x7 && Horner(2, 0x7, 0) == 0x8c && ByRoot(2, 0x8c) == 0x3e4;
    hide Horner, Embedded, Coefficient, ByRoot;
    TopSymbols();
    TopAlone();
    Embeddings();
  }

  lemma Root2Top8()
    ensures At(2, 0x3d4233dd) == ByRoot(2, At(2, 0x1000_0000))
  {
    assert Horner(2, 0x8b, 20) == 0xc9 && Horner(2, 0xc9, 4) == 0xc9 && Horner(2, 0xc9, 12) == 0x2ae;
    assert Horner(2, 0x2ae, 30) == 0x39d && Horner(2, 0x39d, 29) == 0x265;
    assert Horner(2, 0x267, 0) == 0x15c && Horner(2, 0x15c, 0) == 0x77 && Horner(2, 0x77, 0) == 0x223;
    assert Horner(2, 0x223, 0) == 0xc6 && Horner(2, 0xc6, 0) == 0x366 && ByRoot(2, 0x366) == 0x265;
    hide Horner, Embedded, Coefficient, ByRoot;
    TopSymbols();
    TopAlone();
    Embeddings();
  }

  lemma Root2Top16()
    ensures At(2, 0x2a1462b3) == ByRoot(2, At(2, 0x2000_0000))
  {
    assert Horner(2, 0x3a0, 1) == 0x102 && Horner(2, 0x102, 8) == 0x102 && Horner(2, 0x102, 24) == 0x20;
    assert Horner(2, 0x20, 21) == 0x305 && Horner(2, 0x305, 19) == 0x3b8;
    assert Horner(2, 0x122, 0) == 0x3c0 && Horner(2, 0x3c0, 0) == 0xec && Horner(2, 0xec, 0) == 0x20b;
    assert Horner(2, 0x20b, 0) == 0x1c3 && Horner(2, 0x1c3, 0) == 0x8f && ByRoot(2, 0x8f) == 0x3b8;
    hide Horner, Embedded, Coefficient, ByRoot;
    TopSymbols();
    TopAlone();
    Embeddings();
  }

  predicate Top(k: bv32) {
    k == 0x0200_0000 || k == 0x0400_0000 || k == 0x0800_0000 || k == 0x1000_0000 || k == 0x2000_0000
  }

  lemma AgreesTop(t: nat, k: bv32)
    requires t < 3 && Top(k)
    ensures Agrees(t, k)
  {
    TurnTop();
    hide At, ByRoot, Turn;
    if t == 0 {
      Root0Top1();
      Root0Top2();
      Root0Top4();
      Root0Top8();
      Root0Top16();
    } else if t == 1 {
      Root1Top1();
      Root1Top2();
      Root1Top4();
      Root1Top8();
      Root1Top16();
    } else {
      Root2Top1();
      Root2Top2();
      Root2Top4();
      Root2Top8();
      Root2Top16();
    }
  }

  function Without(x: bv32, k: bv32): bv32 {
    x & !k
  }

  lemma Strip(x: bv32, k: bv32)
    requires Top(k)
    ensures x == Without(x, k) || x == Xor(Without(x, k), k)
  {
    if k == 0x0200_0000 {
    } else if k == 0x0400_0000 {
    } else if k == 0x0800_0000 {
    } else if k == 0x1000_0000 {
    }
  }

  lemma StripAll(x: bv32)
    requires Packed(x)
    ensures Without(Without(Without(Without(Without(x, 0x2000_0000), 0x1000_0000), 0x0800_0000), 0x0400_0000),
      0x0200_0000) < 0x200_0000
  {
  }

  lemma AgreesStrip(t: nat, x: bv32, k: bv32)
    requires t < 3 && Top(k) && Agrees(t, Without(x, k))
    ensures Agrees(t, x)
  {
    hide Agrees, Without, Xor;
    Strip(x, k);
    AgreesTop(t, k);
    AgreesXor(t, Without(x, k), k);
  }

  /** At each of the three roots, reduction by the generator changes nothing. */
  lemma AgreesAlways(t: nat, x: bv32)
    requires t < 3 && Packed(x)
    ensures Agrees(t, x)
  {
    hide Agrees, Without;
    StripAll(x);
    var x1 := Without(x, 0x2000_0000);
    var x2 := Without(x1, 0x1000_0000);
    var x3 := Without(x2, 0x0800_0000);
    var x4 := Without(x3, 0x0400_0000);
    AgreesUnder(t, Without(x4, 0x0200_0000));
    AgreesStrip(t, x4, 0x0200_0000);
    AgreesStrip(t, x3, 0x0400_0000);
    AgreesStrip(t, x2, 0x0800_0000);
    AgreesStrip(t, x1, 0x1000_0000);
    AgreesStrip(t, x, 0x2000_0000);
  }

  // ---------------------------------------------------------------- lists of symbols

  lemma HornerElement(t: nat, x: bv32, s: bv32)
    requires Element(x)
    ensures Element(Horner(t, x, s))
  {
    hide ByRoot, Embedded, Element, Xor;
    RootPower(t, x);
    PowerElement(997 + t, x);
    EmbeddedElement(s);
    XorElement(ByRoot(t, x), Embedded(s));
  }

  lemma AtElement(t: nat, c: bv32)
    ensures Element(At(t, c))
  {
    hide Horner, Embedded, Coefficient, Element;
    EmbeddedElement(Coefficient(c, 5));
    var x4 := Horner(t, Embedded(Coefficient(c, 5)), Coefficient(c, 4));
    var x3 := Horner(t, x4, Coefficient(c, 3));
    var x2 := Horner(t, x3, Coefficient(c, 2));
    var x1 := Horner(t, x2, Coefficient(c, 1));
    HornerElement(t, Embedded(Coefficient(c, 5)), Coefficient(c, 4));
    HornerElement(t, x4, Coefficient(c, 3));
    HornerElement(t, x3, Coefficient(c, 2));
    HornerElement(t, x2, Coefficient(c, 1));
    HornerElement(t, x1, Coefficient(c, 0));
  }

  /** A round of PolyMod multiplies the value at a root by that root and adds the new symbol. */
  lemma AtStep(t: nat, c: bv32, s: Symbol)
    requires t < 3 && Packed(c)
    ensures At(t, Step(c, s)) == Xor(TimesPower(997 + t, At(t, c)), Embedded(s))
  {
    AgreesAlways(t, c);
    hide At, Turn, ByRoot, Embedded, Xor, TimesPower, Packed;
    AtLinear(t, Turn(c), s);
    AtSymbol(t, s);
    AtElement(t, c);
    RootPower(t, At(t, c));
  }

  /** A symbol k places after everything else. */
  lemma {:induction false} AtApart(t: nat, x: bv32, k: nat, s: Symbol)
    requires t < 3 && k > 0 && Packed(x)
    ensures (997 + t) * k >= 0
    ensures At(t, From(x, Zeros(k - 1) + [s])) == Xor(TimesPower((997 + t) * k, At(t, x)), Embedded(s))
  {
    hide At, Step, Embedded, Xor, TimesPower, Packed;
    var v := Zeros(k - 1) + [s];
    assert v[..|v| - 1] == Zeros(k - 1);
    FromPacked(x, Zeros(k - 1));
    AtZeros(t, x, k - 1);
    AtStep(t, From(x, Zeros(k - 1)), s);
    PowerSum(997 + t, (997 + t) * (k - 1), At(t, x));
    Distribute(k - 1, 1, 997 + t);
  }

  lemma {:induction false} AtZeros(t: nat, x: bv32, k: nat)
    requires t < 3 && Packed(x)
    ensures (997 + t) * k >= 0 && At(t, From(x, Zeros(k))) == TimesPower((997 + t) * k, At(t, x))
  {
    hide At, Step, Embedded, Xor, Packed, TimesE;
    if k == 0 {
      assert Zeros(0) == [];
    } else {
      hide TimesPower;
      AtZeros(t, x, k - 1);
      var y := From(x, Zeros(k - 1));
      FromPacked(x, Zeros(k - 1));
      assert Zeros(k)[..k - 1] == Zeros(k - 1) && Zeros(k)[k - 1] == 0;
      AtStep(t, y, 0);
      EmbeddedElement(0);
      XorSelf(TimesPower(997 + t, At(t, y)));
      PowerSum(997 + t, (997 + t) * (k - 1), At(t, x));
      Distribute(k - 1, 1, 997 + t);
    }
  }

  // ---------------------------------------------------------------- three errors

  /** Three symbols with zeros between them. */
  function Triple(a: Symbol, j: nat, b: Symbol, k: nat, c: Symbol): (v: seq<Symbol>)
    requires j > 0 && k > 0
    ensures |v| == j + k + 1
  {
    [a] + (Zeros(j - 1) + [b]) + (Zeros(k - 1) + [c])
  }

  lemma TripleFrom(a: Symbol, j: nat, b: Symbol, k: nat, c: Symbol)
    requires j > 0 && k > 0
    ensures Packed(a) && Packed(From(a, Zeros(j - 1) + [b]))
    ensures From(0, Triple(a, j, b, k, c)) == From(From(a, Zeros(j - 1) + [b]), Zeros(k - 1) + [c])
  {
    SymbolFirst(a);
    hide From, Packed;
    FromPacked(a, Zeros(j - 1) + [b]);
    FromAppend(0, [a], Zeros(j - 1) + [b]);
    FromAppend(0, [a] + (Zeros(j - 1) + [b]), Zeros(k - 1) + [c]);
  }

  lemma SymbolFirst(a: Symbol)
    ensures From(0, [a]) == a && Packed(a)
  {
    hide Turn, Xor;
    StepZero(0);
    XorSelf(a);
    assert [a][..0] == [];
  }

  lemma {:induction false} SplitPower(t: nat, m: nat, v: bv32)
    ensures TimesPower((997 + t) * m, v) == TimesPower(t * m, TimesPower(997 * m, v))
  {
    hide TimesPower;
    Distribute(997, t, m);
    PowerSum(t * m, 997 * m, v);
  }

  /** The value of three symbols at each root. */
  lemma {:induction false} TripleAt(t: nat, a: Symbol, j: nat, b: Symbol, k: nat, c: Symbol)
    requires t < 3 && j > 0 && k > 0
    ensures At(t, From(0, Triple(a, j, b, k, c))) ==
            Xor(Xor(TimesPower(t * (j + k), TimesPower(997 * (j + k), Embedded(a))),
                TimesPower(t * k, TimesPower(997 * k, Embedded(b)))), Embedded(c))
  {
    hide At, From, Embedded, Xor, TimesPower, Packed, Triple;
    TripleFrom(a, j, b, k, c);
    AtSymbol(t, a);
    AtApart(t, a, j, b);
    AtApart(t, From(a, Zeros(j - 1) + [b]), k, c);
    PowerLinear((997 + t) * k, TimesPower((997 + t) * j, Embedded(a)), Embedded(b));
    PowerSum((997 + t) * k, (997 + t) * j, Embedded(a));
    Distribute(k, j, 997 + t);
    SplitPower(t, j + k, Embedded(a));
    SplitPower(t, k, Embedded(b));
  }

  lemma {:induction false} NoPower(v: bv32)
    ensures TimesPower(0, v) == v
  {
  }

  /** Three symbols within 1023 places leave no remainder only if they are zero. */
  lemma {:induction false} TripleRemains(a: Symbol, j: nat, b: Symbol, k: nat, c: Symbol)
    requires j > 0 && k > 0 && j + k < 1023 && From(0, Triple(a, j, b, k, c)) == 0
    ensures a == 0 && b == 0 && c == 0
  {
    hide At, From, Embedded, Xor, TimesPower, Triple, Element;
    var x, y, z := TimesPower(997 * (j + k), Embedded(a)), TimesPower(997 * k, Embedded(b)), Embedded(c);
    TripleAt(0, a, j, b, k, c);
    TripleAt(1, a, j, b, k, c);
    TripleAt(2, a, j, b, k, c);
    AtSymbol(0, 0);
    AtSymbol(1, 0);
    AtSymbol(2, 0);
    NoPower(x);
    NoPower(y);
    EmbeddedElement(a);
    EmbeddedElement(b);
    PowerElement(997 * (j + k), Embedded(a));
    PowerElement(997 * k, Embedded(b));
    Vandermonde(x, y, z, j + k, k);
    PowerZero(997 * (j + k), Embedded(a));
    PowerZero(997 * k, Embedded(b));
    EmbeddedInjective(a);
    EmbeddedInjective(b);
    EmbeddedInjective(c);
  }

  /** The pieces of a list with only three symbols that may differ from zero. */
  lemma TriplePieces(d: seq<Symbol>, i: nat, j: nat, k: nat)
    requires i < j < k < |d| && forall n :: 0 <= n < |d| && n != i && n != j && n != k ==> d[n] == 0
    ensures d == Zeros(i) + Triple(d[i], j - i, d[j], k - j, d[k]) + Zeros(|d| - k - 1)
  {
  }

  lemma {:induction false} OnlyThree(d: seq<Symbol>, i: nat, j: nat, k: nat)
    requires i < j < k < |d| && k - i < 1023 && From(0, d) == 0
    requires forall n :: 0 <= n < |d| && n != i && n != j && n != k ==> d[n] == 0
    ensures AllZero(d)
  {
    hide From, Triple;
    TriplePieces(d, i, j, k);
    RunAcross(i, Triple(d[i], j - i, d[j], k - j, d[k]), |d| - k - 1);
    TripleRemains(d[i], j - i, d[j], k - j, d[k]);
  }

  /** Two lists of the same length that differ, and only within three symbols less than 1023 places apart, cannot both
      verify. */
  lemma {:induction false} TripleDetected(u: seq<Symbol>, w: seq<Symbol>, i: nat, j: nat, k: nat)
    requires |u| == |w| && u != w && i < j < k < |u| && k - i < 1023
    requires forall n :: 0 <= n < |u| && n != i && n != j && n != k ==> u[n] == w[n]
    ensures !(Verifies(u) && Verifies(w))
  {
    hide Xor, From, Difference, XorSymbol;
    var d := Difference(u, w);
    FromLinear(1, 1, u, w);
    XorSelf(1);
    DifferenceZero(u, w);
    hide Difference;
    if From(0, d) == 0 {
      OnlyThree(d, i, j, k);
    }
  }
}
