/** Logarithms modulo 33 of the sums 1 + e^n, src/bech32.cpp. */
module Bech32Logs {
  import opened Numbers
  import opened Bech32Checksum
  import opened Field1024
  import opened Bech32Bch
  import opened Bech32Search

  // ---------------------------------------------------------------- numbers modulo 33 and places

  /** What is left of n modulo 33. */
  function Residue(n: nat): (r: bv7)
    ensures r < 33
  {
    if n == 0 then 0 else Plus(Residue(n - 1), 1)
  }

  lemma PlusOne(a: bv7, b: bv7)
    requires a < 33 && b < 33
    ensures Plus(a, Plus(b, 1)) == Plus(Plus(a, b), 1) && Plus(a, 0) == a
  {
  }

  lemma {:induction false} ResidueSum(m: nat, n: nat)
    ensures Residue(m + n) == Plus(Residue(m), Residue(n))
  {
    hide Plus;
    PlusOne(Residue(m), if n == 0 then 0 else Residue(n - 1));
    if n > 0 {
      ResidueSum(m, n - 1);
    }
  }

  lemma ResidueTurn()
    ensures Residue(33) == 0
  {
    assert Residue(8) == 8;
    assert Residue(16) == 16;
    assert Residue(24) == 24;
    assert Residue(32) == 32;
  }

  lemma {:induction false} ResidueMultiple(k: nat)
    ensures Residue(33 * k) == 0
  {
    if k > 0 {
      ResidueTurn();
      hide Residue;
      ResidueMultiple(k - 1);
      ResidueSum(33 * (k - 1), 33);
      assert Plus(0, 0) == 0;
      assert 33 * (k - 1) + 33 == 33 * k;
    }
  }

  lemma ResidueSame(m: nat, n: nat)
    requires (m - n) % 33 == 0
    ensures Residue(m) == Residue(n)
  {
    var low, k := Min(m, n), (if m < n then n - m else m - n) / 33;
    assert Max(m, n) == low + 33 * k;
    hide Residue, Plus;
    ResidueSum(low, 33 * k);
    ResidueMultiple(k);
    PlusOne(Residue(low), 0);
  }

  /** A place as a seven-bit number. */
  function Place(n: nat): bv7 {
    if n == 0 then 0 else Place(n - 1) + 1
  }

  lemma {:induction false} PlaceIs(n: nat)
    requires n < 128
    ensures Place(n) as int == n
  {
    if n > 0 {
      PlaceIs(n - 1);
    }
  }

  lemma PlaceLess(m: nat, n: nat)
    requires m < n <= 88
    ensures Place(m) < Place(n) <= 88
  {
    hide Place;
    PlaceIs(m);
    PlaceIs(n);
  }

  lemma {:induction false} PlaceSum(m: nat, n: nat)
    ensures Place(m + n) == Place(m) + Place(n)
  {
    if n > 0 {
      PlaceSum(m, n - 1);
    }
  }

  function Minus(a: bv7, b: bv7): bv7 {
    a - b
  }

  lemma PlaceMinus(m: nat, n: nat)
    requires m <= n
    ensures Place(n - m) == Minus(Place(n), Place(m))
  {
    hide Place;
    PlaceSum(n - m, m);
  }

  lemma ModNext(b: bv7)
    requires b < 88
    ensures Mod33(b + 1) == Plus(Mod33(b), 1)
  {
  }

  lemma {:induction false} PlaceResidue(n: nat)
    requires n <= 88
    ensures Mod33(Place(n)) == Residue(n)
  {
    if n > 0 {
      PlaceResidue(n - 1);
      PlaceLess(n - 1, n);
      ModNext(Place(n - 1));
    }
  }

  // ---------------------------------------------------------------- powers of e

  /** The n-th power of e, up to the 88th. */
  function Power(n: bv7): bv32 {
    var b0, b1, b2, b3 := n & 1 != 0, n & 2 != 0, n & 4 != 0, n & 8 != 0;
    var b4, b5, b6 := n & 16 != 0, n & 32 != 0, n & 64 != 0;
    if b6 then
      if b4 then
        if b3 then
          0x17a
        else
          if b2 then
            if b1 then (if b0 then 0xbd else 0x34c) else (if b0 then 0x1a6 else 0xd3)
          else
            if b1 then (if b0 then 0x37b else 0x2af) else (if b0 then 0x245 else 0x230)
      else
        if b3 then
          if b2 then
            if b1 then (if b0 then 0x118 else 0x8c) else (if b0 then 0x46 else 0x23)
          else
            if b1 then (if b0 then 0x303 else 0x293) else (if b0 then 0x25b else 0x23f)
        else
          if b2 then
            if b1 then (if b0 then 0x20d else 0x214) else (if b0 then 0x10a else 0x85)
          else
            if b1 then (if b0 then 0x350 else 0x1a8) else (if b0 then 0xd4 else 0x6a)
    else
      if b5 then
        if b4 then
          if b3 then
            if b2 then
              if b1 then (if b0 then 0x35 else 0x308) else (if b0 then 0x184 else 0xc2)
            else
              if b1 then (if b0 then 0x61 else 0x322) else (if b0 then 0x191 else 0x3da)
          else
            if b2 then
              if b1 then (if b0 then 0x1ed else 0x3e4) else (if b0 then 0x1f2 else 0xf9)
            else
              if b1 then (if b0 then 0x36e else 0x1b7) else (if b0 then 0x3c9 else 0x2f6)
        else
          if b3 then
            if b2 then
              if b1 then (if b0 then 0x17b else 0x3af) else (if b0 then 0x2c5 else 0x270)
            else
              if b1 then (if b0 then 0x138 else 0x9c) else (if b0 then 0x4e else 0x27)
          else
            if b2 then
              if b1 then (if b0 then 0x301 else 0x292) else (if b0 then 0x149 else 0x3b6)
            else
              if b1 then (if b0 then 0x1db else 0x3ff) else (if b0 then 0x2ed else 0x264)
      else
        if b4 then
          if b3 then
            if b2 then
              if b1 then (if b0 then 0x132 else 0x99) else (if b0 then 0x35e else 0x1af)
            else
              if b1 then (if b0 then 0x3c5 else 0x2f0) else (if b0 then 0x178 else 0xbc)
          else
            if b2 then
              if b1 then (if b0 then 0x5e else 0x2f) else (if b0 then 0x305 else 0x290)
            else
              if b1 then (if b0 then 0x148 else 0xa4) else (if b0 then 0x52 else 0x29)
        else
          if b3 then
            if b2 then
              if b1 then (if b0 then 0x306 else 0x183) else (if b0 then 0x3d3 else 0x2fb)
            else
              if b1 then (if b0 then 0x26f else 0x225) else (if b0 then 0x200 else 0x100)
          else
            if b2 then
              if b1 then (if b0 then 0x80 else 0x40) else (if b0 then 0x20 else 0x10)
            else
              if b1 then (if b0 then 0x8 else 0x4) else (if b0 then 0x2 else 0x1)
  }

  lemma NextPower(n: bv7)
    requires n < 88
    ensures Power(n + 1) == TimesE(Power(n)) && Element(Power(n + 1))
  {
  }

  lemma {:induction false} PowerTable(n: nat)
    requires n <= 88
    ensures IsPower(n, Power(Place(n)))
  {
    hide TimesE, Power;
    if n == 0 {
      FirstEntry();
    } else {
      PowerTable(n - 1);
      PlaceIs(n - 1);
      NextPower(Place(n - 1));
    }
  }

  lemma FirstEntry()
    ensures Power(0) == 1 && Element(1)
  {
  }

  /** Exponents of the same power differ by a multiple of 33, for they differ by one of 1023. */
  lemma {:induction false} SameLog(m: nat, n: nat, v: bv32)
    requires IsPower(m, v) && IsPower(n, v)
    ensures (m - n) % 33 == 0
  {
    hide IsPower;
    if m < n {
      Turns(n, m, v);
      Multiple33(n - m);
    } else {
      Turns(m, n, v);
      Multiple33(m - n);
    }
  }

  lemma Multiple33(d: int)
    requires d % 1023 == 0
    ensures d % 33 == 0 && (-d) % 33 == 0
  {
    var k := d / 1023;
    assert d == 1023 * k;
    Multiple(d, 31 * k);
    Multiple(-d, -31 * k);
  }

  lemma {:induction false} Turns(m: nat, n: nat, v: bv32)
    requires m >= n && IsPower(m, v) && IsPower(n, v)
    ensures (m - n) % 1023 == 0
  {
    hide TimesPower, Element;
    FirstEntry();
    PowerSum(m - n, n, 1);
    PowerZero(n, 1);
    FixedTurns(m - n, v);
  }

  lemma {:induction false} FixedTurns(d: nat, v: bv32)
    requires Element(v) && v != 0 && TimesPower(d, v) == v
    ensures d % 1023 == 0
  {
    hide TimesPower, Element;
    var k, r := d / 1023, d % 1023;
    assert d == r + 1023 * k;
    FullTurn(v);
    FixesMultiple(1023, k, v);
    PowerSum(r, 1023 * k, v);
    if r > 0 {
      Free(r, v);
    }
  }

  // ---------------------------------------------------------------- symbols

  /** Twice a symbol, as the field with 32 elements has it. */
  function TwiceSymbol(s: bv32): bv32 {
    if s & 16 == 0 then s << 1 else Xor((s & 15) << 1, 9)
  }

  lemma DoubledLow(s: bv32)
    requires s < 16
    ensures Product(0x14d, Embedded(s)) == Embedded(TwiceSymbol(s))
  {
    assert TimesE(0x14d) == 0x29a && TimesE(0x29a) == 0x311 && TimesE(0x311) == 0x7 && TimesE(0x7) == 0xe;
    assert TimesE(0xe) == 0x1c && TimesE(0x1c) == 0x38 && TimesE(0x38) == 0x70 && TimesE(0x70) == 0xe0;
    assert TimesE(0xe0) == 0x1c0;
    hide TimesE;
  }

  lemma DoubledHigh(s: bv32)
    requires 16 <= s < 32
    ensures Product(0x14d, Embedded(s)) == Embedded(TwiceSymbol(s))
  {
    assert TimesE(0x14d) == 0x29a && TimesE(0x29a) == 0x311 && TimesE(0x311) == 0x7 && TimesE(0x7) == 0xe;
    assert TimesE(0xe) == 0x1c && TimesE(0x1c) == 0x38 && TimesE(0x38) == 0x70 && TimesE(0x70) == 0xe0;
    assert TimesE(0xe0) == 0x1c0;
    hide TimesE;
  }

  lemma DoubledSymbol(s: bv32)
    requires s < 32
    ensures Product(0x14d, Embedded(s)) == Embedded(TwiceSymbol(s))
  {
    hide Product, Embedded, TwiceSymbol;
    if s < 16 {
      DoubledLow(s);
    } else {
      DoubledHigh(s);
    }
  }

  lemma SymbolTwo()
    ensures IsPower(99, 0x14d) && Embedded(1) == 1
  {
    assert Product(0x2ed, 0x2ed) == 0x1a8 && Product(0x2ed, 0x1a8) == 0x14d;
    Powers();
    hide Product, IsPower;
    AddPowers(33, 0x2ed, 33, 0x2ed, 0x1a8);
    AddPowers(33, 0x2ed, 66, 0x1a8, 0x14d);
  }

  /** The element of a symbol is a power of e whose exponent 33 divides. */
  ghost predicate Divided(s: bv32) {
    exists u: nat :: IsPower(33 * u, Embedded(s))
  }

  lemma NextSymbol(s: bv32)
    requires 0 < s < 32 && Divided(s)
    ensures Divided(TwiceSymbol(s))
  {
    var u: nat :| IsPower(33 * u, Embedded(s));
    hide Embedded, Product, Element, TwiceSymbol;
    SymbolTwo();
    DoubledSymbol(s);
    EmbeddedElement(TwiceSymbol(s));
    AddPowers(99, 0x14d, 33 * u, Embedded(s), Embedded(TwiceSymbol(s)));
    assert IsPower(33 * (u + 3), Embedded(TwiceSymbol(s)));
  }

  /** Doubling goes through all symbols. */
  lemma AllSymbols(s: bv32)
    requires 0 < s < 32
    ensures Divided(s)
  {
    FirstSymbol();
    hide Divided;
    NextSymbol(1);
    NextSymbol(2);
    NextSymbol(4);
    NextSymbol(8);
    NextSymbol(16);
    NextSymbol(9);
    NextSymbol(18);
    NextSymbol(13);
    NextSymbol(26);
    NextSymbol(29);
    NextSymbol(19);
    NextSymbol(15);
    NextSymbol(30);
    NextSymbol(21);
    NextSymbol(3);
    NextSymbol(6);
    NextSymbol(12);
    NextSymbol(24);
    NextSymbol(25);
    NextSymbol(27);
    NextSymbol(31);
    NextSymbol(23);
    NextSymbol(7);
    NextSymbol(14);
    NextSymbol(28);
    NextSymbol(17);
    NextSymbol(11);
    NextSymbol(22);
    NextSymbol(5);
    NextSymbol(10);
  }

  lemma FirstSymbol()
    ensures Divided(1)
  {
    SymbolTwo();
    FirstEntry();
    hide Embedded;
    assert IsPower(33 * 0, Embedded(1));
  }

  // ---------------------------------------------------------------- sums

  /** The symbol in 1 + e^n, for an odd place n up to 87. */
  function Unit(n: bv7): bv32 {
    var b1, b2, b3 := n & 2 != 0, n & 4 != 0, n & 8 != 0;
    var b4, b5, b6 := n & 16 != 0, n & 32 != 0, n & 64 != 0;
    if b6 then
      if b4 then
        if b2 then (if b1 then 1 else 13) else (if b1 then 5 else 16)
      else
        if b3 then
          if b2 then (if b1 then 5 else 28) else (if b1 then 16 else 22)
        else
          if b2 then (if b1 then 26 else 10) else (if b1 then 4 else 18)
    else
      if b5 then
        if b4 then
          if b3 then
            if b2 then (if b1 then 19 else 12) else (if b1 then 26 else 27)
          else
            if b2 then (if b1 then 26 else 16) else (if b1 then 29 else 3)
        else
          if b3 then
            if b2 then (if b1 then 15 else 3) else (if b1 then 29 else 31)
          else
            if b2 then (if b1 then 26 else 1) else (if b1 then 15 else 22)
      else
        if b4 then
          if b3 then
            if b2 then (if b1 then 6 else 18) else (if b1 then 3 else 13)
          else
            if b2 then (if b1 then 27 else 6) else (if b1 then 23 else 28)
        else
          if b3 then
            if b2 then (if b1 then 22 else 16) else (if b1 then 29 else 9)
          else
            if b2 then (if b1 then 14 else 16) else (if b1 then 29 else 26)
  }

  /** The logarithm of 1 + e^n modulo 33, for a place n from 1 to 88. */
  function Log(n: bv7): bv7 {
    var b0, b1, b2, b3 := n & 1 != 0, n & 2 != 0, n & 4 != 0, n & 8 != 0;
    var b4, b5, b6 := n & 16 != 0, n & 32 != 0, n & 64 != 0;
    if b6 then
      if b4 then
        if b3 then
          14
        else
          if b2 then
            if b1 then (if b0 then 24 else 4) else (if b0 then 22 else 20)
          else
            if b1 then (if b0 then 30 else 5) else (if b0 then 1 else 5)
      else
        if b3 then
          if b2 then
            if b1 then (if b0 then 21 else 7) else (if b0 then 24 else 16)
          else
            if b1 then (if b0 then 22 else 5) else (if b0 then 25 else 23)
        else
          if b2 then
            if b1 then (if b0 then 7 else 29) else (if b0 then 31 else 25)
          else
            if b1 then (if b0 then 18 else 0) else (if b0 then 4 else 9)
    else
      if b5 then
        if b4 then
          if b3 then
            if b2 then
              if b1 then (if b0 then 9 else 31) else (if b0 then 17 else 9)
            else
              if b1 then (if b0 then 17 else 1) else (if b0 then 20 else 16)
          else
            if b2 then
              if b1 then (if b0 then 30 else 25) else (if b0 then 17 else 14)
            else
              if b1 then (if b0 then 23 else 5) else (if b0 then 24 else 9)
        else
          if b3 then
            if b2 then
              if b1 then (if b0 then 22 else 18) else (if b0 then 14 else 7)
            else
              if b1 then (if b0 then 2 else 10) else 19
          else
            if b2 then
              if b1 then (if b0 then 20 else 8) else (if b0 then 19 else 28)
            else
              if b1 then (if b0 then 31 else 29) else (if b0 then 0 else 21)
      else
        if b4 then
          if b3 then
            if b2 then
              if b1 then (if b0 then 32 else 21) else (if b0 then 17 else 8)
            else
              if b1 then (if b0 then 29 else 7) else (if b0 then 19 else 21)
          else
            if b2 then
              if b1 then (if b0 then 9 else 20) else (if b0 then 5 else 26)
            else
              if b1 then (if b0 then 4 else 14) else (if b0 then 31 else 27)
        else
          if b3 then
            if b2 then
              if b1 then (if b0 then 27 else 4) else (if b0 then 20 else 27)
            else
              if b1 then (if b0 then 10 else 13) else (if b0 then 7 else 30)
          else
            if b2 then
              if b1 then (if b0 then 2 else 30) else (if b0 then 23 else 15)
            else
              if b1 then (if b0 then 15 else 24) else 12
  }

  ghost predicate Splits(n: bv7) {
    Product(Power(Log(n)), Embedded(Unit(n))) == Xor(1, Power(n))
  }

  lemma Split1(n: bv7)
    requires 1 <= n <= 7 && n & 1 == 1
    ensures Splits(n)
  {
    assert Splits(1) && Splits(3) && Splits(5) && Splits(7);
    hide Splits;
  }

  lemma Split9(n: bv7)
    requires 9 <= n <= 15 && n & 1 == 1
    ensures Splits(n)
  {
    assert Splits(9) && Splits(11) && Splits(13) && Splits(15);
    hide Splits;
  }

  lemma Split17(n: bv7)
    requires 17 <= n <= 23 && n & 1 == 1
    ensures Splits(n)
  {
    assert Splits(17) && Splits(19) && Splits(21) && Splits(23);
    hide Splits;
  }

  lemma Split25(n: bv7)
    requires 25 <= n <= 31 && n & 1 == 1
    ensures Splits(n)
  {
    assert Splits(25) && Splits(27) && Splits(29) && Splits(31);
    hide Splits;
  }

  lemma Split33(n: bv7)
    requires 33 <= n <= 39 && n & 1 == 1
    ensures Splits(n)
  {
    assert Splits(33) && Splits(35) && Splits(37) && Splits(39);
    hide Splits;
  }

  lemma Split41(n: bv7)
    requires 41 <= n <= 47 && n & 1 == 1
    ensures Splits(n)
  {
    assert Splits(41) && Splits(43) && Splits(45) && Splits(47);
    hide Splits;
  }

  lemma Split49(n: bv7)
    requires 49 <= n <= 55 && n & 1 == 1
    ensures Splits(n)
  {
    assert Splits(49) && Splits(51) && Splits(53) && Splits(55);
    hide Splits;
  }

  lemma Split57(n: bv7)
    requires 57 <= n <= 63 && n & 1 == 1
    ensures Splits(n)
  {
    assert Splits(57) && Splits(59) && Splits(61) && Splits(63);
    hide Splits;
  }

  lemma Split65(n: bv7)
    requires 65 <= n <= 71 && n & 1 == 1
    ensures Splits(n)
  {
    assert Splits(65) && Splits(67) && Splits(69) && Splits(71);
    hide Splits;
  }

  lemma Split73(n: bv7)
    requires 73 <= n <= 79 && n & 1 == 1
    ensures Splits(n)
  {
    assert Splits(73) && Splits(75) && Splits(77) && Splits(79);
    hide Splits;
  }

  lemma Split81(n: bv7)
    requires 81 <= n <= 87 && n & 1 == 1
    ensures Splits(n)
  {
    assert Splits(81) && Splits(83) && Splits(85) && Splits(87);
    hide Splits;
  }

  lemma Split(n: bv7)
    requires n <= 88 && n & 1 == 1
    ensures Splits(n)
  {
    hide Splits;
    if n <= 7 {
      Split1(n);
    } else if n <= 15 {
      Split9(n);
    } else if n <= 23 {
      Split17(n);
    } else if n <= 31 {
      Split25(n);
    } else if n <= 39 {
      Split33(n);
    } else if n <= 47 {
      Split41(n);
    } else if n <= 55 {
      Split49(n);
    } else if n <= 63 {
      Split57(n);
    } else if n <= 71 {
      Split65(n);
    } else if n <= 79 {
      Split73(n);
    } else {
      Split81(n);
    }
  }

  /** From 1 + e^n to 1 + e^2n by squaring. */
  lemma {:induction false} Squared(n: nat, z: nat)
    requires TimesPower(z, 1) == Xor(1, TimesPower(n, 1))
    ensures TimesPower(2 * z, 1) == Xor(1, TimesPower(2 * n, 1))
  {
    hide TimesPower, Xor;
    var w := TimesPower(n, 1);
    TwicePower(z, 1);
    TwicePower(n, 1);
    PowerLinear(z, 1, w);
    PowerSum(z, n, 1);
    PowerSum(n, z, 1);
    PowerLinear(n, 1, w);
    Telescope(1, w, TimesPower(n, w));
  }

  lemma Telescope(a: bv32, b: bv32, c: bv32)
    ensures Xor(Xor(a, b), Xor(b, c)) == Xor(a, c)
  {
  }

  lemma LogTwice(n: bv7)
    requires 0 < n <= 44
    ensures Log(n + n) == Twice(Log(n))
  {
  }

  lemma LogSmall(n: bv7)
    requires 0 < n <= 88
    ensures Log(n) < 33 && (n & 1 == 1 ==> 0 < Unit(n) < 32)
  {
  }

  lemma {:induction false} OddSum(n: nat) returns (z: nat)
    requires 0 < n <= 88 && n % 2 == 1
    ensures TimesPower(z, 1) == Xor(1, TimesPower(n, 1)) && Residue(z) == Log(Place(n))
  {
    hide TimesPower, Xor, Log, Unit, Place, Residue, Power, Product, Embedded, Plus, Element;
    var b := Place(n);
    PlaceLess(0, n);
    PlaceOdd(n);
    PlaceZero();
    LogSmall(b);
    Split(b);
    var l := Index(Log(b));
    PowerTable(n);
    PowerTable(l);
    AllSymbols(Unit(b));
    var u: nat :| IsPower(33 * u, Embedded(Unit(b)));
    SumElement(Power(b));
    AddPowers(l, Power(Log(b)), 33 * u, Embedded(Unit(b)), Xor(1, Power(b)));
    ResidueSame(l + 33 * u, l);
    z := l + 33 * u;
  }

  lemma Index(b: bv7) returns (l: nat)
    requires b < 33
    ensures l < 33 && Place(l) == b == Residue(l)
  {
    hide Place, Residue;
    l := b as nat;
    PlaceIs(l);
    PlaceResidue(l);
    ModSmall(b);
  }

  lemma PlaceZero()
    ensures Place(0) == 0
  {
  }

  lemma SumElement(v: bv32)
    requires Element(v)
    ensures Element(Xor(1, v))
  {
  }

  lemma ModSmall(b: bv7)
    requires b < 33
    ensures Mod33(b) == b
  {
  }

  lemma {:induction false} PlaceOdd(n: nat)
    ensures (Place(n) & 1 == 1) == (n % 2 == 1)
  {
    if n > 0 {
      PlaceOdd(n - 1);
    }
  }

  lemma EvenLog(h: nat)
    requires 0 < h <= 44
    ensures Log(Place(2 * h)) == Twice(Log(Place(h)))
  {
    hide Log, Twice, Place;
    PlaceSum(h, h);
    assert h + h == 2 * h;
    PlaceLess(0, h);
    PlaceZero();
    PlaceLess(h, 45);
    PlaceIs(45);
    LogTwice(Place(h));
  }

  /** Every sum 1 + e^n is a power of e, and the table has its exponent modulo 33. */
  lemma {:induction false} SumIsPower(n: nat) returns (z: nat)
    requires 0 < n <= 88
    ensures TimesPower(z, 1) == Xor(1, TimesPower(n, 1)) && Residue(z) == Log(Place(n))
  {
    hide TimesPower, Xor, Log, Plus, Twice, Place, Residue;
    if n % 2 == 0 {
      var h := n / 2;
      var y := SumIsPower(h);
      assert 2 * h == n;
      Squared(h, y);
      EvenLog(h);
      ResidueTwice(y);
      z := 2 * y;
    } else {
      z := OddSum(n);
    }
  }

  lemma ZechSmall(b: bv7)
    requires 0 < b <= 88
    ensures Zech(b) < 33
  {
  }

  lemma ResidueTwice(n: nat)
    ensures Residue(2 * n) == Twice(Residue(n))
  {
    hide Residue, Plus;
    ResidueSum(n, n);
    assert n + n == 2 * n;
  }

  lemma ResidueEight(n: nat, four: nat, eight: nat)
    requires four == 4 * n && eight == 8 * n
    ensures Residue(four) == Twice(Twice(Residue(n))) && Residue(eight) == Twice(Twice(Twice(Residue(n))))
  {
    hide Residue, Twice;
    var two := 2 * n;
    ResidueTwice(n);
    ResidueTwice(two);
    ResidueTwice(four);
  }

  lemma ResidueThirteen(n: nat, thirteen: nat)
    requires thirteen == 13 * n
    ensures Residue(thirteen) ==
            Plus(Twice(Twice(Twice(Residue(n)))), Plus(Twice(Twice(Residue(n))), Residue(n)))
  {
    hide Residue, Plus, Twice;
    var four, eight := 4 * n, 8 * n;
    ResidueEight(n, four, eight);
    ResidueSum(four, n);
    ResidueSum(eight, four + n);
    assert eight + (four + n) == thirteen;
  }

  lemma LogIs(b: bv7, n: nat, q: nat, eight: nat, thirteen: nat)
    requires 0 < b <= 88 && Residue(q) == Zech(b) && Residue(n) == Mod33(b) && eight == 8 * q && thirteen == 13 * n
    ensures Log(b) == Residue(eight + thirteen)
  {
    hide Residue, Plus, Twice, Zech, Mod33, Log;
    ZechLog(b);
    ResidueEight(q, 4 * q, eight);
    ResidueThirteen(n, thirteen);
    ResidueSum(eight, thirteen);
  }

  ghost predicate Related(n: bv7) {
    var z, r := Zech(n), Mod33(n);
    Log(n) == Plus(Twice(Twice(Twice(z))), Plus(Twice(Twice(Twice(r))), Plus(Twice(Twice(r)), r)))
  }

  lemma Related1(n: bv7)
    requires 1 <= n <= 11
    ensures Related(n)
  {
    assert Related(1) && Related(2) && Related(3) && Related(4) && Related(5) && Related(6);
    assert Related(7) && Related(8) && Related(9) && Related(10) && Related(11);
    hide Related;
  }

  lemma Related12(n: bv7)
    requires 12 <= n <= 22
    ensures Related(n)
  {
    assert Related(12) && Related(13) && Related(14) && Related(15) && Related(16) && Related(17);
    assert Related(18) && Related(19) && Related(20) && Related(21) && Related(22);
    hide Related;
  }

  lemma Related23(n: bv7)
    requires 23 <= n <= 33
    ensures Related(n)
  {
    assert Related(23) && Related(24) && Related(25) && Related(26) && Related(27) && Related(28);
    assert Related(29) && Related(30) && Related(31) && Related(32) && Related(33);
    hide Related;
  }

  lemma Related34(n: bv7)
    requires 34 <= n <= 44
    ensures Related(n)
  {
    assert Related(34) && Related(35) && Related(36) && Related(37) && Related(38) && Related(39);
    assert Related(40) && Related(41) && Related(42) && Related(43) && Related(44);
    hide Related;
  }

  lemma Related45(n: bv7)
    requires 45 <= n <= 55
    ensures Related(n)
  {
    assert Related(45) && Related(46) && Related(47) && Related(48) && Related(49) && Related(50);
    assert Related(51) && Related(52) && Related(53) && Related(54) && Related(55);
    hide Related;
  }

  lemma Related56(n: bv7)
    requires 56 <= n <= 66
    ensures Related(n)
  {
    assert Related(56) && Related(57) && Related(58) && Related(59) && Related(60) && Related(61);
    assert Related(62) && Related(63) && Related(64) && Related(65) && Related(66);
    hide Related;
  }

  lemma Related67(n: bv7)
    requires 67 <= n <= 77
    ensures Related(n)
  {
    assert Related(67) && Related(68) && Related(69) && Related(70) && Related(71) && Related(72);
    assert Related(73) && Related(74) && Related(75) && Related(76) && Related(77);
    hide Related;
  }

  lemma Related78(n: bv7)
    requires 78 <= n <= 88
    ensures Related(n)
  {
    assert Related(78) && Related(79) && Related(80) && Related(81) && Related(82) && Related(83);
    assert Related(84) && Related(85) && Related(86) && Related(87) && Related(88);
    hide Related;
  }

  lemma ZechLog(n: bv7)
    requires 0 < n <= 88
    ensures Related(n)
  {
    hide Related;
    if n <= 11 {
      Related1(n);
    } else if n <= 22 {
      Related12(n);
    } else if n <= 33 {
      Related23(n);
    } else if n <= 44 {
      Related34(n);
    } else if n <= 55 {
      Related45(n);
    } else if n <= 66 {
      Related56(n);
    } else if n <= 77 {
      Related67(n);
    } else {
      Related78(n);
    }
  }

  /** What the search's table holds. */
  lemma {:induction false} ZechIs(n: nat, z: nat)
    requires 0 < n <= 88 && Residue(z) == Log(Place(n))
    ensures Residue(29 * z + 19 * n) == Zech(Place(n))
  {
    hide Residue, Log, Zech, Place, Mod33;
    PlaceLess(0, n);
    PlaceZero();
    PlaceResidue(n);
    ZechSmall(Place(n));
    var q := Index(Zech(Place(n)));
    LogIs(Place(n), n, q, 8 * q, 13 * n);
    ResidueIs(z);
    ResidueIs(8 * q + 13 * n);
    Scaled(z, n, q);
    ResidueSame(29 * z + 19 * n, q);
  }

  lemma Apart(a: int, b: int) returns (k: int)
    requires a % 33 == b % 33
    ensures a == b + 33 * k
  {
    k := a / 33 - b / 33;
  }

  lemma Multiple(t: int, k: int)
    requires t == 33 * k
    ensures t % 33 == 0
  {
  }

  lemma Scaled(z: int, n: int, q: int)
    requires z % 33 == (8 * q + 13 * n) % 33
    ensures (29 * z + 19 * n - q) % 33 == 0
  {
    var k := Apart(z, 8 * q + 13 * n);
    Multiple(29 * z + 19 * n - q, 29 * k + 7 * q + 12 * n);
  }

  lemma {:induction false} ResidueIs(n: nat)
    ensures Residue(n) as int == n % 33
  {
    if n > 0 {
      ResidueIs(n - 1);
      NextResidue(Residue(n - 1));
    }
  }

  lemma NextResidue(r: bv7)
    requires r < 33
    ensures Plus(r, 1) as int == if r as int == 32 then 0 else r as int + 1
  {
  }
}
