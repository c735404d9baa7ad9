/** The buffers of src/base58.cpp are large enough for every input. */
module Base58Sizes {
  import opened Radix

  /** Digits of base 58 allocated for n bytes, and bytes allocated for n digits. */
  function Size58(n: nat): nat { n * 138 / 100 + 1 }
  function Size256(n: nat): nat { n * 733 / 1000 + 1 }

  lemma Powers58()
    ensures Pow(58, 0) == 1 && Pow(58, 1) == 58 && Pow(58, 2) == 3364 && Pow(58, 3) == 195112 && Pow(58, 4) == 11316496
    ensures Pow(58, 5) == 656356768 && Pow(58, 6) == 38068692544 && Pow(58, 7) == 2207984167552
    ensures Pow(58, 8) == 128063081718016
  {
  }

  lemma Powers58More()
    ensures Pow(58, 9) == 7427658739644928 && Pow(58, 10) == 430804206899405824 && Pow(58, 11) == 24986644000165537792
    ensures Pow(58, 12) == 1449225352009601191936 && Pow(58, 13) == 84055070416556869132288
    ensures Pow(58, 14) == 4875194084160298409672704 && Pow(58, 15) == 282761256881297307761016832
  {
    Powers58();
  }

  lemma Powers256()
    ensures Pow(256, 0) == 1 && Pow(256, 1) == 0x100 && Pow(256, 2) == 0x1_0000 && Pow(256, 3) == 0x100_0000
    ensures Pow(256, 4) == 0x1_0000_0000 && Pow(256, 5) == 0x100_0000_0000 && Pow(256, 6) == 0x1_0000_0000_0000
    ensures Pow(256, 7) == 0x100_0000_0000_0000 && Pow(256, 8) == 0x1_0000_0000_0000_0000
  {
  }

  lemma Powers256More()
    ensures Pow(256, 9) == 0x100_0000_0000_0000_0000 && Pow(256, 10) == 0x1_0000_0000_0000_0000_0000
    ensures Pow(256, 11) == 0x100_0000_0000_0000_0000_0000
  {
    Powers256();
  }

  /** m digits of base a are never more than n digits of base b. */
  ghost predicate Within(a: nat, m: nat, b: nat, n: nat) {
    Pow(a, m) <= Pow(b, n)
  }

  /** Eight bytes fit in eleven digits, and fifteen digits in eleven bytes. */
  lemma Blocks()
    ensures Within(256, 8, 58, 11) && Within(58, 15, 256, 11)
  {
    Powers256();
    Powers256More();
    Powers58More();
  }

  // ---------------------------------------------------------------- bytes in base 58

  /** For up to seven bytes, by evaluation. */
  lemma FewBytes(r: nat)
    requires r < 8
    ensures Within(256, r, 58, Size58(r))
  {
    Powers58();
    Powers58More();
    Powers256();
    hide Pow;
    if r == 0 { assert Size58(r) == 1; } else if r == 1 { assert Size58(r) == 2; }
        else if r == 2 { assert Size58(r) == 3; }
    else if r == 3 { assert Size58(r) == 5; } else if r == 4 { assert Size58(r) == 6; }
        else if r == 5 { assert Size58(r) == 7; }
    else if r == 6 { assert Size58(r) == 9; } else { assert Size58(r) == 10; }
  }

  /** A bound that holds for blocks of m digits and for the r left over holds for all of them. */
  lemma Combine(a: nat, m: nat, b: nat, n: nat, q: nat, r: nat, e: nat, size: nat)
    requires b >= 1 && Within(a, m, b, n) && Within(a, r, b, e) && n * q + e <= size
    ensures Within(a, m * q + r, b, size)
  {
    hide Pow;
    PowBound(a, m, b, n, q);
    PowAdd(a, m * q, r);
    PowAdd(b, n * q, e);
    MulBoth(Pow(a, m * q), Pow(b, n * q), Pow(a, r), Pow(b, e));
    PowMono(b, n * q + e, size);
  }

  lemma SizeOfBytes(q: nat, r: nat)
    requires r < 8
    ensures 11 * q + Size58(r) <= Size58(8 * q + r)
  {
  }

  /** Eight bytes fit in eleven digits, so every number of bytes fits in the buffer. */
  lemma BytesFit(n: nat)
    ensures Within(256, n, 58, Size58(n))
  {
    var q, r := n / 8, n % 8;
    Blocks();
    hide Within, Size58;
    FewBytes(r);
    SizeOfBytes(q, r);
    Combine(256, 8, 58, 11, q, r, Size58(r), Size58(n));
  }

  // ---------------------------------------------------------------- digits in bytes

  /** For up to fourteen digits, by evaluation; the bound is met with room to spare except for no digits at all. */
  lemma FewDigits(s: nat)
    requires s < 15
    ensures Within(58, s, 256, if s == 0 then 0 else Size256(s))
  {
    Powers58();
    Powers58More();
    Powers256();
    Powers256More();
    hide Pow;
    if s == 0 { } else if s == 1 { assert Size256(s) == 1; } else if s == 2 { assert Size256(s) == 2; }
        else if s == 3 { assert Size256(s) == 3; }
    else if s == 4 { assert Size256(s) == 3; } else if s == 5 { assert Size256(s) == 4; }
        else if s == 6 { assert Size256(s) == 5; }
    else if s == 7 { assert Size256(s) == 6; } else if s == 8 { assert Size256(s) == 6; }
        else if s == 9 { assert Size256(s) == 7; }
    else if s == 10 { assert Size256(s) == 8; } else if s == 11 { assert Size256(s) == 9; }
        else if s == 12 { assert Size256(s) == 9; }
    else if s == 13 { assert Size256(s) == 10; } else { assert Size256(s) == 11; }
  }

  /** Fifteen digits fit in eleven bytes, which is good enough up to seventy digits. */
  lemma ModerateDigits(r: nat)
    requires r < 71
    ensures Within(58, r, 256, Size256(r))
  {
    var a, s := r / 15, r % 15;
    Blocks();
    hide Within, Size256;
    FewDigits(s);
    SizeOfModerate(a, s);
    Combine(58, 15, 256, 11, a, s, if s == 0 then 0 else Size256(s), Size256(r));
  }

  lemma SizeOfModerate(a: nat, s: nat)
    requires s < 15 && a <= 4
    ensures 11 * a + (if s == 0 then 0 else Size256(s)) <= Size256(15 * a + s)
  {
    if a == 0 {
    } else if a == 1 {
    } else if a == 2 {
    } else if a == 3 {
    }
  }

  /** Seventy-one digits fit in fifty-two bytes. */
  lemma SeventyOneDigits()
    ensures Within(58, 71, 256, 52)
  {
    Powers58();
    Powers256();
    hide Pow;
    PowAdd(58, 8, 8);
    PowAdd(58, 16, 16);
    PowAdd(58, 32, 32);
    PowAdd(58, 64, 7);
    PowAdd(256, 8, 8);
    PowAdd(256, 16, 16);
    PowAdd(256, 32, 16);
    PowAdd(256, 48, 4);
  }

  /** So every number of digits fits in the buffer. */
  lemma DigitsFit(n: nat)
    ensures Within(58, n, 256, Size256(n))
  {
    var q, r := n / 71, n % 71;
    SeventyOneDigits();
    hide Within, Size256;
    ModerateDigits(r);
    SizeOfDigits(q, r);
    Combine(58, 71, 256, 52, q, r, Size256(r), Size256(n));
  }

  lemma SizeOfDigits(q: nat, r: nat)
    requires r < 71
    ensures 52 * q + Size256(r) <= Size256(71 * q + r)
  {
  }
}
