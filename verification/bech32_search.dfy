/** The search behind the detection of a fourth error, src/bech32.cpp: logarithms modulo 33, as seven-bit numbers. */
module Bech32Search {
  // ---------------------------------------------------------------- numbers modulo 33

  function Plus(a: bv7, b: bv7): bv7 {
    if a + b >= 33 then a + b - 33 else a + b
  }

  function Twice(a: bv7): bv7 {
    Plus(a, a)
  }

  function Mod33(n: bv7): bv7 {
    if n < 33 then n else if n < 66 then n - 33 else n - 66
  }

  /** For a place n from 1 to 88: 29 times the logarithm of 1 + e^n, plus 19 n. */
  function Zech(n: bv7): bv7 {
    var b0, b1, b2, b3 := n & 1 != 0, n & 2 != 0, n & 4 != 0, n & 8 != 0;
    var b4, b5, b6 := n & 16 != 0, n & 32 != 0, n & 64 != 0;
    if b6 then
      if b4 then
        if b3 then
          32
        else
          if b2 then
            if b1 then (if b0 then 6 else 1) else (if b0 then 9 else 31)
          else
            if b1 then (if b0 then 5 else 20) else (if b0 then 17 else 15)
      else
        if b3 then
          if b2 then
            if b1 then (if b0 then 31 else 2) else (if b0 then 14 else 27)
          else
            if b1 then (if b0 then 17 else 0) else (if b0 then 0 else 22)
        else
          if b2 then
            if b1 then (if b0 then 1 else 26) else (if b0 then 32 else 4)
          else
            if b1 then (if b0 then 13 else 0) else (if b0 then 31 else 25)
    else
      if b5 then
        if b4 then
          if b3 then
            if b2 then
              if b1 then (if b0 then 6 else 31) else (if b0 then 2 else 15)
            else
              if b1 then (if b0 then 30 else 9) else (if b0 then 13 else 10)
          else
            if b2 then
              if b1 then (if b0 then 1 else 2) else (if b0 then 15 else 8)
            else
              if b1 then (if b0 then 19 else 6) else (if b0 then 10 else 18)
        else
          if b3 then
            if b2 then
              if b1 then (if b0 then 13 else 10) else (if b0 then 7 else 16)
            else
              if b1 then (if b0 then 17 else 32) else (if b0 then 10 else 24)
          else
            if b2 then
              if b1 then (if b0 then 1 else 30) else (if b0 then 0 else 11)
            else
              if b1 then (if b0 then 13 else 2) else (if b0 then 0 else 29)
      else
        if b4 then
          if b3 then
            if b2 then
              if b1 then (if b0 then 32 else 24) else (if b0 then 21 else 5)
            else
              if b1 then (if b0 then 1 else 4) else (if b0 then 3 else 9)
          else
            if b2 then
              if b1 then (if b0 then 5 else 8) else (if b0 then 16 else 12)
            else
              if b1 then (if b0 then 15 else 22) else (if b0 then 1 else 31)
        else
          if b3 then
            if b2 then
              if b1 then (if b0 then 12 else 19) else (if b0 then 2 else 21)
            else
              if b1 then (if b0 then 4 else 6) else (if b0 then 11 else 32)
          else
            if b2 then
              if b1 then (if b0 then 26 else 27) else (if b0 then 3 else 16)
            else
              if b1 then (if b0 then 30 else 8) else 4
  }

  /** Three conditions that four errors at the places 0, i, j and k meet if they cancel. */
  predicate Clash(i: bv7, j: bv7, k: bv7) {
    && Zech(i) == Plus(Zech(k - j), Mod33(j))
    && Zech(k) == Plus(Zech(j - i), Mod33(i))
    && Zech(j) == Plus(Zech(k - i), Mod33(i))
  }

  lemma From2(i: bv7, j: bv7, k: bv7)
    requires 2 <= j <= 7 && 1 <= i < j < k <= 88
    ensures !Clash(i, j, k)
  {
  }

  lemma From8(i: bv7, j: bv7, k: bv7)
    requires 8 <= j <= 15 && 1 <= i < j < k <= 88
    ensures !Clash(i, j, k)
  {
  }

  lemma From16(i: bv7, j: bv7, k: bv7)
    requires 16 <= j <= 23 && 1 <= i < j < k <= 88
    ensures !Clash(i, j, k)
  {
  }

  lemma From24(i: bv7, j: bv7, k: bv7)
    requires 24 <= j <= 31 && 1 <= i < j < k <= 88
    ensures !Clash(i, j, k)
  {
  }

  lemma From32(i: bv7, j: bv7, k: bv7)
    requires 32 <= j <= 39 && 1 <= i < j < k <= 88
    ensures !Clash(i, j, k)
  {
  }

  lemma From40(i: bv7, j: bv7, k: bv7)
    requires 40 <= j <= 47 && 1 <= i < j < k <= 88
    ensures !Clash(i, j, k)
  {
  }

  lemma From48(i: bv7, j: bv7, k: bv7)
    requires 48 <= j <= 55 && 1 <= i < j < k <= 88
    ensures !Clash(i, j, k)
  {
  }

  lemma From56(i: bv7, j: bv7, k: bv7)
    requires 56 <= j <= 63 && 1 <= i < j < k <= 88
    ensures !Clash(i, j, k)
  {
  }

  lemma From64(i: bv7, j: bv7, k: bv7)
    requires 64 <= j <= 71 && 1 <= i < j < k <= 88
    ensures !Clash(i, j, k)
  {
  }

  lemma From72(i: bv7, j: bv7, k: bv7)
    requires 72 <= j <= 79 && 1 <= i < j < k <= 88
    ensures !Clash(i, j, k)
  {
  }

  lemma From80(i: bv7, j: bv7, k: bv7)
    requires 80 <= j <= 87 && 1 <= i < j < k <= 88
    ensures !Clash(i, j, k)
  {
  }

  /** No three places up to 88 meet them. */
  lemma NoClash(i: bv7, j: bv7, k: bv7)
    requires 1 <= i < j < k <= 88
    ensures !Clash(i, j, k)
  {
    hide Clash;
    if j < 8 {
      From2(i, j, k);
    } else if j < 16 {
      From8(i, j, k);
    } else if j < 24 {
      From16(i, j, k);
    } else if j < 32 {
      From24(i, j, k);
    } else if j < 40 {
      From32(i, j, k);
    } else if j < 48 {
      From40(i, j, k);
    } else if j < 56 {
      From48(i, j, k);
    } else if j < 64 {
      From56(i, j, k);
    } else if j < 72 {
      From64(i, j, k);
    } else if j < 80 {
      From72(i, j, k);
    } else {
      From80(i, j, k);
    }
  }
}
