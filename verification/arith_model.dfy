/** Little-endian 32-bit limbs and the number they stand for. */
module Limbs {
  import opened Numbers

  const BASE := TWO32
  const TWO64 := 0x1_0000_0000_0000_0000

  type Word = x: int | 0 <= x < 0x1_0000_0000

  function Val(s: seq<Word>): nat {
    if s == [] then 0 else Val(s[..|s| - 1]) + s[|s| - 1] * Pow2(32 * (|s| - 1))
  }

  /** The modulus of `n` limbs. */
  function Modulus(n: nat): (m: nat)
    ensures m >= 1
  {
    Pow2(32 * n)
  }

  lemma ModulusStep(n: nat)
    ensures Modulus(n + 1) == BASE * Modulus(n)
  {
    Pow2Small();
    Pow2Add(32, 32 * n);
  }

  lemma ValStep(s: seq<Word>, i: nat)
    requires i < |s|
    ensures Val(s[..i + 1]) == Val(s[..i]) + s[i] * Modulus(i)
  {
    assert s[..i + 1][..i] == s[..i];
  }

  lemma TopLimb(low: nat, w: Word, m: nat)
    requires low < m
    ensures low + w * m < (w + 1) * m <= BASE * m
  {
    MulMono(w + 1, BASE, m);
    assert (w + 1) * m == w * m + m;
  }

  lemma {:induction false} ValBound(s: seq<Word>)
    ensures Val(s) < Modulus(|s|)
  {
    if s != [] {
      var n := |s| - 1;
      ValBound(s[..n]);
      ModulusStep(n);
      assert Val(s) == Val(s[..n]) + s[n] * Modulus(n);
      hide Val, Modulus;
      TopLimb(Val(s[..n]), s[n], Modulus(n));
    }
  }

  lemma {:induction false} ValUpdate(s: seq<Word>, i: nat, w: Word)
    requires i < |s|
    ensures Val(s[i := w]) == Val(s) + (w - s[i]) * Modulus(i)
  {
    var n := |s| - 1;
    if i == n {
      assert s[i := w][..n] == s[..n];
      assert (w - s[i]) * Modulus(i) == w * Modulus(i) - s[i] * Modulus(i);
    } else {
      assert s[i := w][..n] == s[..n][i := w];
      ValUpdate(s[..n], i, w);
    }
  }

  lemma {:induction false} ValZeros(s: seq<Word>)
    requires forall i :: 0 <= i < |s| ==> s[i] == 0
    ensures Val(s) == 0
  {
    if s != [] {
      ValZeros(s[..|s| - 1]);
    }
  }

  /** Limbs above `i` that agree cancel. */
  lemma {:induction false} ValCommonTop(s: seq<Word>, t: seq<Word>, i: nat)
    requires i <= |s| == |t| && s[i..] == t[i..]
    ensures Val(s) - Val(t) == Val(s[..i]) - Val(t[..i])
  {
    var n := |s| - 1;
    if i == |s| {
      assert s[..i] == s && t[..i] == t;
    } else {
      assert s[n] == s[i..][n - i] == t[i..][n - i] == t[n];
      assert s[..n][i..] == s[i..n] == s[i..][..n - i] && t[..n][i..] == t[i..][..n - i];
      ValCommonTop(s[..n], t[..n], i);
      assert s[..n][..i] == s[..i] && t[..n][..i] == t[..i];
    }
  }

  /** The highest differing limb decides. */
  lemma ValLess(s: seq<Word>, t: seq<Word>, i: nat)
    requires i < |s| == |t| && s[i + 1..] == t[i + 1..] && s[i] < t[i]
    ensures Val(s) < Val(t)
  {
    ValCommonTop(s, t, i + 1);
    ValStep(s, i);
    ValStep(t, i);
    ValBound(s[..i]);
    hide Val, Modulus;
    TopLimb(Val(s[..i]), s[i], Modulus(i));
    MulMono(s[i] + 1, t[i], Modulus(i));
  }

  // ---------------------------------------------------------------- bitwise or

  /** The bitwise or of two numbers. */
  function Or(x: nat, y: nat): nat {
    if x == 0 && y == 0 then 0 else 2 * Or(x / 2, y / 2) + if x % 2 == 1 || y % 2 == 1 then 1 else 0
  }

  lemma {:induction false} OrZero(x: nat)
    ensures Or(x, 0) == x
  {
    if x != 0 {
      OrZero(x / 2);
    }
  }

  /** Numbers whose bits do not overlap are joined by adding them. */
  lemma {:induction false} OrDisjoint(h: nat, y: nat, s: nat)
    requires y < Pow2(s)
    ensures Or(h * Pow2(s), y) == h * Pow2(s) + y
  {
    var x := h * Pow2(s);
    if s == 0 {
      OrZero(x);
    } else {
      var half := h * Pow2(s - 1);
      assert x == 2 * half;
      OrDisjoint(h, y / 2, s - 1);
    }
  }

  /** The order of the operands does not matter. */
  lemma {:induction false} OrSwap(x: nat, y: nat)
    ensures Or(x, y) == Or(y, x)
  {
    if x != 0 || y != 0 {
      OrSwap(x / 2, y / 2);
    }
  }

  /** Setting a clear bit adds it. */
  lemma {:induction false} OrBit(x: nat, n: nat)
    requires x / Pow2(n) % 2 == 0
    ensures Or(x, Pow2(n)) == x + Pow2(n)
  {
    if n == 0 {
      OrZero(x / 2);
    } else {
      var p := Pow2(n - 1);
      HalveTwice(x, p);
      OrBit(x / 2, n - 1);
    }
  }

  lemma HalveTwice(x: nat, p: nat)
    requires p > 0
    ensures x / (2 * p) == x / 2 / p
  {
    var h := x / 2;
    var q, r := h / p, h % p;
    assert x == 2 * h + x % 2 && h == q * p + r;
    assert x == q * (2 * p) + (2 * r + x % 2);
    DivUnique(x, 2 * p, q, 2 * r + x % 2);
  }
}
