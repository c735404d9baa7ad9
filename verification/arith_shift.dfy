/** What the limb-wise shifts of src/arith_uint256.cpp compute. */
module LimbShifts {
  import opened Numbers
  import opened Limbs

  lemma ModulusAdd(i: nat, j: nat)
    ensures Modulus(i + j) == Modulus(i) * Modulus(j)
  {
    Pow2Add(32 * i, 32 * j);
  }

  /** The part of a limb that moves up to the next limb, and the part that stays. */
  function Upper(w: Word, s: nat): nat
    requires s <= 32
  {
    QuotNonnegative(w, Pow2(32 - s));
    w / Pow2(32 - s)
  }

  function Lower(w: Word, s: nat): (r: Word)
    requires s <= 32
  {
    w * Pow2(s) % BASE
  }

  /** The bits of a limb that stay in it. */
  function Rest(w: Word, s: nat): nat
    requires s <= 32
  {
    QuotNonnegative(w, Pow2(32 - s));
    w % Pow2(32 - s)
  }

  lemma UpperRest(w: Word, s: nat)
    requires s <= 32
    ensures w == Upper(w, s) * Pow2(32 - s) + Rest(w, s)
    ensures 0 <= Upper(w, s) && 0 <= Rest(w, s) < Pow2(32 - s)
  {
    hide Pow2;
  }

  lemma LowerIs(w: Word, s: nat, q: int, r: int)
    requires s <= 32 && w * Pow2(s) == q * BASE + r && 0 <= r < BASE
    ensures Lower(w, s) == r
  {
    hide Pow2;
    var n := w * Pow2(s);
    DivUnique(n, BASE, q, r);
  }

  lemma Halves(s: nat)
    requires s <= 32
    ensures Pow2(32 - s) * Pow2(s) == BASE
  {
    Pow2Small();
    Pow2Add(32 - s, s);
  }

  /** w * 2^s is Upper limbs and Lower remaining; Lower ends in s zeros and Upper has s bits. */
  lemma SplitWord(w: Word, s: nat)
    requires s <= 32
    ensures w * Pow2(s) == Upper(w, s) * BASE + Lower(w, s)
    ensures 0 <= Upper(w, s) < Pow2(s)
    ensures Lower(w, s) == Rest(w, s) * Pow2(s) && Lower(w, s) + Pow2(s) <= BASE
  {
    hide Pow2, Upper, Lower, Rest;
    UpperRest(w, s);
    Halves(s);
    SplitAt(w, Pow2(32 - s), Pow2(s), Upper(w, s), Rest(w, s));
    LowerIs(w, s, Upper(w, s), Rest(w, s) * Pow2(s));
  }

  /** Or joins the part that moved up from the limb below and the part that stays. */
  lemma JoinLower(w: Word, s: nat, y: nat)
    requires s <= 32 && y < Pow2(s)
    ensures Or(y, Lower(w, s)) == y + Lower(w, s) < BASE
  {
    hide Pow2, Or, Lower, Rest, Upper;
    SplitWord(w, s);
    OrSwap(y, Lower(w, s));
    OrDisjoint(Rest(w, s), y, s);
  }

  lemma JoinZero(x: nat)
    ensures Or(0, x) == x
  {
    OrSwap(0, x);
    OrZero(x);
  }

  // ---------------------------------------------------------------- to the left

  /** The limbs after the first `i` source limbs have been shifted left by 32*k + s bits. */
  ghost predicate LeftUpTo(t: seq<Word>, x: seq<Word>, i: nat, k: nat, s: nat) {
    && i <= |x| == |t| && s < 32
    && (forall j :: i + k < j < |t| ==> t[j] == 0)
    && (i + k < |t| ==> t[i + k] < Pow2(s))
    && Val(t) == (Val(x[..i]) * Pow2(32 * k + s)) % Modulus(|t|)
  }

  lemma LeftStart(t: seq<Word>, x: seq<Word>, k: nat, s: nat)
    requires |x| == |t| && s < 32 && forall j :: 0 <= j < |t| ==> t[j] == 0
    ensures LeftUpTo(t, x, 0, k, s)
  {
    ValZeros(t);
    assert x[..0] == [];
    DivUnique(0, Modulus(|t|), 0, 0);
  }

  /** What one round of the loop adds, up to a multiple of the modulus. */
  lemma LeftSum(v: nat, v': nat, c: nat, total: nat, add: nat, m: nat)
    requires m > 0 && v == total % m && v' < m && v' + c * m == v + add
    ensures v' == (total + add) % m
  {
    DivUnique(v + add, m, c, v');
    var q := total / m;
    assert total + add == (q + c) * m + v' by {
      assert total == q * m + v;
      assert (q + c) * m == q * m + c * m;
    }
    DivUnique(total + add, m, q + c, v');
  }

  /** One limb's contribution to the total. */
  lemma LeftAdd(x: seq<Word>, i: nat, k: nat, s: nat)
    requires i < |x| && s < 32
    ensures Val(x[..i + 1]) * Pow2(32 * k + s) == Val(x[..i]) * Pow2(32 * k + s) + x[i] * Pow2(s) * Modulus(i + k)
  {
    ValStep(x, i);
    Pow2Add(32 * k, s);
    ModulusAdd(i, k);
    hide Val, Pow2, Modulus;
    LeftProduct(Val(x[..i]), x[i], Modulus(i), Modulus(k), Pow2(s));
  }

  lemma LeftProduct(v: int, w: int, mi: int, mk: int, p: int)
    ensures (v + w * mi) * (mk * p) == v * (mk * p) + w * p * (mi * mk)
  {
    Distribute(v, w * mi, mk * p);
    assert w * mi * (mk * p) == w * (mi * mk) * p;
    assert w * (mi * mk) * p == w * p * (mi * mk);
  }

  /** The limb stays within the width. */
  lemma LeftWithin(t: seq<Word>, x: seq<Word>, i: nat, k: nat, s: nat, u: Word, l: Word)
    requires i < |x| && LeftUpTo(t, x, i, k, s) && i + k + 1 < |t|
    requires u == Upper(x[i], s) && l == t[i + k] + Lower(x[i], s)
    ensures LeftUpTo(t[i + k + 1 := u][i + k := l], x, i + 1, k, s)
  {
    hide Val, Modulus, Upper, Lower, Pow2;
    SplitWord(x[i], s);
    var n := i + k;
    var t' := t[n + 1 := u][n := l];
    ValUpdate(t, n + 1, u);
    ValUpdate(t[n + 1 := u], n, l);
    ModulusStep(n);
    ValBound(t');
    LeftAdd(x, i, k, s);
    JoinProduct(u, Lower(x[i], s), Modulus(n));
    LeftSum(Val(t), Val(t'), 0, Val(x[..i]) * Pow2(32 * k + s), x[i] * Pow2(s) * Modulus(n), Modulus(|t|));
  }

  lemma JoinProduct(u: int, l: int, m: int)
    ensures u * (BASE * m) + l * m == (u * BASE + l) * m
  {
    Distribute(u * BASE, l, m);
    Assoc(u, BASE, m);
  }

  /** The upper part falls off the top. */
  lemma LeftTop(t: seq<Word>, x: seq<Word>, i: nat, k: nat, s: nat, l: Word)
    requires i < |x| && LeftUpTo(t, x, i, k, s) && i + k + 1 == |t|
    requires l == t[i + k] + Lower(x[i], s)
    ensures LeftUpTo(t[i + k := l], x, i + 1, k, s)
  {
    hide Val, Modulus, Upper, Lower, Pow2;
    SplitWord(x[i], s);
    var n, u := i + k, Upper(x[i], s);
    ValUpdate(t, n, l);
    ModulusStep(n);
    ValBound(t[n := l]);
    LeftAdd(x, i, k, s);
    JoinProduct(u, Lower(x[i], s), Modulus(n));
    LeftSum(Val(t), Val(t[n := l]), u, Val(x[..i]) * Pow2(32 * k + s), x[i] * Pow2(s) * Modulus(n), Modulus(|t|));
  }

  /** The whole limb falls off. */
  lemma LeftBeyond(t: seq<Word>, x: seq<Word>, i: nat, k: nat, s: nat)
    requires i < |x| && LeftUpTo(t, x, i, k, s) && i + k >= |t|
    ensures LeftUpTo(t, x, i + 1, k, s)
  {
    hide Val, Modulus;
    ValBound(t);
    LeftAdd(x, i, k, s);
    ModulusAdd(i + k - |t|, |t|);
    var w, e, m := x[i] * Pow2(s), Modulus(i + k - |t|), Modulus(|t|);
    assert w * (e * m) == (w * e) * m;
    MulMono(0, w, e);
    LeftSum(Val(t), Val(t), w * e, Val(x[..i]) * Pow2(32 * k + s), w * Modulus(i + k), m);
  }

  // ---------------------------------------------------------------- to the right

  /** The limbs after the first `i` source limbs have been shifted right by 32*k + s bits. */
  ghost predicate RightUpTo(t: seq<Word>, x: seq<Word>, i: nat, k: nat, s: nat) {
    && i <= |x| == |t| && s < 32
    && (forall j :: 0 <= j < |t| && i - k <= j ==> t[j] == 0)
    && (i > k ==> t[i - k - 1] < Pow2(32 - s))
    && Val(t) == Val(x[..i]) / Pow2(32 * k + s)
  }

  lemma RightStart(t: seq<Word>, x: seq<Word>, k: nat, s: nat)
    requires |x| == |t| && s < 32 && forall j :: 0 <= j < |t| ==> t[j] == 0
    ensures RightUpTo(t, x, 0, k, s)
  {
    ValZeros(t);
    assert x[..0] == [];
    DivUnique(0, Pow2(32 * k + s), 0, 0);
  }

  lemma DivAdd(v: nat, z: int, p: nat)
    requires p > 0
    ensures (v + z * p) / p == v / p + z
  {
    var q, r := v / p, v % p;
    assert v == q * p + r;
    Distribute(q, z, p);
    DivUnique(v + z * p, p, q + z, r);
  }

  lemma RightPowers(i: nat, k: nat, s: nat)
    requires k < i && s < 32
    ensures Modulus(i) == Pow2(32 - s) * Modulus(i - k - 1) * Pow2(32 * k + s)
  {
    var e := 32 * (i - k - 1);
    Pow2Add(32 - s, e);
    Pow2Add(32 - s + e, 32 * k + s);
    assert 32 - s + e + (32 * k + s) == 32 * i;
  }

  /** A limb above the shift distance moves down whole. */
  lemma RightAdd(x: seq<Word>, i: nat, k: nat, s: nat)
    requires k < i < |x| && s < 32
    ensures Val(x[..i + 1]) / Pow2(32 * k + s) ==
      Val(x[..i]) / Pow2(32 * k + s) + x[i] * Pow2(32 - s) * Modulus(i - k - 1)
  {
    hide Val, Pow2, Modulus;
    ValStep(x, i);
    RightPowers(i, k, s);
    RightProduct(x[i], Pow2(32 - s), Modulus(i - k - 1), Pow2(32 * k + s));
    DivAdd(Val(x[..i]), x[i] * Pow2(32 - s) * Modulus(i - k - 1), Pow2(32 * k + s));
  }

  lemma RightProduct(w: int, a: int, b: int, p: int)
    ensures w * (a * b * p) == w * a * b * p
  {
    Assoc(w, a * b, p);
    Assoc(w, a, b);
  }

  lemma RightWithin(t: seq<Word>, x: seq<Word>, i: nat, k: nat, s: nat, u: Word, l: Word)
    requires k < i < |x| && RightUpTo(t, x, i, k, s)
    requires u == Upper(x[i], 32 - s) && l == t[i - k - 1] + Lower(x[i], 32 - s)
    ensures RightUpTo(t[i - k - 1 := l][i - k := u], x, i + 1, k, s)
  {
    hide Val, Modulus, Upper, Lower, Pow2;
    SplitWord(x[i], 32 - s);
    var n := i - k - 1;
    ValUpdate(t, n, l);
    ValUpdate(t[n := l], n + 1, u);
    ModulusStep(n);
    RightAdd(x, i, k, s);
    JoinProduct(u, Lower(x[i], 32 - s), Modulus(n));
  }

  /** Only the upper bits of the limb at the shift distance survive. */
  lemma RightFirst(t: seq<Word>, x: seq<Word>, k: nat, s: nat, u: Word)
    requires k < |x| && RightUpTo(t, x, k, k, s) && u == Upper(x[k], 32 - s)
    ensures RightUpTo(t[0 := u], x, k + 1, k, s)
  {
    assert Modulus(0) == 1;
    ValZeros(t);
    hide Val, Modulus, Pow2, Upper, Lower, Rest;
    SplitWord(x[k], 32 - s);
    ValUpdate(t, 0, u);
    assert Val(t[0 := u]) == u;
    FirstLimb(x, k, s);
  }

  lemma ModulusShift(k: nat, s: nat)
    requires s < 32
    ensures Pow2(32 * k + s) == Modulus(k) * Pow2(s) && Pow2(32 - (32 - s)) == Pow2(s)
  {
    Pow2Add(32 * k, s);
  }

  lemma FirstLimb(x: seq<Word>, k: nat, s: nat)
    requires k < |x| && s < 32
    ensures Val(x[..k + 1]) / Pow2(32 * k + s) == Upper(x[k], 32 - s)
  {
    hide Val, Pow2, Upper, Rest, Modulus;
    ValStep(x, k);
    ValBound(x[..k]);
    UpperRest(x[k], 32 - s);
    ModulusShift(k, s);
    FirstQuotient(Val(x[..k]), x[k], Upper(x[k], 32 - s), Rest(x[k], 32 - s), Modulus(k), Pow2(s));
  }

  lemma FirstQuotient(v: nat, w: int, u: int, r: int, m: int, p: int)
    requires 0 <= v < m && p > 0 && w == u * p + r && 0 <= r < p
    ensures m * p > 0 && (v + w * m) / (m * p) == u
  {
    Distribute(u * p, r, m);
    Assoc(u, p, m);
    MulMono(r + 1, p, m);
    Distribute(r, 1, m);
    MulMono(0, r, m);
    assert p * m == m * p;
    DivUnique(v + w * m, m * p, u, v + r * m);
  }

  lemma RightBelow(t: seq<Word>, x: seq<Word>, i: nat, k: nat, s: nat)
    requires i < k && i < |x| && RightUpTo(t, x, i, k, s)
    ensures RightUpTo(t, x, i + 1, k, s)
  {
    ValZeros(t);
    ValBound(x[..i + 1]);
    Pow2Mono(32 * (i + 1), 32 * k + s);
    hide Val, Pow2;
    DivUnique(Val(x[..i + 1]), Pow2(32 * k + s), 0, Val(x[..i + 1]));
  }
}
