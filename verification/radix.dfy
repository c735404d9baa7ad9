/** Numbers written in a base, most significant digit first. */
module Radix {
  import opened Numbers

  function Pow(b: nat, n: nat): nat {
    if n == 0 then 1 else b * Pow(b, n - 1)
  }

  lemma {:induction false} PowAdd(b: nat, m: nat, n: nat)
    ensures Pow(b, m + n) == Pow(b, m) * Pow(b, n)
  {
    if m > 0 {
      PowAdd(b, m - 1, n);
      Assoc(b, Pow(b, m - 1), Pow(b, n));
    }
  }

  lemma {:induction false} PowMono(b: nat, m: nat, n: nat)
    requires b >= 1 && m <= n
    ensures 1 <= Pow(b, m) <= Pow(b, n)
  {
    if n == 0 {
    } else if m == n {
      PowMono(b, m - 1, n - 1);
      MulMono(1, b, Pow(b, m - 1));
    } else {
      PowMono(b, m, n - 1);
      MulMono(1, b, Pow(b, n - 1));
    }
  }

  /** A product of powers bounds a product of powers. */
  lemma {:induction false} PowBound(a: nat, m: nat, b: nat, n: nat, q: nat)
    requires Pow(a, m) <= Pow(b, n)
    ensures Pow(a, m * q) <= Pow(b, n * q)
  {
    if q > 0 {
      PowBound(a, m, b, n, q - 1);
      assert m * q == m + m * (q - 1) && n * q == n + n * (q - 1);
      PowAdd(a, m, m * (q - 1));
      PowAdd(b, n, n * (q - 1));
      MulBoth(Pow(a, m), Pow(b, n), Pow(a, m * (q - 1)), Pow(b, n * (q - 1)));
    }
  }

  lemma MulBoth(a: nat, b: nat, c: nat, d: nat)
    requires a <= b && c <= d
    ensures a * c <= b * d
  {
    MulMono(a, b, c);
    MulMono(c, d, b);
  }

  /** The number a list of digits stands for. */
  function Num(b: nat, ds: seq<nat>): nat {
    if ds == [] then 0 else Num(b, ds[..|ds| - 1]) * b + ds[|ds| - 1]
  }

  predicate Digits(b: nat, ds: seq<nat>) {
    forall i :: 0 <= i < |ds| ==> ds[i] < b
  }

  lemma {:induction false} NumSplit(b: nat, hi: seq<nat>, lo: seq<nat>)
    ensures Num(b, hi + lo) == Num(b, hi) * Pow(b, |lo|) + Num(b, lo)
  {
    if lo == [] {
      assert hi + lo == hi;
    } else {
      var n := |lo| - 1;
      assert (hi + lo)[..|hi + lo| - 1] == hi + lo[..n];
      NumSplit(b, hi, lo[..n]);
      SplitSum(Num(b, hi), Pow(b, n), Num(b, lo[..n]), b, lo[n]);
    }
  }

  lemma SplitSum(h: int, p: int, l: int, b: int, d: int)
    ensures (h * p + l) * b + d == h * (b * p) + (l * b + d)
  {
    Distribute(h * p, l, b);
    Assoc(h, p, b);
  }

  lemma {:induction false} NumBound(b: nat, ds: seq<nat>)
    requires Digits(b, ds)
    ensures Num(b, ds) < Pow(b, |ds|)
  {
    if ds != [] {
      var n := |ds| - 1;
      NumBound(b, ds[..n]);
      MulMono(Num(b, ds[..n]) + 1, Pow(b, n), b);
      Distribute(Num(b, ds[..n]), 1, b);
    }
  }

  lemma {:induction false} NumZeros(b: nat, ds: seq<nat>)
    requires forall i :: 0 <= i < |ds| ==> ds[i] == 0
    ensures Num(b, ds) == 0
  {
    if ds != [] {
      NumZeros(b, ds[..|ds| - 1]);
    }
  }

  /** The digits of a number without leading zeros. */
  function ToBase(b: nat, n: nat): seq<nat>
    requires b >= 2
  {
    QuotRem(n, b);
    if n == 0 then [] else ToBase(b, Quot(n, b)) + [Rem(n, b)]
  }

  predicate NoLeadingZero(ds: seq<nat>) {
    ds != [] ==> ds[0] != 0
  }

  lemma {:induction false} ToBaseNum(b: nat, n: nat)
    requires b >= 2
    ensures Digits(b, ToBase(b, n)) && NoLeadingZero(ToBase(b, n)) && Num(b, ToBase(b, n)) == n
  {
    hide Quot, Rem;
    QuotRem(n, b);
    if n != 0 {
      ToBaseNum(b, Quot(n, b));
      var ds := ToBase(b, n);
      assert ds[..|ds| - 1] == ToBase(b, Quot(n, b));
    }
  }

  /** Digits without a leading zero are the digits of their number. */
  lemma {:induction false} NumToBase(b: nat, ds: seq<nat>)
    requires b >= 2 && Digits(b, ds) && NoLeadingZero(ds)
    ensures ToBase(b, Num(b, ds)) == ds
  {
    hide Quot, Rem;
    if ds != [] {
      var n := |ds| - 1;
      var rest := ds[..n];
      NumToBase(b, rest);
      QuotUnique(Num(b, ds), b, Num(b, rest), ds[n]);
      Positive(b, ds);
      assert ds == rest + [ds[n]];
    }
  }

  lemma {:induction false} Positive(b: nat, ds: seq<nat>)
    requires b >= 2 && ds != [] && ds[0] != 0
    ensures Num(b, ds) > 0
  {
    if |ds| > 1 {
      Positive(b, ds[..|ds| - 1]);
      MulMono(1, Num(b, ds[..|ds| - 1]), b);
    }
  }
}
