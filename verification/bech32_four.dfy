/** Detection of a fourth error within 89 places, src/bech32.cpp: four terms that cancel at the three roots have
    their places tied together modulo 33, and no four places within reach are. */
module Bech32Four {
  import opened Numbers
  import opened Bech32Checksum
  import opened Field1024
  import opened Bech32Bch
  import opened Bech32Search
  import opened Bech32Logs

  // ---------------------------------------------------------------- eliminating terms

  /** (e^n + e^p) x */
  function Gap(n: nat, p: nat, x: bv32): bv32 {
    Xor(TimesPower(n, x), TimesPower(p, x))
  }

  lemma {:induction false} GapElement(n: nat, p: nat, x: bv32)
    requires Element(x)
    ensures Element(Gap(n, p, x))
  {
    hide TimesPower, Element, Xor;
    PowerElement(n, x);
    PowerElement(p, x);
    XorElement(TimesPower(n, x), TimesPower(p, x));
  }

  lemma Swap(a: bv32, b: bv32)
    ensures Xor(a, b) == Xor(b, a)
  {
  }

  /** A gap is a power of e. */
  lemma {:induction false} GapIs(n: nat, p: nat, x: bv32, z: nat)
    requires Element(x) && n < p && TimesPower(z, 1) == Xor(1, TimesPower(p - n, 1))
    ensures Gap(n, p, x) == TimesPower(n + z, x) == Gap(p, n, x)
  {
    hide TimesPower, Element, Xor, Product;
    var d := p - n;
    PowerProduct(z, x);
    ProductSum(1, TimesPower(d, 1), x);
    ProductOne(x);
    PowerProduct(d, x);
    PowerSum(n, d, x);
    PowerLinear(n, x, TimesPower(d, x));
    PowerSum(n, z, x);
    Swap(TimesPower(n, x), TimesPower(p, x));
  }

  /** Four terms at four places, each multiplied t times by the power of e of its place. */
  function Sum(t: nat, x: bv32, n: nat, y: bv32, m: nat, z: bv32, l: nat, w: bv32, k: nat): bv32 {
    Xor(Xor(Xor(TimesPower(t * n, x), TimesPower(t * m, y)), TimesPower(t * l, z)), TimesPower(t * k, w))
  }

  lemma {:induction false} Commute(m: nat, n: nat, x: bv32)
    ensures TimesPower(m, TimesPower(n, x)) == TimesPower(n, TimesPower(m, x))
  {
    hide TimesPower;
    PowerSum(m, n, x);
    PowerSum(n, m, x);
  }

  /** One term of two sums, the first multiplied by e^k. */
  lemma {:induction false} GapTerm(t: nat, n: nat, k: nat, x: bv32)
    ensures Xor(TimesPower((t + 1) * n, x), TimesPower(k, TimesPower(t * n, x))) == TimesPower(t * n, Gap(n, k, x))
  {
    hide TimesPower, Xor;
    Distribute(t, 1, n);
    PowerSum(t * n, n, x);
    Commute(k, t * n, x);
    PowerLinear(t * n, TimesPower(n, x), TimesPower(k, x));
  }

  lemma {:induction false} SumTimes(k: nat, a: bv32, b: bv32, c: bv32, d: bv32)
    ensures TimesPower(k, Xor(Xor(Xor(a, b), c), d)) ==
            Xor(Xor(Xor(TimesPower(k, a), TimesPower(k, b)), TimesPower(k, c)), TimesPower(k, d))
  {
    hide TimesPower, Xor;
    PowerLinear(k, a, b);
    PowerLinear(k, Xor(a, b), c);
    PowerLinear(k, Xor(Xor(a, b), c), d);
  }

  lemma DropLast(a: bv32, b: bv32, c: bv32, d: bv32, a1: bv32, b1: bv32, c1: bv32)
    requires Xor(Xor(Xor(a, b), c), d) == 0 && Xor(Xor(Xor(a1, b1), c1), d) == 0
    ensures Xor(Xor(Xor(a, a1), Xor(b, b1)), Xor(c, c1)) == 0
  {
    hide Xor;
    XorPairs(a, a1, b, b1);
    XorPairs(Xor(a, b), Xor(a1, b1), c, c1);
    XorZeroSame(Xor(Xor(a, b), c), d);
    XorZeroSame(Xor(Xor(a1, b1), c1), d);
    XorSelf(d);
  }

  lemma {:induction false} ZeroTimes(n: nat)
    ensures TimesPower(n, 0) == 0
  {
    hide TimesPower;
    ZeroElement();
    PowerZero(n, 0);
  }

  lemma ZeroElement()
    ensures Element(0) && Xor(0, 0) == 0
  {
  }

  lemma XorZero(a: bv32)
    ensures Xor(a, 0) == a
  {
  }

  /** Of two consecutive sums that vanish, the last term can be eliminated. */
  lemma {:induction false} Reduce(t: nat, x: bv32, n: nat, y: bv32, m: nat, z: bv32, l: nat, w: bv32, k: nat)
    requires Sum(t, x, n, y, m, z, l, w, k) == 0 && Sum(t + 1, x, n, y, m, z, l, w, k) == 0
    ensures Sum(t, Gap(n, k, x), n, Gap(m, k, y), m, 0, 0, Gap(l, k, z), l) == 0
  {
    hide TimesPower, Xor, Gap;
    var a, b, c, d := TimesPower(t * n, x), TimesPower(t * m, y), TimesPower(t * l, z), TimesPower(t * k, w);
    SumTimes(k, a, b, c, d);
    ZeroTimes(k);
    Distribute(t, 1, k);
    PowerSum(k, t * k, w);
    DropLast(TimesPower((t + 1) * n, x), TimesPower((t + 1) * m, y), TimesPower((t + 1) * l, z),
             TimesPower(k, d), TimesPower(k, a), TimesPower(k, b), TimesPower(k, c));
    GapTerm(t, n, k, x);
    GapTerm(t, m, k, y);
    GapTerm(t, l, k, z);
    ZeroTimes(t * 0);
    XorZero(Xor(TimesPower(t * n, Gap(n, k, x)), TimesPower(t * m, Gap(m, k, y))));
  }

  /** Of four terms that cancel, two can be compared once the other two are eliminated. */
  lemma {:induction false} Compared(x: bv32, n: nat, y: bv32, m: nat, z: bv32, l: nat, w: bv32, k: nat)
    requires Sum(0, x, n, y, m, z, l, w, k) == 0 && Sum(1, x, n, y, m, z, l, w, k) == 0
    requires Sum(2, x, n, y, m, z, l, w, k) == 0
    ensures Gap(n, l, Gap(n, k, x)) == Gap(m, l, Gap(m, k, y))
  {
    hide Sum, Gap;
    Reduce(0, x, n, y, m, z, l, w, k);
    Reduce(1, x, n, y, m, z, l, w, k);
    Reduce(0, Gap(n, k, x), n, Gap(m, k, y), m, 0, 0, Gap(l, k, z), l);
    OnlyTwo(Gap(n, l, Gap(n, k, x)), n, Gap(m, l, Gap(m, k, y)), m, l);
  }

  lemma {:induction false} OnlyTwo(x: bv32, n: nat, y: bv32, m: nat, l: nat)
    requires Sum(0, x, n, y, m, 0, 0, Gap(0, l, 0), 0) == 0
    ensures x == y
  {
    hide TimesPower, Xor;
    NoPower(x);
    NoPower(y);
    ZeroTimes(0);
    ZeroTimes(l);
    ZeroElement();
    XorZero(Xor(x, y));
    XorZeroSame(x, y);
  }

  // ---------------------------------------------------------------- places modulo 33

  lemma {:induction false} TwoGaps(n: nat, l: nat, k: nat, x: bv32, y: nat, z: nat)
    requires Element(x) && n != l && n != k
    requires TimesPower(y, 1) == Xor(1, TimesPower(Max(n, l) - Min(n, l), 1))
    requires TimesPower(z, 1) == Xor(1, TimesPower(Max(n, k) - Min(n, k), 1))
    ensures Gap(n, l, Gap(n, k, x)) == TimesPower(Min(n, l) + y + Min(n, k) + z, x)
  {
    hide TimesPower, Element, Xor, Gap;
    GapElement(n, k, x);
    GapIs(Min(n, k), Max(n, k), x, z);
    GapIs(Min(n, l), Max(n, l), Gap(n, k, x), y);
    PowerSum(Min(n, l) + y, Min(n, k) + z, x);
  }

  /** A multiple of 33. */
  ghost predicate Tied(n: int) {
    n % 33 == 0
  }

  /** Symbols as terms that come to the same only where their exponents agree modulo 33. */
  lemma {:induction false} Matched(s: Symbol, m: nat, r: Symbol, n: nat, k: nat)
    requires s != 0 && r != 0 && TimesPower(m, Embedded(s)) == TimesPower(n, TimesPower(997 * k, Embedded(r)))
    ensures Tied(m - n - 7 * k)
  {
    hide TimesPower, Embedded, Element;
    AllSymbols(s);
    AllSymbols(r);
    var u: nat :| IsPower(33 * u, Embedded(s));
    var v: nat :| IsPower(33 * v, Embedded(r));
    PowerSum(m, 33 * u, 1);
    PowerSum(997 * k, 33 * v, 1);
    PowerSum(n, 997 * k + 33 * v, 1);
    PowerElement(m, Embedded(s));
    SameLog(m + 33 * u, n + (997 * k + 33 * v), TimesPower(m, Embedded(s)));
    Dropped(m + 33 * u, n + (997 * k + 33 * v), m - n - 7 * k, u - 30 * k - v);
  }

  lemma Dropped(a: int, b: int, c: int, q: int)
    requires (a - b) % 33 == 0 && a - b == c + 33 * q
    ensures Tied(c)
  {
  }

  /** Four terms cancel at each of the three roots. */
  ghost predicate Cancel(x: bv32, n: nat, y: bv32, m: nat, z: bv32, l: nat, w: bv32, k: nat) {
    Sum(0, x, n, y, m, z, l, w, k) == 0 && Sum(1, x, n, y, m, z, l, w, k) == 0 && Sum(2, x, n, y, m, z, l, w, k) == 0
  }

  lemma Grouped(a: bv32, b: bv32, c: bv32)
    ensures Xor(Xor(a, b), c) == Xor(a, Xor(b, c))
  {
  }

  lemma Backwards(a: bv32, b: bv32, c: bv32, d: bv32)
    ensures Xor(Xor(Xor(a, b), c), d) == Xor(Xor(Xor(d, c), b), a)
  {
    hide Xor;
    Swap(Xor(Xor(a, b), c), d);
    Swap(Xor(a, b), c);
    Grouped(d, c, Xor(a, b));
    Swap(a, b);
    Grouped(Xor(d, c), b, a);
  }

  lemma {:induction false} SumReordered(t: nat, x: bv32, n: nat, y: bv32, m: nat, z: bv32, l: nat, w: bv32, k: nat)
    ensures Sum(t, x, n, y, m, z, l, w, k) == Sum(t, w, k, z, l, y, m, x, n)
    ensures Sum(t, x, n, y, m, z, l, w, k) == Sum(t, w, k, y, m, z, l, x, n)
    ensures Sum(t, x, n, y, m, z, l, w, k) == Sum(t, w, k, x, n, z, l, y, m)
  {
    hide TimesPower, Xor;
    var a, b, c, d := TimesPower(t * n, x), TimesPower(t * m, y), TimesPower(t * l, z), TimesPower(t * k, w);
    Backwards(a, b, c, d);
    Backwards(a, c, b, d);
    Backwards(b, c, a, d);
    Grouped(a, b, c);
    Grouped(a, c, b);
    Swap(b, c);
    Swap(a, Xor(b, c));
  }

  lemma {:induction false} CancelReordered(x: bv32, n: nat, y: bv32, m: nat, z: bv32, l: nat, w: bv32, k: nat)
    requires Cancel(x, n, y, m, z, l, w, k)
    ensures Cancel(w, k, z, l, y, m, x, n) && Cancel(w, k, y, m, z, l, x, n) && Cancel(w, k, x, n, z, l, y, m)
  {
    hide Sum;
    SumReordered(0, x, n, y, m, z, l, w, k);
    SumReordered(1, x, n, y, m, z, l, w, k);
    SumReordered(2, x, n, y, m, z, l, w, k);
  }

  /** A symbol as a term at its place. */
  function Term(s: bv32, n: nat): bv32 {
    TimesPower(997 * n, Embedded(s))
  }

  ghost predicate Sums(n: nat, z: nat) {
    TimesPower(z, 1) == Xor(1, TimesPower(n, 1))
  }

  /** What the last symbol and the one at m have to agree on. */
  lemma {:induction false} Agreed(s: Symbol, r: Symbol, m: nat, y: bv32, l: nat, w: bv32, k: nat, zl: nat, zk: nat,
      yl: nat, yk: nat)
    requires s != 0 && r != 0 && m > 0 && l > 0 && k > 0 && m != l && m != k
    requires Cancel(Embedded(s), 0, Term(r, m), m, y, l, w, k)
    requires Sums(l, zl) && Sums(k, zk) && Sums(Max(m, l) - Min(m, l), yl) && Sums(Max(m, k) - Min(m, k), yk)
    ensures Tied(zl + zk - (Min(m, l) + yl + Min(m, k) + yk) - 7 * m)
  {
    hide TimesPower, Embedded, Element, Xor, Sum, Gap;
    EmbeddedElement(s);
    EmbeddedElement(r);
    PowerElement(997 * m, Embedded(r));
    Compared(Embedded(s), 0, Term(r, m), m, y, l, w, k);
    TwoGaps(0, l, k, Embedded(s), zl, zk);
    TwoGaps(m, l, k, Term(r, m), yl, yk);
    Matched(s, zl + zk, r, Min(m, l) + yl + Min(m, k) + yk, m);
  }

  /** From the sums of two logarithms to a single one. */
  lemma Halved(a: int, b: int, c: int, t: int, q: int)
    requires Tied(a) && Tied(b) && Tied(c) && t == 31 * (a + b - c) + 33 * q
    ensures Tied(t)
  {
    assert t == 33 * (31 * (a / 33 + b / 33 - c / 33) + q);
  }

  lemma Congruent(i: int, j: int, k: int, zi: int, zj: int, zk: int, zji: int, zki: int, zkj: int)
    requires Tied(zj + zk - (i + zji + i + zki) - 7 * i)
    requires Tied(zi + zk - (i + zji + j + zkj) - 7 * j)
    requires Tied(zi + zj - (i + zki + j + zkj) - 7 * k)
    ensures Tied((29 * zk + 19 * k) - (29 * zji + 19 * (j - i) + i))
    ensures Tied((29 * zj + 19 * j) - (29 * zki + 19 * (k - i) + i))
    ensures Tied((29 * zi + 19 * i) - (29 * zkj + 19 * (k - j) + j))
  {
    hide Tied;
    var a := zj + zk - (i + zji + i + zki) - 7 * i;
    var b := zi + zk - (i + zji + j + zkj) - 7 * j;
    var c := zi + zj - (i + zki + j + zkj) - 7 * k;
    Halved(a, b, c, (29 * zk + 19 * k) - (29 * zji + 19 * (j - i) + i), zji - zk + 9 * i + 6 * j - 6 * k);
    Halved(a, c, b, (29 * zj + 19 * j) - (29 * zki + 19 * (k - i) + i), zki - zj + 9 * i - 6 * j + 6 * k);
    Halved(b, c, a, (29 * zi + 19 * i) - (29 * zkj + 19 * (k - j) + j), zkj - zi - 6 * i + 9 * j + 6 * k);
  }

  lemma {:induction false} ZechAgree(n: nat, z: nat, m: nat, y: nat, i: nat)
    requires 0 < n <= 88 && 0 < m <= 88 && i <= 88 && Residue(z) == Log(Place(n)) && Residue(y) == Log(Place(m))
    requires Tied((29 * z + 19 * n) - (29 * y + 19 * m + i))
    ensures Zech(Place(n)) == Plus(Zech(Place(m)), Mod33(Place(i)))
  {
    hide Residue, Log, Zech, Place, Plus, Mod33;
    ZechIs(n, z);
    ZechIs(m, y);
    ResidueSame(29 * z + 19 * n, 29 * y + 19 * m + i);
    ResidueSum(29 * y + 19 * m, i);
    PlaceResidue(i);
  }

  /** Four symbols within 89 places that cancel at the three roots are not all different from zero. */
  lemma {:induction false} NotAll(s: Symbol, si: Symbol, i: nat, sj: Symbol, j: nat, sk: Symbol, k: nat)
    requires 0 < i < j < k <= 88 && Cancel(Term(sk, k), k, Term(sj, j), j, Term(si, i), i, Embedded(s), 0)
    ensures s == 0 || si == 0 || sj == 0 || sk == 0
  {
    hide Cancel, Sums, Residue, Log, Zech, Place, Term, Plus, Mod33, Tied;
    if s != 0 && si != 0 && sj != 0 && sk != 0 {
      CancelReordered(Term(sk, k), k, Term(sj, j), j, Term(si, i), i, Embedded(s), 0);
      var zi := Logarithm(i);
      var zj := Logarithm(j);
      var zk := Logarithm(k);
      var zji := Logarithm(j - i);
      var zki := Logarithm(k - i);
      var zkj := Logarithm(k - j);
      Agreed(s, si, i, Term(sj, j), j, Term(sk, k), k, zj, zk, zji, zki);
      Agreed(s, sj, j, Term(si, i), i, Term(sk, k), k, zi, zk, zji, zkj);
      Agreed(s, sk, k, Term(si, i), i, Term(sj, j), j, zi, zj, zki, zkj);
      Clashing(i, j, k, zi, zj, zk, zji, zki, zkj);
      PlaceLess(0, i);
      PlaceLess(i, j);
      PlaceLess(j, k);
      PlaceZero();
      NoClash(Place(i), Place(j), Place(k));
    }
  }

  lemma {:induction false} Logarithm(n: nat) returns (z: nat)
    requires 0 < n <= 88
    ensures Sums(n, z) && Residue(z) == Log(Place(n))
  {
    hide TimesPower, Xor, Residue, Log, Place;
    z := SumIsPower(n);
  }

  lemma {:induction false} Clashing(i: nat, j: nat, k: nat, zi: nat, zj: nat, zk: nat, zji: nat, zki: nat, zkj: nat)
    requires 0 < i < j < k <= 88
    requires Residue(zi) == Log(Place(i)) && Residue(zj) == Log(Place(j)) && Residue(zk) == Log(Place(k))
    requires Residue(zji) == Log(Place(j - i)) && Residue(zki) == Log(Place(k - i)) && Residue(zkj) == Log(Place(k - j))
    requires Tied(zj + zk - (i + zji + i + zki) - 7 * i)
    requires Tied(zi + zk - (i + zji + j + zkj) - 7 * j)
    requires Tied(zi + zj - (i + zki + j + zkj) - 7 * k)
    ensures Clash(Place(i), Place(j), Place(k))
  {
    hide Residue, Log, Zech, Place, Plus, Mod33, Tied, Clash, Minus;
    Congruent(i, j, k, zi, zj, zk, zji, zki, zkj);
    ZechAgree(k, zk, j - i, zji, i);
    ZechAgree(j, zj, k - i, zki, i);
    ZechAgree(i, zi, k - j, zkj, j);
    PlaceMinus(i, j);
    PlaceMinus(i, k);
    PlaceMinus(j, k);
    ClashIs(Place(i), Place(j), Place(k), Place(j - i), Place(k - i), Place(k - j));
  }

  lemma ClashIs(i: bv7, j: bv7, k: bv7, ji: bv7, ki: bv7, kj: bv7)
    requires ji == Minus(j, i) && ki == Minus(k, i) && kj == Minus(k, j)
    requires Zech(k) == Plus(Zech(ji), Mod33(i)) && Zech(j) == Plus(Zech(ki), Mod33(i))
    requires Zech(i) == Plus(Zech(kj), Mod33(j))
    ensures Clash(i, j, k)
  {
    hide Zech, Plus, Mod33;
  }

  // ---------------------------------------------------------------- four errors

  /** Four symbols with zeros between them. */
  function Quadruple(a: Symbol, x: nat, b: Symbol, y: nat, c: Symbol, z: nat, d: Symbol): (v: seq<Symbol>)
    requires x > 0 && y > 0 && z > 0
    ensures |v| == x + y + z + 1
  {
    Triple(a, x, b, y, c) + (Zeros(z - 1) + [d])
  }

  lemma Exponents(t: nat, m: nat, z: nat)
    ensures (997 + t) * z + (t * m + 997 * m) == t * (m + z) + 997 * (m + z)
  {
    Distribute(997, t, z);
    Distribute(m, z, t);
  }

  /** Places further on, a term is the term of the place it has come to. */
  lemma {:induction false} Carried(t: nat, m: nat, z: nat, v: bv32)
    ensures TimesPower((997 + t) * z, TimesPower(t * m, TimesPower(997 * m, v))) ==
            TimesPower(t * (m + z), TimesPower(997 * (m + z), v))
  {
    hide TimesPower;
    PowerSum(t * m, 997 * m, v);
    PowerSum((997 + t) * z, t * m + 997 * m, v);
    PowerSum(t * (m + z), 997 * (m + z), v);
    Exponents(t, m, z);
  }

  /** The value of four symbols at each root. */
  lemma {:induction false} QuadrupleAt(t: nat, a: Symbol, x: nat, b: Symbol, y: nat, c: Symbol, z: nat, d: Symbol)
    requires t < 3 && x > 0 && y > 0 && z > 0
    ensures At(t, From(0, Quadruple(a, x, b, y, c, z, d))) ==
            Sum(t, Term(a, x + y + z), x + y + z, Term(b, y + z), y + z, Term(c, z), z, Embedded(d), 0)
  {
    hide At, From, Embedded, Xor, TimesPower, Triple;
    var three, f := Triple(a, x, b, y, c), (997 + t) * z;
    FromPacked(0, three);
    FromAppend(0, three, Zeros(z - 1) + [d]);
    TripleAt(t, a, x, b, y, c);
    AtApart(t, From(0, three), z, d);
    var p, q := TimesPower(t * (x + y), Term(a, x + y)), TimesPower(t * y, Term(b, y));
    PowerLinear(f, Xor(p, q), Embedded(c));
    PowerLinear(f, p, q);
    Carried(t, x + y, z, Embedded(a));
    Carried(t, y, z, Embedded(b));
    SplitPower(t, z, Embedded(c));
    NoPower(Embedded(d));
  }

  /** Four symbols within 89 places that leave no remainder are not all different from zero. */
  lemma {:induction false} QuadrupleRemains(a: Symbol, x: nat, b: Symbol, y: nat, c: Symbol, z: nat, d: Symbol)
    requires x > 0 && y > 0 && z > 0 && x + y + z <= 88 && From(0, Quadruple(a, x, b, y, c, z, d)) == 0
    ensures a == 0 || b == 0 || c == 0 || d == 0
  {
    hide At, From, Embedded, Sum, Quadruple, Term;
    QuadrupleAt(0, a, x, b, y, c, z, d);
    QuadrupleAt(1, a, x, b, y, c, z, d);
    QuadrupleAt(2, a, x, b, y, c, z, d);
    AtSymbol(0, 0);
    AtSymbol(1, 0);
    AtSymbol(2, 0);
    NotAll(d, c, z, b, y + z, a, x + y + z);
  }

  /** The pieces of a list with only four symbols that may differ from zero. */
  lemma QuadruplePieces(d: seq<Symbol>, h: nat, i: nat, j: nat, k: nat)
    requires h < i < j < k < |d| && forall n :: 0 <= n < |d| && n != h && n != i && n != j && n != k ==> d[n] == 0
    ensures d == Zeros(h) + Quadruple(d[h], i - h, d[i], j - i, d[j], k - j, d[k]) + Zeros(|d| - k - 1)
  {
  }

  lemma {:induction false} OnlyFour(d: seq<Symbol>, h: nat, i: nat, j: nat, k: nat)
    requires h < i < j < k < |d| && k - h <= 88 && From(0, d) == 0
    requires forall n :: 0 <= n < |d| && n != h && n != i && n != j && n != k ==> d[n] == 0
    ensures AllZero(d)
  {
    hide From, Quadruple;
    QuadruplePieces(d, h, i, j, k);
    RunAcross(h, Quadruple(d[h], i - h, d[i], j - i, d[j], k - j, d[k]), |d| - k - 1);
    QuadrupleRemains(d[h], i - h, d[i], j - i, d[j], k - j, d[k]);
    if d[h] == 0 {
      OnlyThree(d, i, j, k);
    } else if d[i] == 0 {
      OnlyThree(d, h, j, k);
    } else if d[j] == 0 {
      OnlyThree(d, h, i, k);
    } else {
      OnlyThree(d, h, i, j);
    }
  }

  /** Two lists of the same length that differ, and only in up to four symbols within 89 places, cannot both verify. */
  lemma {:induction false} FourDetected(u: seq<Symbol>, w: seq<Symbol>, h: nat, i: nat, j: nat, k: nat)
    requires |u| == |w| && u != w && h < i < j < k < |u| && k - h <= 88
    requires forall n :: 0 <= n < |u| && n != h && n != i && n != j && n != k ==> u[n] == w[n]
    ensures !(Verifies(u) && Verifies(w))
  {
    hide Xor, From, Difference, XorSymbol;
    var d := Difference(u, w);
    FromLinear(1, 1, u, w);
    XorSelf(1);
    DifferenceZero(u, w);
    if From(0, d) == 0 {
      OnlyFour(d, h, i, j, k);
    }
  }
}
