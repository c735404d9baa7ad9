/** The Bech32 checksum of src/bech32.cpp as linear algebra over GF(2). */
module Bech32Checksum {
  /** A five-bit symbol. */
  type Symbol = x: bv32 | x < 32

  /** Six symbols packed into thirty bits. */
  predicate Packed(c: bv32) {
    c < 0x4000_0000
  }

  /** The lower five symbols, moved up by one. */
  function Raised(c: bv32): bv32 {
    (c & 0x1ff_ffff) << 5
  }

  function Xor(a: bv32, b: bv32): bv32 {
    a ^ b
  }

  /** A bit of the top symbol. */
  predicate TopBit(c: bv32, bit: bv32) {
    (c >> 25) & bit != 0
  }

  /** `k` if the given bit of the top symbol is set. */
  function Chosen(c: bv32, bit: bv32, k: bv32): bv32 {
    if TopBit(c, bit) then k else 0
  }

  /** One round of PolyMod without its input: multiplication by x modulo the generator. */
  function Turn(c: bv32): bv32 {
    Xor(Xor(Xor(Xor(Xor(Raised(c), Chosen(c, 1, 0x3b6a57b2)), Chosen(c, 2, 0x26508e6d)), Chosen(c, 4, 0x1ea119fa)),
            Chosen(c, 8, 0x3d4233dd)), Chosen(c, 16, 0x2a1462b3))
  }

  function Step(c: bv32, v: Symbol): bv32 {
    Xor(Turn(c), v)
  }

  lemma RaisedLinear(a: bv32, b: bv32)
    ensures Raised(Xor(a, b)) == Xor(Raised(a), Raised(b))
  {
  }

  predicate OneBit(bit: bv32) {
    bit == 1 || bit == 2 || bit == 4 || bit == 8 || bit == 16
  }

  lemma TopBitLinear(a: bv32, b: bv32, bit: bv32)
    requires OneBit(bit)
    ensures TopBit(Xor(a, b), bit) == (TopBit(a, bit) != TopBit(b, bit))
  {
    if bit == 1 {
    } else if bit == 2 {
    } else if bit == 4 {
    } else if bit == 8 {
    }
  }

  lemma XorSelf(k: bv32)
    ensures Xor(k, k) == 0 && Xor(k, 0) == k && Xor(0, k) == k
  {
  }

  lemma ChosenLinear(a: bv32, b: bv32, bit: bv32, k: bv32)
    requires OneBit(bit)
    ensures Chosen(Xor(a, b), bit, k) == Xor(Chosen(a, bit, k), Chosen(b, bit, k))
  {
    hide TopBit, Xor;
    TopBitLinear(a, b, bit);
    XorSelf(k);
    XorSelf(0);
  }

  lemma XorAssoc(a: bv32, b: bv32, c: bv32)
    ensures Xor(Xor(a, b), c) == Xor(a, Xor(b, c))
  {
  }

  lemma XorSwap(a: bv32, b: bv32)
    ensures Xor(a, b) == Xor(b, a)
  {
  }

  lemma XorPairs(a: bv32, b: bv32, c: bv32, d: bv32)
    ensures Xor(Xor(a, b), Xor(c, d)) == Xor(Xor(a, c), Xor(b, d))
  {
    hide Xor;
    XorAssoc(a, b, Xor(c, d));
    XorAssoc(b, c, d);
    XorSwap(b, c);
    XorAssoc(c, b, d);
    XorAssoc(a, c, Xor(b, d));
  }

  lemma TurnLinear(a: bv32, b: bv32)
    ensures Turn(Xor(a, b)) == Xor(Turn(a), Turn(b))
  {
    hide Raised, Chosen, Xor;
    RaisedLinear(a, b);
    var r, s := Raised(a), Raised(b);
    ChosenLinear(a, b, 1, 0x3b6a57b2);
    XorPairs(r, s, Chosen(a, 1, 0x3b6a57b2), Chosen(b, 1, 0x3b6a57b2));
    var r1, s1 := Xor(r, Chosen(a, 1, 0x3b6a57b2)), Xor(s, Chosen(b, 1, 0x3b6a57b2));
    ChosenLinear(a, b, 2, 0x26508e6d);
    XorPairs(r1, s1, Chosen(a, 2, 0x26508e6d), Chosen(b, 2, 0x26508e6d));
    var r2, s2 := Xor(r1, Chosen(a, 2, 0x26508e6d)), Xor(s1, Chosen(b, 2, 0x26508e6d));
    ChosenLinear(a, b, 4, 0x1ea119fa);
    XorPairs(r2, s2, Chosen(a, 4, 0x1ea119fa), Chosen(b, 4, 0x1ea119fa));
    var r3, s3 := Xor(r2, Chosen(a, 4, 0x1ea119fa)), Xor(s2, Chosen(b, 4, 0x1ea119fa));
    ChosenLinear(a, b, 8, 0x3d4233dd);
    XorPairs(r3, s3, Chosen(a, 8, 0x3d4233dd), Chosen(b, 8, 0x3d4233dd));
    var r4, s4 := Xor(r3, Chosen(a, 8, 0x3d4233dd)), Xor(s3, Chosen(b, 8, 0x3d4233dd));
    ChosenLinear(a, b, 16, 0x2a1462b3);
    XorPairs(r4, s4, Chosen(a, 16, 0x2a1462b3), Chosen(b, 16, 0x2a1462b3));
  }

  lemma XorPacked(a: bv32, b: bv32)
    requires Packed(a) && Packed(b)
    ensures Packed(Xor(a, b))
  {
  }

  lemma PartsPacked(c: bv32, bit: bv32, k: bv32)
    requires Packed(k)
    ensures Packed(Raised(c)) && Packed(Chosen(c, bit, k))
  {
  }

  lemma TurnPacked(c: bv32)
    ensures Packed(Turn(c))
  {
    hide Raised, Chosen, Xor;
    PartsPacked(c, 1, 0x3b6a57b2);
    PartsPacked(c, 2, 0x26508e6d);
    PartsPacked(c, 4, 0x1ea119fa);
    PartsPacked(c, 8, 0x3d4233dd);
    PartsPacked(c, 16, 0x2a1462b3);
    var r1 := Xor(Raised(c), Chosen(c, 1, 0x3b6a57b2));
    var r2 := Xor(r1, Chosen(c, 2, 0x26508e6d));
    var r3 := Xor(r2, Chosen(c, 4, 0x1ea119fa));
    var r4 := Xor(r3, Chosen(c, 8, 0x3d4233dd));
    XorPacked(Raised(c), Chosen(c, 1, 0x3b6a57b2));
    XorPacked(r1, Chosen(c, 2, 0x26508e6d));
    XorPacked(r2, Chosen(c, 4, 0x1ea119fa));
    XorPacked(r3, Chosen(c, 8, 0x3d4233dd));
    XorPacked(r4, Chosen(c, 16, 0x2a1462b3));
  }

  lemma StepPacked(c: bv32, v: Symbol)
    ensures Packed(Step(c, v))
  {
    hide Turn, Xor;
    TurnPacked(c);
    XorPacked(Turn(c), v);
  }

  lemma NoTop(c: bv32, bit: bv32)
    requires c < 0x200_0000 && OneBit(bit)
    ensures !TopBit(c, bit)
  {
  }

  lemma RaisedShift(c: bv32)
    requires c < 0x200_0000
    ensures Raised(c) == c << 5
  {
  }

  /** Without a top symbol, multiplication by x moves every symbol up by one. */
  lemma TurnShift(c: bv32)
    requires c < 0x200_0000
    ensures Turn(c) == c << 5
  {
    hide Raised, Xor, TopBit;
    RaisedShift(c);
    NoTop(c, 1);
    NoTop(c, 2);
    NoTop(c, 4);
    NoTop(c, 8);
    NoTop(c, 16);
    XorSelf(Raised(c));
  }

  // ---------------------------------------------------------------- nothing is lost

  function Low(c: bv32): bv32 {
    c & 31
  }

  lemma LowXor(a: bv32, b: bv32)
    ensures Low(Xor(a, b)) == Xor(Low(a), Low(b))
  {
  }

  lemma LowRaised(c: bv32)
    ensures Low(Raised(c)) == 0
  {
  }

  function Bit(b: bool, k: bv32): bv32 {
    if b then k else 0
  }

  lemma LowChosen(c: bv32, bit: bv32, k: bv32)
    ensures Low(Chosen(c, bit, k)) == Bit(TopBit(c, bit), Low(k))
  {
    hide TopBit;
    assert Low(0) == 0;
  }

  /** The lowest symbols of the five multiples of the generator are independent. */
  lemma Independent(b1: bool, b2: bool, b4: bool, b8: bool, b16: bool)
    requires Xor(Xor(Xor(Xor(Xor(0, Bit(b1, 18)), Bit(b2, 13)), Bit(b4, 26)), Bit(b8, 29)), Bit(b16, 19)) == 0
    ensures !b1 && !b2 && !b4 && !b8 && !b16
  {
  }

  /** Multiplication by x loses nothing. */
  lemma TurnInjective(c: bv32)
    requires Packed(c) && Turn(c) == 0
    ensures c == 0
  {
    hide Turn, Low, TopBit, Xor, Bit;
    LowTurn(c);
    LowZero();
    Independent(TopBit(c, 1), TopBit(c, 2), TopBit(c, 4), TopBit(c, 8), TopBit(c, 16));
    NoTopSmall(c);
    TurnShift(c);
    ShiftZero(c);
  }

  lemma LowZero()
    ensures Low(0) == 0
  {
  }

  lemma LowTurn(c: bv32)
    ensures Low(Turn(c)) == Xor(Xor(Xor(Xor(Xor(0, Bit(TopBit(c, 1), 18)), Bit(TopBit(c, 2), 13)),
      Bit(TopBit(c, 4), 26)),
                                    Bit(TopBit(c, 8), 29)), Bit(TopBit(c, 16), 19))
  {
    assert Low(0x3b6a57b2) == 18 && Low(0x26508e6d) == 13 && Low(0x1ea119fa) == 26 && Low(0x3d4233dd) == 29 &&
      Low(0x2a1462b3) == 19;
    hide Raised, Chosen, Xor, Low, TopBit;
    var r1 := Xor(Raised(c), Chosen(c, 1, 0x3b6a57b2));
    var r2 := Xor(r1, Chosen(c, 2, 0x26508e6d));
    var r3 := Xor(r2, Chosen(c, 4, 0x1ea119fa));
    var r4 := Xor(r3, Chosen(c, 8, 0x3d4233dd));
    LowRaised(c);
    LowXor(Raised(c), Chosen(c, 1, 0x3b6a57b2));
    LowXor(r1, Chosen(c, 2, 0x26508e6d));
    LowXor(r2, Chosen(c, 4, 0x1ea119fa));
    LowXor(r3, Chosen(c, 8, 0x3d4233dd));
    LowXor(r4, Chosen(c, 16, 0x2a1462b3));
    LowChosen(c, 1, 0x3b6a57b2);
    LowChosen(c, 2, 0x26508e6d);
    LowChosen(c, 4, 0x1ea119fa);
    LowChosen(c, 8, 0x3d4233dd);
    LowChosen(c, 16, 0x2a1462b3);
  }

  lemma NoTopSmall(c: bv32)
    requires Packed(c) && !TopBit(c, 1) && !TopBit(c, 2) && !TopBit(c, 4) && !TopBit(c, 8) && !TopBit(c, 16)
    ensures c < 0x200_0000
  {
  }

  lemma ShiftZero(c: bv32)
    requires c < 0x200_0000 && c << 5 == 0
    ensures c == 0
  {
  }

  // ---------------------------------------------------------------- lists of symbols

  /** The rounds of PolyMod over a list, from a given start. */
  function From(c: bv32, v: seq<Symbol>): bv32 {
    if v == [] then c else Step(From(c, v[..|v| - 1]), v[|v| - 1])
  }

  function PolyMod(v: seq<Symbol>): bv32 {
    From(1, v)
  }

  lemma {:induction false} FromAppend(c: bv32, u: seq<Symbol>, v: seq<Symbol>)
    ensures From(c, u + v) == From(From(c, u), v)
  {
    hide Step;
    if v == [] {
      assert u + v == u;
    } else {
      var n := |v| - 1;
      assert (u + v)[..|u + v| - 1] == u + v[..n];
      FromAppend(c, u, v[..n]);
    }
  }

  lemma {:induction false} FromPacked(c: bv32, v: seq<Symbol>)
    requires Packed(c)
    ensures Packed(From(c, v))
  {
    hide Step;
    if v != [] {
      StepPacked(From(c, v[..|v| - 1]), v[|v| - 1]);
    }
  }

  function XorSymbol(a: Symbol, b: Symbol): Symbol {
    Xor(a, b)
  }

  /** The difference of two lists of the same length. */
  function Difference(u: seq<Symbol>, w: seq<Symbol>): (d: seq<Symbol>)
    requires |u| == |w|
    ensures |d| == |u| && forall i :: 0 <= i < |d| ==> d[i] == XorSymbol(u[i], w[i])
  {
    if u == [] then [] else Difference(u[..|u| - 1], w[..|u| - 1]) + [XorSymbol(u[|u| - 1], w[|u| - 1])]
  }

  lemma StepLinear(a: bv32, b: bv32, x: Symbol, y: Symbol)
    ensures Step(Xor(a, b), XorSymbol(x, y)) == Xor(Step(a, x), Step(b, y))
  {
    hide Xor, Turn;
    TurnLinear(a, b);
    XorPairs(Turn(a), Turn(b), x, y);
  }

  /** PolyMod is linear: the difference of two results is the result of the difference. */
  lemma {:induction false} FromLinear(c: bv32, d: bv32, u: seq<Symbol>, w: seq<Symbol>)
    requires |u| == |w|
    ensures From(Xor(c, d), Difference(u, w)) == Xor(From(c, u), From(d, w))
  {
    hide Xor, XorSymbol, Step;
    if u != [] {
      var n := |u| - 1;
      FromLinear(c, d, u[..n], w[..n]);
      assert Difference(u, w)[..n] == Difference(u[..n], w[..n]);
      StepLinear(From(c, u[..n]), From(d, w[..n]), u[n], w[n]);
    }
  }

  function Zeros(n: nat): (z: seq<Symbol>)
    ensures |z| == n && forall i :: 0 <= i < n ==> z[i] == 0
  {
    if n == 0 then [] else Zeros(n - 1) + [0]
  }

  lemma StepZero(c: bv32)
    ensures Step(c, 0) == Turn(c) && Turn(0) == 0
  {
    TurnShift(0);
    hide Turn;
  }

  lemma ZerosStep(c: bv32, n: nat)
    requires n > 0
    ensures From(c, Zeros(n)) == Turn(From(c, Zeros(n - 1)))
  {
    hide Step, Turn;
    assert Zeros(n)[..n - 1] == Zeros(n - 1);
    StepZero(From(c, Zeros(n - 1)));
  }

  /** Zeros after a non-zero remainder never make it zero. */
  lemma {:induction false} ZerosKeep(c: bv32, n: nat)
    requires Packed(c)
    ensures From(c, Zeros(n)) == 0 <==> c == 0
  {
    hide Turn;
    StepZero(0);
    if n > 0 {
      ZerosKeep(c, n - 1);
      ZerosStep(c, n);
      FromPacked(c, Zeros(n - 1));
      var x := From(c, Zeros(n - 1));
      if Turn(x) == 0 {
        TurnInjective(x);
      }
    }
  }

  // ---------------------------------------------------------------- six symbols

  /** Bounds a remainder of at most n symbols. */
  function Limit(n: nat): bv32
    requires n <= 6
  {
    if n == 0 then 1 else if n == 1 then 0x20 else if n == 2 then 0x400 else if n == 3 then 0x8000
    else if n == 4 then 0x10_0000 else if n == 5 then 0x200_0000 else 0x4000_0000
  }

  predicate Below(x: bv32, n: nat) {
    n <= 6 && x < Limit(n)
  }

  lemma LimitStep(n: nat, c: bv32, v: Symbol)
    requires n <= 5 && c < Limit(n)
    ensures c < 0x200_0000 && Xor(c << 5, v) < Limit(n + 1)
    ensures Xor(c << 5, v) == 0 ==> c == 0 && v == 0
  {
    if n == 0 {
    } else if n == 1 {
    } else if n == 2 {
    } else if n == 3 {
    } else if n == 4 {
    }
  }

  ghost predicate AllZero(v: seq<Symbol>) {
    forall i :: 0 <= i < |v| ==> v[i] == 0
  }

  lemma StepBelow(n: nat, c: bv32, v: Symbol)
    requires n <= 5 && Below(c, n)
    ensures Below(Step(c, v), n + 1)
    ensures Step(c, v) == 0 ==> c == 0 && v == 0
  {
    hide Xor, Turn, Limit;
    LimitStep(n, c, v);
    TurnShift(c);
  }

  /** Up to six symbols from zero are just packed, so only zeros give zero. */
  lemma {:induction false} ShortRun(v: seq<Symbol>)
    requires |v| <= 6
    ensures Below(From(0, v), |v|)
    ensures From(0, v) == 0 ==> AllZero(v)
  {
    hide Step, Below;
    if v == [] {
      BelowNone();
    } else {
      var n := |v| - 1;
      ShortRun(v[..n]);
      StepBelow(n, From(0, v[..n]), v[n]);
    }
  }

  lemma BelowNone()
    ensures Below(0, 0)
  {
  }

  /** Six different symbols give a different remainder. */
  lemma SixUnique(u: seq<Symbol>, w: seq<Symbol>)
    requires |u| == |w| == 6 && From(0, u) == From(0, w)
    ensures u == w
  {
    FromLinear(0, 0, u, w);
    XorSelf(0);
    XorSelf(From(0, u));
    ShortRun(Difference(u, w));
    hide From, Limit, Xor;
    forall i | 0 <= i < 6
      ensures u[i] == w[i]
    {
      SameSymbol(u[i], w[i]);
    }
  }

  lemma SameSymbol(a: Symbol, b: Symbol)
    ensures XorSymbol(a, b) == 0 <==> a == b
  {
  }

  function Last(x: bv32): Symbol {
    x & 31
  }

  function Rest(x: bv32): bv32 {
    x >> 5
  }

  /** The lowest n symbols of a remainder, the highest first. */
  function Unpack(c: bv32, n: nat): (s: seq<Symbol>)
    ensures |s| == n
    decreases n
  {
    if n == 0 then [] else Unpack(Rest(c), n - 1) + [Last(c)]
  }

  lemma Rejoin(x: bv32)
    requires Packed(x)
    ensures Rest(x) < 0x200_0000 && Packed(Rest(x)) && Xor(Rest(x) << 5, Last(x)) == x
  {
  }

  lemma StepRejoin(x: bv32)
    requires Packed(x)
    ensures Step(Rest(x), Last(x)) == x
  {
    hide Turn, Xor, Rest, Last;
    Rejoin(x);
    TurnShift(Rest(x));
  }

  lemma RestBelow(x: bv32, n: nat)
    requires n > 0 && Below(x, n)
    ensures Below(Rest(x), n - 1)
  {
    if n == 1 {
    } else if n == 2 {
    } else if n == 3 {
    } else if n == 4 {
    } else if n == 5 {
    }
  }

  lemma BelowPacked(x: bv32, n: nat)
    requires Below(x, n)
    ensures Packed(x) && (n == 0 ==> x == 0)
  {
  }

  lemma PackedBelow(x: bv32)
    requires Packed(x)
    ensures Below(x, 6)
  {
  }

  lemma UnpackNext(c: bv32, s: seq<Symbol>)
    requires Packed(c) && From(0, s) == Rest(c)
    ensures From(0, s + [Last(c)]) == c
  {
    hide Step, Rest, Last;
    StepRejoin(c);
    assert (s + [Last(c)])[..|s|] == s;
  }

  /** Running over the symbols of a remainder puts it back together. */
  lemma {:induction false} UnpackRestores(c: bv32, n: nat)
    requires Below(c, n)
    ensures From(0, Unpack(c, n)) == c
    decreases n
  {
    hide Step, Below, Packed, Rest, Last;
    BelowPacked(c, n);
    if n > 0 {
      hide From;
      RestBelow(c, n);
      UnpackRestores(Rest(c), n - 1);
      UnpackNext(c, Unpack(Rest(c), n - 1));
    }
  }

  // ---------------------------------------------------------------- the checksum

  /** What CreateChecksum appends to a list of symbols. */
  function Checksum(pre: seq<Symbol>): (s: seq<Symbol>)
    ensures |s| == 6
  {
    Unpack(Xor(PolyMod(pre + Zeros(6)), 1), 6)
  }

  predicate Verifies(v: seq<Symbol>) {
    PolyMod(v) == 1
  }

  /** Six symbols at the end are added to the remainder as they are. */
  lemma LastSix(pre: seq<Symbol>, s: seq<Symbol>)
    requires |s| == 6
    ensures PolyMod(pre + s) == Xor(PolyMod(pre + Zeros(6)), From(0, s))
  {
    hide Xor, Step, From, Difference;
    var c := From(1, pre);
    FromAppend(1, pre, s);
    FromAppend(1, pre, Zeros(6));
    FromLinear(c, 0, Zeros(6), s);
    XorSelf(c);
    assert Difference(Zeros(6), s) == s by {
      forall i | 0 <= i < 6
        ensures Difference(Zeros(6), s)[i] == s[i]
      {
        XorSelf(s[i]);
      }
    }
  }

  lemma OnePacked()
    ensures Packed(1)
  {
  }

  lemma XorCancel(m: bv32, x: bv32)
    ensures Xor(m, x) == 1 <==> x == Xor(m, 1)
  {
    hide Xor;
    XorAssoc(m, m, x);
    XorAssoc(m, m, 1);
    XorSelf(m);
    XorSelf(x);
    XorSelf(1);
  }

  /** A list followed by six symbols verifies exactly if those are its checksum. */
  lemma ChecksumExact(pre: seq<Symbol>, s: seq<Symbol>)
    requires |s| == 6
    ensures Verifies(pre + s) <==> s == Checksum(pre)
  {
    hide Xor, From, Unpack, Below, Packed;
    var m := PolyMod(pre + Zeros(6));
    LastSix(pre, s);
    OnePacked();
    FromPacked(1, pre + Zeros(6));
    XorPacked(m, 1);
    PackedBelow(Xor(m, 1));
    UnpackRestores(Xor(m, 1), 6);
    XorCancel(m, From(0, s));
    if From(0, s) == Xor(m, 1) {
      SixUnique(s, Checksum(pre));
    }
  }

  /** Two lists of the same length that differ only within six consecutive symbols cannot both verify. */
  lemma BurstDetected(u: seq<Symbol>, w: seq<Symbol>, at: nat)
    requires |u| == |w| && u != w
    requires forall i :: 0 <= i < |u| && !(at <= i < at + 6) ==> u[i] == w[i]
    ensures !(Verifies(u) && Verifies(w))
  {
    var from := if at < |u| then at else |u|;
    var to := if at + 6 < |u| then at + 6 else |u|;
    hide Xor, From, Limit, Difference, XorSymbol;
    var d := Difference(u, w);
    FromLinear(1, 1, u, w);
    XorSelf(1);
    DifferenceZero(u, w);
    hide Difference;
    OutsideWindow(d, from, to);
    BurstRemains(d, from, to);
  }

  lemma OutsideWindow(d: seq<Symbol>, from: nat, to: nat)
    requires from <= to <= |d| && forall i :: 0 <= i < |d| && !(from <= i < to) ==> d[i] == 0
    ensures AllZero(d[..from]) && AllZero(d[to..])
  {
  }

  /** A list that is zero except within six consecutive symbols has a zero remainder only if it is zero throughout. */
  lemma BurstRemains(d: seq<Symbol>, from: nat, to: nat)
    requires from <= to <= |d| && to - from <= 6 && AllZero(d[..from]) && AllZero(d[to..])
    ensures From(0, d) == 0 ==> AllZero(d)
  {
    hide From, Limit;
    var middle := d[from..to];
    ZerosEverywhere(d[..from]);
    ZerosEverywhere(d[to..]);
    assert d == d[..from] + middle + d[to..];
    RunAcross(from, middle, |d| - to);
    ShortRun(middle);
    if AllZero(middle) {
      ZeroPieces(d, from, to);
    }
  }

  lemma ZeroPieces(d: seq<Symbol>, from: nat, to: nat)
    requires from <= to <= |d| && AllZero(d[..from]) && AllZero(d[from..to]) && AllZero(d[to..])
    ensures AllZero(d)
  {
    forall i | 0 <= i < |d|
      ensures d[i] == 0
    {
      if i < from {
        assert d[i] == d[..from][i];
      } else if i < to {
        assert d[i] == d[from..to][i - from];
      } else {
        assert d[i] == d[to..][i - to];
      }
    }
  }

  lemma {:induction false} ZerosEverywhere(v: seq<Symbol>)
    requires AllZero(v)
    ensures v == Zeros(|v|)
  {
    if v != [] {
      ZerosEverywhere(v[..|v| - 1]);
      assert v == v[..|v| - 1] + [0];
    }
  }

  lemma DifferenceZero(u: seq<Symbol>, w: seq<Symbol>)
    requires |u| == |w|
    ensures forall i :: 0 <= i < |u| ==> (Difference(u, w)[i] == 0 <==> u[i] == w[i])
    ensures AllZero(Difference(u, w)) <==> u == w
  {
    forall i | 0 <= i < |u|
      ensures Difference(u, w)[i] == 0 <==> u[i] == w[i]
    {
      SameSymbol(u[i], w[i]);
    }
  }

  /** Zeros before and after a piece do not change whether its remainder is zero. */
  lemma RunAcross(before: nat, middle: seq<Symbol>, after: nat)
    ensures From(0, Zeros(before) + middle + Zeros(after)) == 0 <==> From(0, middle) == 0
  {
    hide Step;
    ZerosKeep(0, before);
    FromAppend(0, Zeros(before), middle);
    FromAppend(0, Zeros(before) + middle, Zeros(after));
    FromPacked(0, middle);
    ZerosKeep(From(0, middle), after);
  }
}
