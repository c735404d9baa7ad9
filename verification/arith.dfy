/** base_uint of src/arith_uint256.h and src/arith_uint256.cpp: fixed-width unsigned arithmetic on limbs, in place. */
module ArithUint {
  import opened Numbers
  import opened Limbs
  import opened LimbShifts

  lemma CarryStep(n: nat, m: nat)
    ensures (n % BASE) * m + (n / BASE) * (BASE * m) == n * m
  {
    assert n == (n / BASE) * BASE + n % BASE;
    var q, r := n / BASE, n % BASE;
    assert (q * BASE + r) * m == q * (BASE * m) + r * m;
  }

  /** Dropping the carry out of the top limb reduces modulo the width. */
  lemma DropCarry(v: nat, carry: nat, m: nat, total: nat)
    requires v < m && v + carry * m == total
    ensures v == total % m
  {
    DivUnique(total, m, carry, v);
  }

  class Uint {
    const pn: array<Word>

    function Width(): nat
    {
      pn.Length
    }

    function Value(): nat
      reads pn
    {
      Val(pn[..])
    }

    constructor (width: nat)
      ensures fresh(pn) && Width() == width && Value() == 0
    {
      pn := new Word[width](_ => 0);
      new;
      ValZeros(pn[..]);
    }

    constructor Copy(b: Uint)
      ensures fresh(pn) && pn[..] == b.pn[..]
    {
      pn := new Word[b.Width()](i requires 0 <= i < b.pn.Length reads b.pn => b.pn[i]);
    }

    /** operator+= */
    method AddAssign(b: Uint)
      requires b.Width() == Width()
      modifies pn
      ensures Value() == (old(Value()) + old(b.Value())) % Modulus(Width())
    {
      hide Val, Modulus;
      ghost var x, y := pn[..], b.pn[..];
      var carry := 0;
      ValEmpty(pn[..], x, y);
      for i := 0 to Width()
        invariant 0 <= carry <= 1
        invariant forall j :: i <= j < Width() ==> pn[j] == x[j] && b.pn[j] == y[j]
        invariant Val(pn[..i]) + carry * Modulus(i) == Val(x[..i]) + Val(y[..i])
      {
        var n := carry + pn[i] + b.pn[i];
        assert n < TWO64;
        ghost var low := pn[..i];
        pn[i] := n % BASE;
        assert pn[..][..i] == low;
        AddStep(pn[..], x, y, i, carry, n);
        carry := n / BASE;
      }
      assert pn[..Width()] == pn[..] && x[..Width()] == x && y[..Width()] == y;
      ValBound(pn[..]);
      DropCarry(Value(), carry, Modulus(Width()), Val(x) + Val(y));
    }

    /** operator++ */
    method Increment()
      modifies pn
      ensures Value() == (old(Value()) + 1) % Modulus(Width())
    {
      ghost var x: int := Value();
      assert Modulus(0) == 1;
      hide Val, Modulus;
      var i := 0;
      while i < Width()
        invariant 0 <= i <= Width()
        invariant Value() + Modulus(i) == x + 1
      {
        var w := (pn[i] + 1) % BASE;
        IncrementLimb(pn[..], i, w, x);
        pn[i] := w;
        if w != 0 {
          ValBound(pn[..]);
          DropCarry(Value(), 0, Modulus(Width()), x + 1);
          return;
        }
        i := i + 1;
      }
      ValBound(pn[..]);
      DropCarry(Value(), 1, Modulus(Width()), x + 1);
    }

    /** operator-- */
    method Decrement()
      modifies pn
      ensures Value() == (old(Value()) - 1) % Modulus(Width())
    {
      ghost var x: int := Value();
      assert Modulus(0) == 1;
      hide Val, Modulus;
      var i := 0;
      while i < Width()
        invariant 0 <= i <= Width()
        invariant Value() - Modulus(i) == x - 1
      {
        var w := (pn[i] - 1) % BASE;
        DecrementLimb(pn[..], i, w, x);
        pn[i] := w;
        if w != BASE - 1 {
          ValBound(pn[..]);
          DivUnique(x - 1, Modulus(Width()), 0, Value());
          return;
        }
        i := i + 1;
      }
      ValBound(pn[..]);
      DivUnique(x - 1, Modulus(Width()), -1, Value());
    }

    /** operator~ */
    method Complement() returns (r: Uint)
      ensures fresh(r) && fresh(r.pn) && r.Width() == Width()
      ensures r.Value() == Modulus(Width()) - 1 - Value()
    {
      r := new Uint(Width());
      for i := 0 to Width()
        invariant pn[..] == old(pn[..])
        invariant forall j :: 0 <= j < i ==> r.pn[j] == BASE - 1 - pn[j]
      {
        r.pn[i] := BASE - 1 - pn[i];
      }
      ValComplement(pn[..], r.pn[..]);
    }

    /** unary operator- */
    method Negate() returns (r: Uint)
      ensures fresh(r) && fresh(r.pn) && r.Width() == Width()
      ensures r.Value() == (0 - Value()) % Modulus(Width())
    {
      hide Val, Modulus;
      r := Complement();
      r.Increment();
      ghost var m := Modulus(Width());
      ValBound(pn[..]);
      NegateMod(Value(), m);
    }

    /** operator-= */
    method SubAssign(b: Uint)
      requires b.Width() == Width()
      modifies pn
      ensures Value() == (old(Value()) - old(b.Value())) % Modulus(Width())
    {
      hide Val, Modulus;
      ghost var x: int, y: int := Value(), b.Value();
      var minus := b.Negate();
      AddAssign(minus);
      AddMod(x, 0 - y, Modulus(Width()));
    }

    /** operator*= with one limb */
    method MulSmall(b32: Word)
      modifies pn
      ensures Value() == (old(Value()) * b32) % Modulus(Width())
    {
      ghost var x := pn[..];
      var carry := 0;
      assert MulUpTo(pn[..], x, 0, b32, 0);
      hide Val, Modulus, MulUpTo;
      for i := 0 to Width()
        invariant 0 <= carry < BASE
        invariant forall j :: i <= j < Width() ==> pn[j] == x[j]
        invariant MulUpTo(pn[..i], x, i, b32, carry)
      {
        ghost var low := pn[..i];
        var n := MulAdd(b32, pn[i], carry, 0);
        pn[i] := n % BASE;
        assert pn[..][..i] == low;
        MulStep(pn[..], x, i, b32, carry, n);
        assert pn[..][..i + 1] == pn[..i + 1];
        carry := n / BASE;
      }
      assert pn[..Width()] == pn[..] && x[..Width()] == x;
      ValBound(pn[..]);
      MulDone(pn[..], x, b32, carry);
    }

    /** One row of the schoolbook product: adds pn[j] times `b`, shifted by `j` limbs, into `a`. */
    method MulRow(a: Uint, b: Uint, j: nat)
      requires a.Width() == b.Width() == Width() && j < Width() && a.pn != pn && a.pn != b.pn
      modifies a.pn
      ensures RowDone(a.pn[..], old(a.pn[..]), b.pn[..], pn[j], j)
    {
      ghost var start, y := a.pn[..], b.pn[..];
      var carry := 0;
      RowStart(start, y, pn[j], j);
      hide Row, RowDone;
      for i := 0 to Width() - j
        invariant 0 <= carry < BASE && b.pn[..] == y
        invariant Row(a.pn[..], start, y, pn[j], i, j, carry)
      {
        var n := MulAdd(pn[j], b.pn[i], carry, a.pn[i + j]);
        RowStep(a.pn[..], start, y, pn[j], i, j, carry, n);
        a.pn[i + j] := n % BASE;
        carry := n / BASE;
      }
      RowEnd(a.pn[..], start, y, pn[j], j, carry);
    }

    /** operator*= */
    method MulAssign(b: Uint)
      requires b.Width() == Width()
      modifies pn
      ensures Value() == (old(Value()) * old(b.Value())) % Modulus(Width())
    {
      var a := new Uint(Width());
      ghost var x, y := pn[..], b.pn[..];
      RowsStart(a.pn[..], x, y);
      hide Rows, RowDone;
      for j := 0 to Width()
        invariant pn[..] == x && b.pn[..] == y
        invariant Rows(a.pn[..], x, y, j)
      {
        ghost var start := a.pn[..];
        MulRow(a, b, j);
        RowsStep(a.pn[..], start, x, y, j);
      }
      RowsEnd(a.pn[..], x, y);
      label AfterRows:
      for j := 0 to Width()
        invariant forall k :: 0 <= k < j ==> pn[k] == a.pn[k]
        invariant a.pn[..] == old@AfterRows(a.pn[..])
      {
        pn[j] := a.pn[j];
      }
      assert pn[..] == a.pn[..];
    }

    method Clear()
      modifies pn
      ensures forall j :: 0 <= j < Width() ==> pn[j] == 0
    {
      for i := 0 to Width()
        invariant forall j :: 0 <= j < i ==> pn[j] == 0
      {
        pn[i] := 0;
      }
    }

    method LeftRound(a: Uint, i: nat, k: nat, s: nat)
      requires a.Width() == Width() && a.pn != pn && i < Width() && LeftUpTo(pn[..], a.pn[..], i, k, s)
      modifies pn
      ensures LeftUpTo(pn[..], a.pn[..], i + 1, k, s)
    {
      ghost var t, x := pn[..], a.pn[..];
      LeftFits(t, x, i, k, s);
      hide LeftUpTo, Or, Upper, Lower;
      if i + k + 1 < Width() && s != 0 {
        pn[i + k + 1] := Or(pn[i + k + 1], Upper(a.pn[i], s));
      }
      if i + k < Width() {
        pn[i + k] := Or(pn[i + k], Lower(a.pn[i], s));
      }
      if i + k + 1 < Width() {
        LeftWithin(t, x, i, k, s, Upper(x[i], s), t[i + k] + Lower(x[i], s));
        assert pn[..] == t[i + k + 1 := Upper(x[i], s)][i + k := t[i + k] + Lower(x[i], s)];
      } else if i + k + 1 == Width() {
        LeftTop(t, x, i, k, s, t[i + k] + Lower(x[i], s));
        assert pn[..] == t[i + k := t[i + k] + Lower(x[i], s)];
      } else {
        LeftBeyond(t, x, i, k, s);
      }
    }

    /** operator<<= */
    method ShiftLeft(shift: nat)
      modifies pn
      ensures Value() == (old(Value()) * Pow2(shift)) % Modulus(Width())
    {
      hide LeftUpTo;
      var a := new Uint.Copy(this);
      Clear();
      var k, s := shift / 32, shift % 32;
      LeftStart(pn[..], a.pn[..], k, s);
      for i := 0 to Width()
        invariant a.pn[..] == old(pn[..]) && LeftUpTo(pn[..], a.pn[..], i, k, s)
      {
        LeftRound(a, i, k, s);
      }
      LeftDone(pn[..], a.pn[..], k, s, shift);
    }

    method RightRound(a: Uint, i: nat, k: nat, s: nat)
      requires a.Width() == Width() && a.pn != pn && i < Width() && RightUpTo(pn[..], a.pn[..], i, k, s)
      modifies pn
      ensures RightUpTo(pn[..], a.pn[..], i + 1, k, s)
    {
      ghost var t, x := pn[..], a.pn[..];
      RightFits(t, x, i, k, s);
      hide RightUpTo, Or, Upper, Lower;
      if i - k - 1 >= 0 && s != 0 {
        pn[i - k - 1] := Or(pn[i - k - 1], Lower(a.pn[i], 32 - s));
      }
      if i - k >= 0 {
        pn[i - k] := Or(pn[i - k], Upper(a.pn[i], 32 - s));
      }
      if i > k {
        RightWithin(t, x, i, k, s, Upper(x[i], 32 - s), t[i - k - 1] + Lower(x[i], 32 - s));
        assert pn[..] == t[i - k - 1 := t[i - k - 1] + Lower(x[i], 32 - s)][i - k := Upper(x[i], 32 - s)];
      } else if i == k {
        RightFirst(t, x, k, s, Upper(x[k], 32 - s));
        assert pn[..] == t[0 := Upper(x[k], 32 - s)];
      } else {
        RightBelow(t, x, i, k, s);
      }
    }

    /** operator>>= */
    method ShiftRight(shift: nat)
      modifies pn
      ensures Value() == old(Value()) / Pow2(shift)
    {
      hide RightUpTo;
      var a := new Uint.Copy(this);
      Clear();
      var k, s := shift / 32, shift % 32;
      RightStart(pn[..], a.pn[..], k, s);
      for i := 0 to Width()
        invariant a.pn[..] == old(pn[..]) && RightUpTo(pn[..], a.pn[..], i, k, s)
      {
        RightRound(a, i, k, s);
      }
      RightDone(pn[..], a.pn[..], k, s, shift);
    }

    /** CompareTo */
    method CompareTo(b: Uint) returns (r: int)
      requires b.Width() == Width()
      ensures r == if Value() < b.Value() then -1 else if Value() > b.Value() then 1 else 0
    {
      var i := Width();
      while i > 0
        invariant 0 <= i <= Width() && pn[i..] == b.pn[i..]
      {
        i := i - 1;
        if pn[i] < b.pn[i] {
          ValLess(pn[..], b.pn[..], i);
          return -1;
        }
        if pn[i] > b.pn[i] {
          ValLess(b.pn[..], pn[..], i);
          return 1;
        }
        assert pn[i..] == [pn[i]] + pn[i + 1..] && b.pn[i..] == [b.pn[i]] + b.pn[i + 1..];
      }
      assert pn[..] == pn[0..] && b.pn[..] == b.pn[0..];
      return 0;
    }

    /** bits: the position of the highest bit set plus one, or zero. */
    method Bits() returns (r: nat)
      ensures r <= 32 * Width()
      ensures HasBits(Value(), r)
    {
      hide HasBits, Pow2, Val;
      var pos := Width();
      while pos > 0
        invariant 0 <= pos <= Width()
        invariant forall j :: pos <= j < Width() ==> pn[j] == 0
      {
        pos := pos - 1;
        if pn[pos] != 0 {
          var n := TopBit(pn[pos]);
          TopValue(pn[..], pos, n);
          return 32 * pos + n + 1;
        }
      }
      ValZeros(pn[..]);
      NoBits();
      return 0;
    }

    /** Sets a bit of the quotient that is still clear. */
    method SetBit(shift: nat)
      requires shift < 32 * Width() && ClearBelow(pn[..], shift + 1)
      modifies pn
      ensures ClearBelow(pn[..], shift) && Value() == old(Value()) + Pow2(shift)
    {
      hide Or, ClearBelow, Val, Pow2;
      var j, s := shift / 32, shift % 32;
      SetBitFits(pn[..], j, s);
      var w := Or(pn[j], Pow2(s));
      ValUpdate(pn[..], j, w);
      Pow2Add(s, 32 * j);
      pn[j] := w;
    }

    /** One round of the long division. */
    method DivRound(num: Uint, div: Uint, ghost n: nat, ghost d: nat, shift: nat)
      requires num.Width() == div.Width() == Width() && pn != num.pn && pn != div.pn && num.pn != div.pn
      requires shift < 32 * Width() && ClearBelow(pn[..], shift + 1)
      requires Dividing(n, d, Value(), num.Value(), div.Value(), shift)
      modifies pn, num.pn, div.pn
      ensures ClearBelow(pn[..], shift)
      ensures Dividing(n, d, Value(), num.Value(), div.Value(), shift - 1)
    {
      ghost var q, r, v := Value(), num.Value(), div.Value();
      ClearLess(pn[..], shift);
      hide Dividing, ClearBelow, Val, Modulus, Pow2;
      var c := num.CompareTo(div);
      if c >= 0 {
        ValBound(num.pn[..]);
        num.SubAssign(div);
        DivUnique(r - v, Modulus(Width()), 0, r - v);
        SetBit(shift);
      }
      div.ShiftRight(1);
      DividingStep(n, d, q, r, v, shift);
    }

    /** operator/=; `thrown` for a division by zero, which leaves zero behind. */
    method DivAssign(b: Uint) returns (thrown: bool)
      requires b.Width() == Width()
      modifies pn
      ensures thrown <==> old(b.Value()) == 0
      ensures Value() == if thrown then 0 else old(Value()) / old(b.Value())
    {
      hide Dividing, ClearBelow, HasBits, Val, Modulus, Pow2;
      var div := new Uint.Copy(b);
      var num := new Uint.Copy(this);
      ghost var n, d := num.Value(), div.Value();
      Clear();
      ValZeros(pn[..]);
      var numBits := num.Bits();
      var divBits := div.Bits();
      ZeroBits(d, divBits);
      if divBits == 0 {
        return true;
      }
      if divBits > numBits {
        SmallQuotient(n, d, numBits, divBits);
        return false;
      }
      var shift := numBits - divBits;
      div.ShiftLeft(shift);
      DivStart(n, d, numBits, divBits, div.Value(), Width());
      ClearAll(pn[..], shift + 1);
      while shift >= 0
        invariant -1 <= shift < 32 * Width() && div.Width() == num.Width() == Width()
        invariant Dividing(n, d, Value(), num.Value(), div.Value(), shift)
        invariant ClearBelow(pn[..], shift + 1)
        decreases shift
      {
        DivRound(num, div, n, d, shift);
        shift := shift - 1;
      }
      DivEnd(n, d, Value(), num.Value(), div.Value());
      return false;
    }

    /** operator= from a 64-bit number */
    method Assign64(b: nat)
      requires Width() >= 2 && b < TWO64
      modifies pn
      ensures Value() == b
    {
      pn[0] := b % BASE;
      pn[1] := b / BASE;
      for i := 2 to Width()
        invariant pn[0] == b % BASE && pn[1] == b / BASE
        invariant forall j :: 2 <= j < i ==> pn[j] == 0
      {
        pn[i] := 0;
      }
      LowValue(pn[..]);
    }

    /** EqualTo: comparison with a 64-bit number. */
    method EqualTo(b: nat) returns (r: bool)
      requires Width() >= 2 && b < TWO64
      ensures r <==> Value() == b
    {
      var i := Width();
      while i > 2
        invariant 2 <= i <= Width() && forall j :: i <= j < Width() ==> pn[j] == 0
      {
        i := i - 1;
        if pn[i] != 0 {
          HighValue(pn[..], i);
          return false;
        }
      }
      LowValue(pn[..]);
      r := pn[1] == b / BASE && pn[0] == b % BASE;
    }

    /** GetLow64 */
    method GetLow64() returns (r: nat)
      requires Width() >= 2
      ensures r == Value() % TWO64
    {
      Pow2Small();
      OrDisjoint(pn[1], pn[0], 32);
      OrSwap(pn[0], pn[1] * Pow2(32));
      r := Or(pn[0], pn[1] * Pow2(32));
      LowTwo(pn[..]);
    }
  }

  lemma ValEmpty(s: seq<Word>, t: seq<Word>, u: seq<Word>)
    ensures Val(s[..0]) == 0 && Val(t[..0]) == 0 && Val(u[..0]) == 0
  {
  }

  lemma AddStep(s: seq<Word>, x: seq<Word>, y: seq<Word>, i: nat, carry: nat, n: nat)
    requires i < |s| == |x| == |y| && n == carry + x[i] + y[i] && s[i] == n % BASE
    requires Val(s[..i]) + carry * Modulus(i) == Val(x[..i]) + Val(y[..i])
    ensures Val(s[..i + 1]) + (n / BASE) * Modulus(i + 1) == Val(x[..i + 1]) + Val(y[..i + 1])
  {
    hide Val, Modulus;
    var m := Modulus(i);
    ValStep(s, i);
    ValStep(x, i);
    ValStep(y, i);
    ModulusStep(i);
    CarryStep(n, m);
    assert n * m == carry * m + x[i] * m + y[i] * m;
  }

  lemma IncrementStep(u: Word, w: Word, m: int)
    requires w == (u + 1) % BASE
    ensures w == 0 ==> (w - u) * m + BASE * m == m
    ensures w != 0 ==> (w - u) * m == m
  {
    if w == 0 {
      assert w - u == 1 - BASE;
    } else {
      assert w - u == 1;
    }
  }

  lemma DecrementStep(u: Word, w: Word, m: int)
    requires w == (u - 1) % BASE
    ensures w == BASE - 1 ==> (w - u) * m - BASE * m == -m
    ensures w != BASE - 1 ==> (w - u) * m == -m
  {
    if u == 0 {
      assert w - u == BASE - 1;
    } else {
      assert w - u == -1;
    }
  }

  lemma IncrementLimb(s: seq<Word>, i: nat, w: Word, x: int)
    requires i < |s| && Val(s) + Modulus(i) == x + 1 && w == (s[i] + 1) % BASE
    ensures if w == 0 then Val(s[i := w]) + Modulus(i + 1) == x + 1 else Val(s[i := w]) == x + 1
  {
    hide Val, Modulus;
    ValUpdate(s, i, w);
    ModulusStep(i);
    IncrementStep(s[i], w, Modulus(i));
  }

  lemma DecrementLimb(s: seq<Word>, i: nat, w: Word, x: int)
    requires i < |s| && Val(s) - Modulus(i) == x - 1 && w == (s[i] - 1) % BASE
    ensures if w == BASE - 1 then Val(s[i := w]) - Modulus(i + 1) == x - 1 else Val(s[i := w]) == x - 1
  {
    hide Val, Modulus;
    ValUpdate(s, i, w);
    ModulusStep(i);
    DecrementStep(s[i], w, Modulus(i));
  }

  lemma ComplementStep(d: int, m: int)
    ensures (BASE - 1 - d) * m == BASE * m - m - d * m
  {
    Distribute(BASE - 1 - d, 1 + d, m);
    Distribute(1, d, m);
  }

  lemma {:induction false} ValComplement(s: seq<Word>, t: seq<Word>)
    requires |s| == |t| && forall i :: 0 <= i < |s| ==> t[i] == BASE - 1 - s[i]
    ensures Val(t) == Modulus(|s|) - 1 - Val(s)
  {
    if s != [] {
      var n := |s| - 1;
      ValComplement(s[..n], t[..n]);
      ModulusStep(n);
      ComplementStep(s[n], Modulus(n));
      hide Modulus;
    }
  }

  lemma NegateMod(v: int, m: int)
    requires 0 <= v < m
    ensures (m - 1 - v + 1) % m == (0 - v) % m
  {
    if v == 0 {
      DivUnique(m, m, 1, 0);
      DivUnique(0, m, 0, 0);
    } else {
      DivUnique(m - v, m, 0, m - v);
      DivUnique(0 - v, m, -1, m - v);
    }
  }

  lemma AddMod(x: int, y: int, m: nat)
    requires m > 0
    ensures (x + y % m) % m == (x + y) % m
  {
    var s := x + y;
    assert y == (y / m) * m + y % m;
    var q, r := (x + y % m) / m, (x + y % m) % m;
    assert s == q * m + r + (y / m) * m;
    assert s == (q + y / m) * m + r;
    DivUnique(s, m, q + y / m, r);
  }

  /** A limb product with two limbs added fits in 64 bits and carries less than a limb. */
  method MulAdd(a: Word, b: Word, c: Word, d: Word) returns (n: nat)
    ensures n == c + d + a * b && n < TWO64 && n / BASE < BASE
  {
    ProductBound(a, b);
    var product := a * b;
    n := c + d + product;
  }

  lemma ProductBound(a: Word, b: Word)
    ensures 0 <= a * b <= 0xFFFF_FFFE_0000_0001
  {
    MulBound(a, b, 0xFFFF_FFFF);
  }

  ghost predicate MulUpTo(s: seq<Word>, x: seq<Word>, i: nat, b: Word, carry: nat) {
    i <= |x| && i <= |s| && Val(s[..i]) + carry * Modulus(i) == b * Val(x[..i])
  }

  lemma MulStep(s: seq<Word>, x: seq<Word>, i: nat, b: Word, carry: nat, n: nat)
    requires i < |s| == |x| && n == carry + b * x[i] && s[i] == n % BASE && MulUpTo(s[..i], x, i, b, carry)
    ensures MulUpTo(s[..i + 1], x, i + 1, b, n / BASE)
  {
    hide Val, Modulus;
    assert s[..i][..i] == s[..i] && s[..i + 1][..i + 1] == s[..i + 1];
    var m := Modulus(i);
    ValStep(s, i);
    ValStep(x, i);
    ModulusStep(i);
    CarryStep(n, m);
    var p := x[i] * m;
    assert (b * x[i]) * m == b * p;
    assert n * m == carry * m + b * p;
    assert b * (Val(x[..i]) + p) == b * Val(x[..i]) + b * p;
  }

  lemma MulDone(s: seq<Word>, x: seq<Word>, b: Word, carry: nat)
    requires |s| == |x| && MulUpTo(s, x, |x|, b, carry)
    ensures Val(s) == (Val(x) * b) % Modulus(|x|)
  {
    hide Val, Modulus;
    assert s[..|x|] == s && x[..|x|] == x;
    ValBound(s);
    assert Val(x) * b == b * Val(x);
    DropCarry(Val(s), carry, Modulus(|x|), Val(x) * b);
  }

  // ---------------------------------------------------------------- products, row by row

  /** The first `i` limbs of a row have been added. */
  ghost predicate Row(s: seq<Word>, start: seq<Word>, y: seq<Word>, w: Word, i: nat, j: nat, carry: nat) {
    && i + j <= |s| == |start| == |y|
    && (forall k :: i + j <= k < |s| ==> s[k] == start[k])
    && Val(s) + carry * Modulus(i + j) == Val(start) + w * Val(y[..i]) * Modulus(j)
  }

  lemma RowStart(start: seq<Word>, y: seq<Word>, w: Word, j: nat)
    requires j <= |start| == |y|
    ensures Row(start, start, y, w, 0, j, 0)
  {
    assert y[..0] == [];
  }

  lemma RowStep(s: seq<Word>, start: seq<Word>, y: seq<Word>, w: Word, i: nat, j: nat, carry: nat, n: nat)
    requires i + j < |s| && Row(s, start, y, w, i, j, carry) && n == carry + s[i + j] + w * y[i]
    ensures Row(s[i + j := n % BASE], start, y, w, i + 1, j, n / BASE)
  {
    hide Val, Modulus;
    ValUpdate(s, i + j, n % BASE);
    ValStep(y, i);
    ModulusStep(i + j);
    ModulusAdd(i, j);
    RowSum(Val(s), n, s[i + j], carry, w, y[i], Val(y[..i]), Modulus(i), Modulus(j), Modulus(i + j));
  }

  lemma RowSum(v: int, n: nat, old': int, carry: int, w: int, d: int, low: int, mi: int, mj: int, m: nat)
    requires n == carry + old' + w * d && m == mi * mj
    ensures v + (n % BASE - old') * m + (n / BASE) * (BASE * m) ==
      v + carry * m + w * (low + d * mi) * mj - w * low * mj
  {
    CarryStep(n, m);
    assert (n % BASE - old') * m == (n % BASE) * m - old' * m;
    assert n * m == carry * m + old' * m + (w * d) * m;
    assert (w * d) * (mi * mj) == w * (d * mi) * mj;
    assert w * (low + d * mi) == w * low + w * (d * mi);
    assert (w * low + w * (d * mi)) * mj == w * low * mj + w * (d * mi) * mj;
  }

  /** `s` stands for `start` plus the whole row, modulo the width. */
  ghost predicate RowDone(s: seq<Word>, start: seq<Word>, y: seq<Word>, w: Word, j: nat) {
    && |s| == |start| == |y|
    && Val(s) == (Val(start) + w * Val(y) * Modulus(j)) % Modulus(|s|)
  }

  lemma RowEnd(s: seq<Word>, start: seq<Word>, y: seq<Word>, w: Word, j: nat, carry: nat)
    requires j <= |s| && Row(s, start, y, w, |s| - j, j, carry)
    ensures RowDone(s, start, y, w, j)
  {
    hide Val, Modulus;
    var i := |s| - j;
    var high := ValSplit(y, i);
    ModulusAdd(i, j);
    ValBound(s);
    RowTotal(w, Val(y[..i]), high, Modulus(i), Modulus(j), Modulus(|s|), carry);
    DropCarry(Val(s), carry + w * high, Modulus(|s|), Val(start) + w * Val(y) * Modulus(j));
  }

  lemma RowTotal(w: int, low: int, high: int, mi: int, mj: int, m: int, carry: int)
    requires m == mi * mj
    ensures w * (low + high * mi) * mj == w * low * mj + (carry + w * high) * m - carry * m
  {
    assert w * (low + high * mi) == w * low + w * high * mi;
    assert (w * low + w * high * mi) * mj == w * low * mj + w * high * mi * mj;
    assert w * high * mi * mj == (w * high) * (mi * mj);
    assert (carry + w * high) * m == carry * m + (w * high) * m;
  }

  lemma {:induction false} ValSplit(s: seq<Word>, i: nat) returns (high: nat)
    requires i <= |s|
    ensures Val(s) == Val(s[..i]) + high * Modulus(i)
  {
    if i == |s| {
      assert s[..i] == s;
      high := 0;
    } else {
      var n := |s| - 1;
      var h := ValSplit(s[..n], i);
      assert s[..n][..i] == s[..i];
      assert s[..n + 1] == s;
      ValStep(s, n);
      hide Val, Modulus;
      ModulusAdd(i, n - i);
      var mi, mj, w := Modulus(i), Modulus(n - i), s[n];
      SplitSum(h, w, mi, mj);
      high := h + w * mj;
    }
  }

  lemma SplitSum(h: int, w: int, mi: int, mj: int)
    ensures (h + w * mj) * mi == h * mi + w * (mi * mj)
  {
    assert (h + w * mj) * mi == h * mi + w * mj * mi;
    assert w * mj * mi == w * (mj * mi);
  }

  /** The sum of the first `j` rows, modulo the width. */
  ghost predicate Rows(s: seq<Word>, x: seq<Word>, y: seq<Word>, j: nat) {
    && j <= |x| == |y| == |s|
    && Val(s) == (Val(x[..j]) * Val(y)) % Modulus(|s|)
  }

  lemma RowsStart(s: seq<Word>, x: seq<Word>, y: seq<Word>)
    requires |x| == |y| == |s| && Val(s) == 0
    ensures Rows(s, x, y, 0)
  {
    hide Modulus;
    assert x[..0] == [];
    DivUnique(0, Modulus(|s|), 0, 0);
  }

  lemma RowsStep(s: seq<Word>, start: seq<Word>, x: seq<Word>, y: seq<Word>, j: nat)
    requires j < |x| && Rows(start, x, y, j) && RowDone(s, start, y, x[j], j)
    ensures Rows(s, x, y, j + 1)
  {
    hide Val, Modulus;
    ValStep(x, j);
    var p, w, v, u := Modulus(j), x[j], Val(y), Val(x[..j]);
    assert (u + w * p) * v == u * v + w * v * p by {
      assert (u + w * p) * v == u * v + w * p * v;
      assert w * p * v == w * v * p;
    }
    AddMod(w * v * p, u * v, Modulus(|s|));
  }

  lemma RowsEnd(s: seq<Word>, x: seq<Word>, y: seq<Word>)
    requires |s| == |x| && Rows(s, x, y, |x|)
    ensures Val(s) == (Val(x) * Val(y)) % Modulus(|s|)
  {
    assert x[..|x|] == x;
  }

  // ---------------------------------------------------------------- shifts

  /** The limbs a round of the left shift touches are free for what it puts there. */
  lemma LeftFits(t: seq<Word>, x: seq<Word>, i: nat, k: nat, s: nat)
    requires i < |x| && LeftUpTo(t, x, i, k, s)
    ensures 0 <= Upper(x[i], s) < BASE && (s == 0 ==> Upper(x[i], s) == 0)
    ensures i + k + 1 < |t| ==> t[i + k + 1] == 0 && Or(t[i + k + 1], Upper(x[i], s)) == Upper(x[i], s)
    ensures i + k < |t| ==> Or(t[i + k], Lower(x[i], s)) == t[i + k] + Lower(x[i], s) < BASE
  {
    hide Val, Upper, Lower, Or, Pow2;
    SplitWord(x[i], s);
    Pow2Small();
    Pow2Mono(s, 32);
    if i + k + 1 < |t| {
      JoinZero(Upper(x[i], s));
    }
    if i + k < |t| {
      JoinLower(x[i], s, t[i + k]);
    }
  }

  lemma LeftDone(t: seq<Word>, x: seq<Word>, k: nat, s: nat, shift: nat)
    requires LeftUpTo(t, x, |x|, k, s) && shift == 32 * k + s
    ensures Val(t) == (Val(x) * Pow2(shift)) % Modulus(|t|)
  {
    hide Val, Modulus, Pow2;
    assert x[..|x|] == x;
  }

  lemma RightFits(t: seq<Word>, x: seq<Word>, i: nat, k: nat, s: nat)
    requires i < |x| && RightUpTo(t, x, i, k, s)
    ensures 0 <= Upper(x[i], 32 - s) < BASE && (s == 0 ==> Lower(x[i], 32 - s) == 0)
    ensures i - k >= 0 ==> t[i - k] == 0 && Or(t[i - k], Upper(x[i], 32 - s)) == Upper(x[i], 32 - s)
    ensures i - k - 1 >= 0 ==> Or(t[i - k - 1], Lower(x[i], 32 - s)) == t[i - k - 1] + Lower(x[i], 32 - s) < BASE
  {
    hide Val, Upper, Lower, Or, Pow2;
    SplitWord(x[i], 32 - s);
    Pow2Small();
    Pow2Mono(32 - s, 32);
    if i - k >= 0 {
      JoinZero(Upper(x[i], 32 - s));
    }
    if i - k - 1 >= 0 {
      JoinLower(x[i], 32 - s, t[i - k - 1]);
    }
  }

  lemma RightDone(t: seq<Word>, x: seq<Word>, k: nat, s: nat, shift: nat)
    requires RightUpTo(t, x, |x|, k, s) && shift == 32 * k + s
    ensures Val(t) == Val(x) / Pow2(shift)
  {
    hide Val, Pow2;
    assert x[..|x|] == x;
  }

  // ---------------------------------------------------------------- bit length

  /** The number has exactly `r` significant bits. */
  ghost predicate HasBits(v: nat, r: nat) {
    if r == 0 then v == 0 else Pow2(r - 1) <= v < Pow2(r)
  }

  lemma ZeroBits(v: nat, r: nat)
    requires HasBits(v, r)
    ensures r == 0 <==> v == 0
  {
  }

  lemma NoBits()
    ensures HasBits(0, 0)
  {
  }

  /** In a number below 2^(n+1), bit n is set exactly if the number reaches 2^n. */
  lemma BitTest(w: nat, n: nat)
    requires w < Pow2(n + 1)
    ensures w / Pow2(n) % 2 == 1 <==> w >= Pow2(n)
  {
    var p := Pow2(n);
    assert Pow2(n + 1) == 2 * p;
    hide Pow2;
    if w >= p {
      DivUnique(w, p, 1, w - p);
    } else {
      DivUnique(w, p, 0, w);
    }
  }

  /** The highest bit set of a limb. */
  method TopBit(w: Word) returns (n: nat)
    requires w != 0
    ensures n < 32 && HasBits(w, n + 1)
  {
    Pow2Small();
    n := 31;
    while n > 0
      invariant n < 32 && w < Pow2(n + 1)
    {
      BitTest(w, n);
      if w / Pow2(n) % 2 == 1 {
        return;
      }
      n := n - 1;
    }
  }

  lemma {:induction false} ValTopZero(s: seq<Word>, i: nat)
    requires i <= |s| && forall j :: i <= j < |s| ==> s[j] == 0
    ensures Val(s) == Val(s[..i])
  {
    if i == |s| {
      assert s[..i] == s;
    } else {
      var n := |s| - 1;
      ValTopZero(s[..n], i);
      assert s[..n][..i] == s[..i];
    }
  }

  /** The top limb's highest bit is the number's. */
  lemma TopValue(s: seq<Word>, pos: nat, n: nat)
    requires pos < |s| && n < 32 && HasBits(s[pos], n + 1) && forall j :: pos < j < |s| ==> s[j] == 0
    ensures HasBits(Val(s), 32 * pos + n + 1)
  {
    ValTopZero(s, pos + 1);
    ValStep(s, pos);
    ValBound(s[..pos]);
    hide Val, HasBits;
    TopCore(s[pos], n, pos, Val(s[..pos]));
  }

  lemma TopCore(w: Word, n: nat, pos: nat, low: nat)
    requires HasBits(w, n + 1) && low < Modulus(pos)
    ensures HasBits(low + w * Modulus(pos), 32 * pos + n + 1)
  {
    Pow2Add(n, 32 * pos);
    Pow2Add(n + 1, 32 * pos);
    hide Pow2;
    TopBounds(w, Modulus(pos), low, Pow2(n), Pow2(n + 1));
  }

  lemma TopBounds(w: int, m: int, low: int, a: int, b: int)
    requires a <= w < b && 0 <= low < m
    ensures a * m <= low + w * m < b * m
  {
    MulMono(a, w, m);
    MulMono(w + 1, b, m);
    Distribute(w, 1, m);
  }

  // ---------------------------------------------------------------- quotients

  /** The state of a long division: what remains is below twice the shifted divisor. */
  ghost predicate Dividing(n: nat, d: nat, q: nat, r: nat, v: nat, shift: int) {
    && shift >= -1 && d > 0
    && n == q * d + r
    && (shift >= 0 ==> v == d * Pow2(shift))
    && r < d * Pow2(shift + 1)
  }

  lemma DividingStep(n: nat, d: nat, q: nat, r: nat, v: nat, shift: nat)
    requires Dividing(n, d, q, r, v, shift)
    ensures r >= v ==> Dividing(n, d, q + Pow2(shift), r - v, v / Pow2(1), shift - 1)
    ensures r < v ==> Dividing(n, d, q, r, v / Pow2(1), shift - 1)
  {
    assert Pow2(1) == 2;
    var p := Pow2(shift);
    assert Pow2(shift + 1) == 2 * p;
    Distribute(q, p, d);
    if shift > 0 {
      var h := Pow2(shift - 1);
      assert v == 2 * (d * h) by { Assoc(d, h, 2); }
    }
    assert d * (2 * p) == 2 * (d * p) by { Assoc(d, p, 2); }
  }

  lemma DivEnd(n: nat, d: nat, q: nat, r: nat, v: nat)
    requires Dividing(n, d, q, r, v, -1)
    ensures q == n / d
  {
    DivUnique(n, d, q, r);
  }

  lemma SmallQuotient(n: nat, d: nat, numBits: nat, divBits: nat)
    requires HasBits(n, numBits) && HasBits(d, divBits) && numBits < divBits
    ensures d > 0 && n / d == 0
  {
    if numBits > 0 {
      Pow2Mono(numBits, divBits - 1);
    }
    DivUnique(n, d, 0, n);
  }

  /** Aligning the divisor with the number loses nothing and leaves less than twice it. */
  lemma DivStart(n: nat, d: nat, numBits: nat, divBits: nat, v: nat, width: nat)
    requires HasBits(n, numBits) && HasBits(d, divBits) && 0 < divBits <= numBits <= 32 * width
    requires v == (d * Pow2(numBits - divBits)) % Modulus(width)
    ensures Dividing(n, d, 0, n, v, numBits - divBits)
  {
    var shift := numBits - divBits;
    Pow2Add(divBits, shift);
    Pow2Add(divBits - 1, shift + 1);
    assert divBits - 1 + (shift + 1) == numBits && divBits + shift == numBits;
    Pow2Mono(numBits, 32 * width);
    hide Pow2;
    MulMono(d + 1, Pow2(divBits), Pow2(shift));
    Distribute(d, 1, Pow2(shift));
    MulMono(Pow2(divBits - 1), d, Pow2(shift + 1));
    MulMono(0, d, Pow2(shift));
    var v' := d * Pow2(shift);
    assert 0 <= v' < Pow2(32 * width);
    DivUnique(v', Pow2(32 * width), 0, v');
  }

  /** No bit below position `n` is set. */
  ghost predicate ClearBelow(s: seq<Word>, n: nat) {
    forall j :: 0 <= j < |s| ==> LimbClear(s[j], j, n)
  }

  ghost predicate LimbClear(w: Word, j: nat, n: nat) {
    && (j < n / 32 ==> w == 0)
    && (j == n / 32 ==> w % Pow2(n % 32) == 0)
  }

  lemma ClearAll(s: seq<Word>, n: nat)
    requires forall j :: 0 <= j < |s| ==> s[j] == 0
    ensures ClearBelow(s, n)
  {
    hide Pow2;
  }

  lemma ClearLess(s: seq<Word>, n: nat)
    requires ClearBelow(s, n + 1)
    ensures ClearBelow(s, n)
  {
    forall j | 0 <= j < |s|
      ensures LimbClear(s[j], j, n)
    {
      assert LimbClear(s[j], j, n + 1);
      LimbLess(s[j], j, n);
    }
  }

  lemma LimbLess(w: Word, j: nat, n: nat)
    requires LimbClear(w, j, n + 1)
    ensures LimbClear(w, j, n)
  {
    if j == n / 32 && n % 32 < 31 {
      var s := n % 32;
      assert (n + 1) / 32 == j && (n + 1) % 32 == s + 1;
      Halve(w, Pow2(s));
      assert Pow2(s + 1) == 2 * Pow2(s);
    }
  }

  lemma Halve(w: nat, p: nat)
    requires p > 0 && w % (2 * p) == 0
    ensures w % p == 0
  {
    var h := w / (2 * p);
    assert w == h * (2 * p) == (2 * h) * p;
    DivUnique(w, p, 2 * h, 0);
  }

  /** A clear bit is set by Or exactly as by adding it, without leaving the limb. */
  lemma SetBitFits(t: seq<Word>, j: nat, s: nat)
    requires j < |t| && s < 32 && ClearBelow(t, 32 * j + s + 1)
    ensures 0 <= Or(t[j], Pow2(s)) == t[j] + Pow2(s) < BASE
    ensures ClearBelow(t[j := t[j] + Pow2(s)], 32 * j + s)
  {
    hide Or, Pow2, LimbClear;
    assert LimbClear(t[j], j, 32 * j + s + 1);
    SetLimbClear(t[j], j, s);
    SetBitClear(t, j, 32 * j + s, t[j] + Pow2(s));
  }

  lemma SetLimbClear(w: Word, j: nat, s: nat)
    requires s < 32 && LimbClear(w, j, 32 * j + s + 1)
    ensures 0 <= Or(w, Pow2(s)) == w + Pow2(s) < BASE && LimbClear(w + Pow2(s), j, 32 * j + s)
  {
    hide Or, Pow2;
    SetLimb(w, s);
  }

  lemma SetBitClear(t: seq<Word>, j: nat, n: nat, w: Word)
    requires j < |t| && ClearBelow(t, n + 1) && LimbClear(w, j, n)
    ensures ClearBelow(t[j := w], n)
  {
    hide LimbClear;
    var u := t[j := w];
    forall i | 0 <= i < |u|
      ensures LimbClear(u[i], i, n)
    {
      assert LimbClear(t[i], i, n + 1);
      if i != j {
        LimbLess(t[i], i, n);
      }
    }
  }

  lemma Multiple(w: int, p: int)
    requires p > 0 && w % p == 0
    ensures w == (w / p) * p
  {
  }

  lemma SetLimb(w: Word, s: nat)
    requires s < 32 && (if s < 31 then w % Pow2(s + 1) == 0 else w == 0)
    ensures Or(w, Pow2(s)) == w + Pow2(s) < BASE && (w + Pow2(s)) % Pow2(s) == 0
  {
    hide Or, Pow2;
    if s < 31 {
      Multiple(w, Pow2(s + 1));
      SetMultiple(w, w / Pow2(s + 1), s);
    } else {
      SetMultiple(w, 0, s);
    }
  }

  lemma SetMultiple(w: Word, h: nat, s: nat)
    requires s < 32 && w == h * Pow2(s + 1)
    ensures Or(w, Pow2(s)) == w + Pow2(s) < BASE && (w + Pow2(s)) % Pow2(s) == 0
  {
    hide Or;
    var p := Pow2(s);
    assert Pow2(s + 1) == 2 * p;
    Pow2Small();
    Pow2Add(31 - s, s + 1);
    hide Pow2;
    OrDisjoint(h, p, s + 1);
    RoomAbove(w, h, Pow2(31 - s), Pow2(s + 1));
    OddMultiple(w, h, p);
  }

  lemma RoomAbove(w: int, h: int, d: int, p: int)
    requires w == h * p && w < d * p && p > 0
    ensures w + p <= d * p
  {
    if h >= d {
      MulMono(d, h, p);
    } else {
      MulMono(h + 1, d, p);
      Distribute(h, 1, p);
    }
  }

  lemma OddMultiple(w: int, h: int, p: int)
    requires w == h * (2 * p) && p > 0
    ensures (w + p) % p == 0
  {
    Assoc(h, 2, p);
    Distribute(h * 2, 1, p);
    DivUnique(w + p, p, h * 2 + 1, 0);
  }

  // ---------------------------------------------------------------- 64-bit numbers

  lemma ModulusSmall()
    ensures Modulus(0) == 1 && Modulus(1) == BASE && Modulus(2) == TWO64
  {
    ModulusStep(0);
    ModulusStep(1);
  }

  lemma TwoLimbs(s: seq<Word>)
    requires |s| >= 2
    ensures Val(s[..2]) == s[0] + s[1] * BASE
  {
    ModulusSmall();
    assert s[..0] == [];
    ValStep(s, 0);
    ValStep(s, 1);
  }

  lemma LowValue(s: seq<Word>)
    requires |s| >= 2 && forall j :: 2 <= j < |s| ==> s[j] == 0
    ensures Val(s) == s[0] + s[1] * BASE
  {
    ValTopZero(s, 2);
    TwoLimbs(s);
  }

  lemma HighValue(s: seq<Word>, i: nat)
    requires 2 <= i < |s| && s[i] != 0
    ensures Val(s) >= TWO64
  {
    var high := ValSplit(s, i + 1);
    ValStep(s, i);
    ModulusSmall();
    Pow2Mono(64, 32 * i);
    hide Val, Modulus;
    MulMono(0, high, Modulus(i + 1));
    MulMono(1, s[i], Modulus(i));
  }

  lemma LowTwo(s: seq<Word>)
    requires |s| >= 2
    ensures Val(s) % TWO64 == s[0] + s[1] * BASE
  {
    var high := ValSplit(s, 2);
    TwoLimbs(s);
    ModulusSmall();
    hide Val, Modulus;
    DivUnique(Val(s), TWO64, high, s[0] + s[1] * BASE);
  }
}
