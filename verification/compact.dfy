/** The compact "nBits" format of src/arith_uint256.cpp and the work of a target, GetBlockProof of src/chain.cpp. */
module Compact {
  import opened Numbers
  import opened Limbs
  import opened ArithUint

  const WIDTH := 8

  function Mantissa(c: Word): nat { c % 0x80_0000 }
  function Exponent(c: Word): nat { c / 0x100_0000 }
  predicate Signed(c: Word) { c / 0x80_0000 % 2 == 1 }

  /** `x` shifted right by `n` bits. */
  function Shifted(x: nat, n: nat): nat {
    QuotNonnegative(x, Pow2(n));
    x / Pow2(n)
  }

  /** The mantissa after the shift for small exponents. */
  function Shrunk(c: Word): nat {
    if Exponent(c) <= 3 then Shifted(Mantissa(c), 8 * (3 - Exponent(c))) else Mantissa(c)
  }

  /** The 256-bit number a compact value stands for. */
  function Decoded(c: Word): nat {
    if Exponent(c) <= 3 then Shrunk(c) else Shrunk(c) * Pow2(8 * (Exponent(c) - 3)) % Pow2(256)
  }

  predicate Negative(c: Word) {
    Shrunk(c) != 0 && Signed(c)
  }

  /** The mantissa shifted by its exponent does not fit in 256 bits. */
  predicate Overflows(c: Word) {
    Exponent(c) > 3 && Mantissa(c) * Pow2(8 * (Exponent(c) - 3)) >= Pow2(256)
  }

  // ---------------------------------------------------------------- encoding

  /** The number of bytes needed for a number. */
  function ByteLength(x: nat): nat {
    if x == 0 then 0 else 1 + ByteLength(x / 256)
  }

  ghost predicate HasBytes(x: nat, s: nat) {
    if s == 0 then x == 0 else Pow2(8 * (s - 1)) <= x < Pow2(8 * s)
  }

  lemma {:induction false} ByteLengthFits(x: nat)
    ensures HasBytes(x, ByteLength(x))
  {
    if x != 0 {
      ByteLengthFits(x / 256);
      var s := ByteLength(x / 256);
      Pow2Small();
      Pow2Add(8, 8 * s);
      if s > 0 {
        Pow2Add(8, 8 * (s - 1));
      }
      hide Pow2;
    }
  }

  lemma BytesUnique(x: nat, s: nat, r: nat)
    requires HasBytes(x, s) && HasBytes(x, r)
    ensures s == r
  {
    if s < r {
      Pow2Mono(8 * s, 8 * (r - 1));
    } else if r < s {
      Pow2Mono(8 * r, 8 * (s - 1));
    }
  }

  datatype Normal = Normal(mantissa: nat, size: nat)

  /** The three leading bytes and the number of bytes, moved over by one byte if the sign bit would be hit. */
  function Normalized(x: nat): Normal {
    var s := ByteLength(x);
    var word := if s <= 3 then x * Pow2(8 * (3 - s)) else x / Pow2(8 * (s - 3));
    if word >= 0x80_0000 then Normal(word / 256, s + 1) else Normal(word, s)
  }

  function Encoded(x: nat): nat {
    Normalized(x).mantissa + Normalized(x).size * 0x100_0000
  }

  lemma DivDiv(x: nat, p: nat, q: nat)
    requires p > 0 && q > 0
    ensures p * q > 0 && x / p / q == x / (p * q)
  {
    var a, r := x / p, x % p;
    var b, s := a / q, a % q;
    assert x == a * p + r && a == b * q + s;
    Distribute(b * q, s, p);
    Assoc(b, q, p);
    MulMono(s + 1, q, p);
    Distribute(s, 1, p);
    MulMono(0, s, p);
    MulMono(1, q, p);
    assert q * p == p * q;
    DivUnique(x, p * q, b, s * p + r);
  }

  lemma DivExact(x: int, p: int)
    requires p > 0
    ensures x * p / p == x
  {
    DivUnique(x * p, p, x, 0);
  }

  lemma DivBounds(x: nat, p: nat, lo: nat, hi: nat)
    requires p > 0 && lo * p <= x < hi * p
    ensures lo <= x / p < hi
  {
    var q, r := x / p, x % p;
    assert x == q * p + r;
    if q < lo {
      MulMono(q + 1, lo, p);
      Distribute(q, 1, p);
    }
    if q >= hi {
      MulMono(hi, q, p);
    }
  }

  /** The leading three bytes, before the sign bit is looked at. */
  lemma WordBounds(x: nat, s: nat)
    requires HasBytes(x, s) && s > 3
    ensures 0x1_0000 <= x / Pow2(8 * (s - 3)) < 0x100_0000
  {
    Pow2Small();
    Pow2Add(16, 8 * (s - 3));
    Pow2Add(24, 8 * (s - 3));
    hide Pow2;
    DivBounds(x, Pow2(8 * (s - 3)), 0x1_0000, 0x100_0000);
  }

  lemma SmallBounds(x: nat, s: nat)
    requires HasBytes(x, s) && s <= 3
    ensures 0 <= x * Pow2(8 * (3 - s)) < 0x100_0000
  {
    Pow2Small();
    if s == 0 {
      assert x * Pow2(24) == 0;
    } else {
      Pow2Add(8 * s, 8 * (3 - s));
      hide Pow2;
      var p := Pow2(8 * (3 - s));
      MulMono(x + 1, Pow2(8 * s), p);
      Distribute(x, 1, p);
      MulMono(0, x, p);
    }
  }

  /** What the encoding keeps of a number: all of it up to three bytes, and at least 15 leading bits beyond. */
  ghost predicate Keeps(x: nat, n: Normal) {
    && n.mantissa < 0x80_0000 && HasSize(x, n.size)
    && if n.size <= 3 then n.mantissa == x * Pow2(8 * (3 - n.size))
       else n.mantissa == x / Pow2(8 * (n.size - 3)) && n.mantissa >= 0x8000
  }

  /** The size is the number of bytes or one more. */
  ghost predicate HasSize(x: nat, size: nat) {
    HasBytes(x, size) || (size > 0 && HasBytes(x, size - 1))
  }

  lemma NormalizedKeeps(x: nat)
    ensures Keeps(x, Normalized(x))
  {
    ByteLengthFits(x);
    Pow2Small();
    var s := ByteLength(x);
    hide ByteLength, HasBytes;
    if s > 3 {
      WordBounds(x, s);
      MoveOver(x, s);
    } else {
      SmallBounds(x, s);
      if s < 3 {
        MoveSmall(x, s);
      } else {
        assert x * Pow2(0) == x;
      }
    }
  }

  lemma MoveOver(x: nat, s: nat)
    requires s >= 3
    ensures x / Pow2(8 * (s - 3)) / 256 == x / Pow2(8 * (s + 1 - 3))
  {
    Pow2Small();
    Pow2Add(8 * (s - 3), 8);
    hide Pow2;
    DivDiv(x, Pow2(8 * (s - 3)), 256);
  }

  lemma MoveSmall(x: nat, s: nat)
    requires s < 3
    ensures x * Pow2(8 * (3 - s)) / 256 == x * Pow2(8 * (3 - (s + 1)))
  {
    Pow2Small();
    Pow2Add(8 * (3 - (s + 1)), 8);
    hide Pow2;
    Assoc(x, Pow2(8 * (3 - (s + 1))), 256);
    DivExact(x * Pow2(8 * (3 - (s + 1))), 256);
  }

  // ---------------------------------------------------------------- round trips

  /** The exponent and mantissa of an encoding are the ones it was built from. */
  lemma EncodedParts(x: nat)
    requires x < Pow2(256)
    ensures Encoded(x) < BASE && Normalized(x).size <= 33
    ensures Mantissa(Encoded(x)) == Normalized(x).mantissa && Exponent(Encoded(x)) == Normalized(x).size
    ensures !Signed(Encoded(x))
  {
    NormalizedKeeps(x);
    var n := Normalized(x);
    assert n.mantissa < 0x80_0000 && HasSize(x, n.size);
    hide Normalized, Keeps, HasSize, Pow2;
    SizeBound(x, n.size);
    Parts(n.mantissa, n.size);
  }

  lemma Parts(m: nat, s: nat)
    requires m < 0x80_0000 && s < 0x100
    ensures
      var c := m + s * 0x100_0000;
      c < BASE && c % 0x80_0000 == m && c / 0x100_0000 == s && c / 0x80_0000 % 2 == 0
  {
  }

  lemma SizeBound(x: nat, size: nat)
    requires x < Pow2(256) && HasSize(x, size)
    ensures size <= 33
  {
    if size > 33 {
      Pow2Mono(256, 8 * (size - 2));
      Pow2Mono(256, 8 * (size - 1));
    }
  }

  /** `x` rounded down to a multiple of `p`. */
  function Floored(x: nat, p: nat): int
    requires p > 0
  {
    x / p * p
  }

  /** What the encoding keeps: the number with the bits beyond the mantissa cleared. */
  function Kept(x: nat): int {
    var size := Normalized(x).size;
    if size <= 3 then x else Floored(x, Pow2(8 * (size - 3)))
  }

  lemma Loss(x: nat, p: nat)
    requires p > 0
    ensures 0 <= Floored(x, p) <= x < Floored(x, p) + p
    ensures x / p >= 0x8000 ==> (x - Floored(x, p)) * 0x8000 < x
  {
    var q := x / p;
    if q >= 0x8000 {
      MulMono(0x8000, q, p);
    }
  }

  lemma KeptClose(x: nat)
    requires x > 0
    ensures 0 <= Kept(x) <= x && (x - Kept(x)) * 0x8000 < x
  {
    NormalizedKeeps(x);
    var size := Normalized(x).size;
    hide Normalized, Floored, Pow2;
    if size > 3 {
      Loss(x, Pow2(8 * (size - 3)));
    }
  }

  lemma KeptStable(x: nat)
    ensures 0 <= Kept(x) && Normalized(Kept(x)) == Normalized(x)
  {
    NormalizedKeeps(x);
    var n := Normalized(x);
    hide Normalized, Pow2;
    if n.size > 3 {
      Loss(x, Pow2(8 * (n.size - 3)));
      Stable(n, Kept(x));
    }
  }

  lemma DecodeFits(c: Word, y: nat)
    requires Exponent(c) > 3 && y == Mantissa(c) * Pow2(8 * (Exponent(c) - 3)) && y < Pow2(256)
    ensures Decoded(c) == y && !Overflows(c)
  {
    hide Pow2;
    DivUnique(y, Pow2(256), 0, y);
  }

  lemma DecodeSmall(c: Word, x: nat)
    requires Exponent(c) <= 3 && Mantissa(c) == x * Pow2(8 * (3 - Exponent(c)))
    ensures Decoded(c) == x && !Overflows(c)
  {
    DivExact(x, Pow2(8 * (3 - Exponent(c))));
  }

  lemma KeptSmall(x: nat)
    requires Normalized(x).size <= 3
    ensures Kept(x) == x && Normalized(x).mantissa == x * Pow2(8 * (3 - Normalized(x).size))
  {
    NormalizedKeeps(x);
  }

  lemma KeptLarge(x: nat)
    requires Normalized(x).size > 3
    ensures 0 <= Kept(x) <= x && Kept(x) == Normalized(x).mantissa * Pow2(8 * (Normalized(x).size - 3))
  {
    NormalizedKeeps(x);
    hide Normalized, Pow2;
    Loss(x, Pow2(8 * (Normalized(x).size - 3)));
  }

  /** Decoding an encoding gives back what it kept, with neither flag raised. */
  lemma DecodedEncoded(x: nat)
    requires x < Pow2(256)
    ensures Encoded(x) < BASE && Decoded(Encoded(x)) == Kept(x)
    ensures !Overflows(Encoded(x)) && !Negative(Encoded(x))
  {
    hide Normalized, Encoded, Decoded, Overflows, Mantissa, Exponent, Pow2, Kept, Keeps, Signed, Shrunk;
    EncodedParts(x);
    if Normalized(x).size <= 3 {
      KeptSmall(x);
      DecodeSmall(Encoded(x), x);
    } else {
      KeptLarge(x);
      DecodeFits(Encoded(x), Kept(x));
    }
  }

  /** What a compact value says: eight bits of exponent, a sign bit, 23 bits of mantissa m, and the number is
      m * 256^(exponent - 3), cut off below one and beyond 256 bits. */
  lemma CompactMeans(c: Word, m: nat, e: nat)
    requires e < 0x100 && m < 0x80_0000 && (c == e * 0x100_0000 + m || c == e * 0x100_0000 + 0x80_0000 + m)
    ensures e <= 3 ==> Decoded(c) == m / Pow2(8 * (3 - e)) && !Overflows(c)
    ensures e > 3 ==> Decoded(c) == m * Pow2(8 * (e - 3)) % Pow2(256)
    ensures Overflows(c) <==> e > 3 && m * Pow2(8 * (e - 3)) >= Pow2(256)
    ensures Negative(c) <==> c == e * 0x100_0000 + 0x80_0000 + m && (e > 3 || m / Pow2(8 * (3 - e)) != 0) && m != 0
  {
    PartsOf(c, m, e);
    if e <= 3 {
      NothingShifted(8 * (3 - e));
    }
    hide Pow2;
  }

  lemma PartsOf(c: Word, m: nat, e: nat)
    requires e < 0x100 && m < 0x80_0000 && (c == e * 0x100_0000 + m || c == e * 0x100_0000 + 0x80_0000 + m)
    ensures Mantissa(c) == m && Exponent(c) == e && (Signed(c) <==> c == e * 0x100_0000 + 0x80_0000 + m)
  {
  }

  lemma NothingShifted(n: nat)
    ensures 0 / Pow2(n) == 0
  {
    DivUnique(0, Pow2(n), 0, 0);
  }

  /** The sign bit changes the sign of whatever is not zero, and nothing else. */
  lemma SignBit(c: Word)
    requires c / 0x80_0000 % 2 == 0
    ensures !Negative(c) && c + 0x80_0000 < BASE
    ensures Decoded(c + 0x80_0000) == Decoded(c) && (Overflows(c + 0x80_0000) <==> Overflows(c))
    ensures Negative(c + 0x80_0000) <==> Shrunk(c) != 0
  {
    var m, e := c % 0x80_0000, c / 0x100_0000;
    PartsOf(c, m, e);
    PartsOf(c + 0x80_0000, m, e);
    hide Mantissa, Exponent, Signed, Pow2;
  }

  /** Encoding loses less than one part in 2^15, never rounds up, and is stable from then on. */
  lemma RoundTrip(x: nat)
    requires 0 < x < Pow2(256)
    ensures Encoded(x) < BASE
    ensures
      var y := Decoded(Encoded(x));
      y <= x && (x - y) * Pow2(15) < x
    ensures Encoded(Decoded(Encoded(x))) == Encoded(x)
  {
    Pow2Small();
    DecodedEncoded(x);
    KeptClose(x);
    KeptStable(x);
    hide Normalized, Pow2, Decoded, Overflows, Negative, Kept;
  }

  /** A number that is a mantissa followed by zero bytes is encoded with that mantissa. */
  lemma Stable(n: Normal, y: nat)
    requires n.size > 3 && 0x8000 <= n.mantissa < 0x80_0000 && y == n.mantissa * Pow2(8 * (n.size - 3))
    ensures Normalized(y) == n
  {
    var e, m, p := n.size, n.mantissa, Pow2(8 * (n.size - 3));
    ByteLengthFits(y);
    Pow2Small();
    if m >= 0x1_0000 {
      assert HasBytes(y, e) by { StableBytes(m, e, e, 16); }
      BytesUnique(y, ByteLength(y), e);
      DivExact(m, p);
    } else {
      assert HasBytes(y, e - 1) by { StableBytes(m, e, e - 1, 8); }
      BytesUnique(y, ByteLength(y), e - 1);
      Pow2Add(8, 8 * (e - 4));
      hide Pow2;
      var q := Pow2(8 * (e - 4));
      Assoc(m, 256, q);
      DivExact(m * 256, q);
    }
  }

  /** A mantissa of between `k` and `k + 8` bits followed by the zero bytes of exponent `e` has `s` bytes. */
  lemma StableBytes(m: nat, e: nat, s: nat, k: nat)
    requires e > 3 && Pow2(k) <= m < Pow2(k + 8) && 8 * (s - 1) == k + 8 * (e - 3)
    ensures HasBytes(m * Pow2(8 * (e - 3)), s)
  {
    var p := Pow2(8 * (e - 3));
    Pow2Add(k, 8 * (e - 3));
    Pow2Add(k + 8, 8 * (e - 3));
    assert k + 8 + 8 * (e - 3) == 8 * s;
    hide Pow2;
    MulMono(Pow2(k), m, p);
    MulMono(m + 1, Pow2(k + 8), p);
    Distribute(m, 1, p);
  }

  /** The flag's three tests decide exactly whether the shifted mantissa leaves 256 bits. */
  lemma OverflowTest(c: Word)
    ensures Overflows(c) <==>
      Shrunk(c) != 0 && (Exponent(c) > 34 || (Shrunk(c) > 0xFF && Exponent(c) > 33) ||
          (Shrunk(c) > 0xFFFF && Exponent(c) > 32))
  {
    if Exponent(c) > 3 {
      OverflowCore(Mantissa(c), Exponent(c));
    }
  }

  lemma OverflowCore(m: nat, e: nat)
    requires e > 3 && m < 0x80_0000
    ensures m * Pow2(8 * (e - 3)) >= Pow2(256) <==> m != 0 && (e > 34 || (m > 0xFF && e > 33) || (m > 0xFFFF && e > 32))
  {
    hide Pow2;
    var p := Pow2(8 * (e - 3));
    Pow2Small();
    if e > 34 {
      Pow2Mono(256, 8 * (e - 3));
      MulMono(if m == 0 then 0 else 1, m, p);
    } else if e == 34 {
      Pow2Add(8, 248);
      Compare(m, 0x100, p);
    } else if e == 33 {
      Pow2Add(16, 240);
      Compare(m, 0x1_0000, p);
    } else {
      Pow2Add(24, 232);
      Pow2Mono(8 * (e - 3), 232);
      MulMono(m + 1, 0x100_0000, p);
      Distribute(m, 1, p);
    }
  }

  lemma Compare(m: nat, k: nat, p: nat)
    requires p > 0
    ensures m * p >= k * p <==> m >= k
  {
    if m >= k {
      MulMono(k, m, p);
    } else {
      MulMono(m + 1, k, p);
      Distribute(m, 1, p);
    }
  }

  // ---------------------------------------------------------------- as it runs

  /** SetCompact */
  method SetCompact(u: Uint, c: Word) returns (negative: bool, overflow: bool)
    requires u.Width() == WIDTH
    modifies u.pn
    ensures u.Value() == Decoded(c)
    ensures negative <==> Negative(c)
    ensures overflow <==> Overflows(c)
  {
    OverflowTest(c);
    hide Val, Pow2, Overflows;
    var size := Exponent(c);
    var word := Mantissa(c);
    if size <= 3 {
      MantissaShrinks(c);
      word := Shifted(word, 8 * (3 - size));
      u.Assign64(word);
    } else {
      u.Assign64(word);
      u.ShiftLeft(8 * (size - 3));
    }
    negative := word != 0 && Signed(c);
    overflow := word != 0 && (size > 34 || (word > 0xFF && size > 33) || (word > 0xFFFF && size > 32));
  }

  lemma MantissaSmall(c: Word)
    ensures Mantissa(c) < 0x80_0000
  {
  }

  lemma QuotSmaller(x: nat, p: nat)
    requires p > 0
    ensures Quot(x, p) <= x
  {
    QuotNonnegative(x, p);
    QuotRem(x, p);
    MulMono(1, p, Quot(x, p));
  }

  lemma MantissaShrinks(c: Word)
    ensures Shrunk(c) < 0x80_0000
  {
    MantissaSmall(c);
    hide Pow2, Mantissa, Exponent;
    if Exponent(c) <= 3 {
      QuotSmaller(Mantissa(c), Pow2(8 * (3 - Exponent(c))));
    }
  }

  lemma BytesFromBits(x: nat, bits: nat)
    requires HasBits(x, bits)
    ensures ByteLength(x) == (bits + 7) / 8
  {
    ByteLengthFits(x);
    var s := (bits + 7) / 8;
    if bits > 0 {
      Pow2Mono(8 * (s - 1), bits - 1);
      Pow2Mono(bits, 8 * s);
    }
    BytesUnique(x, ByteLength(x), s);
  }

  /** The three leading bytes of the number and how many bytes it has. */
  method LeadingBytes(u: Uint) returns (word: nat, size: nat)
    requires u.Width() == WIDTH
    ensures size == ByteLength(u.Value()) && word < 0x100_0000
    ensures word == if size <= 3 then u.Value() * Pow2(8 * (3 - size)) else u.Value() / Pow2(8 * (size - 3))
  {
    hide Val, Pow2, HasBits, ByteLength, HasBytes;
    var bits := u.Bits();
    size := (bits + 7) / 8;
    BytesFromBits(u.Value(), bits);
    ByteLengthFits(u.Value());
    if size <= 3 {
      SmallBounds(u.Value(), size);
      var low := u.GetLow64();
      LowIsAll(u.Value(), size);
      word := low * Pow2(8 * (3 - size));
    } else {
      WordBounds(u.Value(), size);
      var bn := new Uint.Copy(u);
      bn.ShiftRight(8 * (size - 3));
      word := bn.GetLow64();
    }
  }

  lemma LowIsAll(x: nat, size: nat)
    requires HasBytes(x, size) && size <= 3
    ensures x % TWO64 == x
  {
    Pow2Small();
    Pow2Mono(8 * size, 24);
  }

  /** GetCompact: the encoding, with the sign bit added for a negative number whose mantissa is not zero.
      Neither of its two assertions can fail. */
  method GetCompact(u: Uint, fNegative: bool) returns (c: nat)
    requires u.Width() == WIDTH
    ensures Encoded(u.Value()) < BASE
    ensures c == Encoded(u.Value()) + if fNegative && Mantissa(Encoded(u.Value())) != 0 then 0x80_0000 else 0
    ensures c < BASE && Decoded(c) == Kept(u.Value()) && !Overflows(c)
    ensures Negative(c) <==> fNegative && u.Value() != 0
  {
    hide Val, Pow2, Normalized, Mantissa, Exponent, Signed, Decoded, Negative, Overflows, Kept;
    var compact, size := Leading(u);
    ValBound(u.pn[..]);
    FullModulus();
    EncodedParts(u.Value());
    NormalizedKeeps(u.Value());
    assert compact < 0x80_0000;
    assert size < 256;
    hide Keeps;
    c := Pack(compact, size, fNegative);
    SignRoundTrip(u.Value(), fNegative);
  }

  /** The mantissa and the size, with the mantissa moved over if it reaches the sign bit. */
  method Leading(u: Uint) returns (compact: nat, size: nat)
    requires u.Width() == WIDTH
    ensures Normalized(u.Value()) == Normal(compact, size)
  {
    hide Val, Pow2, ByteLength;
    compact, size := LeadingBytes(u);
    if compact / 0x80_0000 % 2 == 1 {
      compact := compact / 256;
      size := size + 1;
    }
  }

  method Pack(m: nat, size: nat, fNegative: bool) returns (c: nat)
    requires m < 0x80_0000
    ensures c == m + size * 0x100_0000 + if fNegative && m != 0 then 0x80_0000 else 0
  {
    hide Or;
    Assemble(m, size);
    DivUnique(m + size * 0x100_0000, 0x80_0000, 2 * size, m);
    c := Or(m, size * 0x100_0000);
    if fNegative && c % 0x80_0000 != 0 {
      c := Or(c, 0x80_0000);
    }
  }

  /** An encoding with its sign reads back with that sign. */
  lemma SignRoundTrip(x: nat, negative: bool)
    requires x < Pow2(256)
    ensures Encoded(x) < BASE && (Mantissa(Encoded(x)) == 0 <==> x == 0)
    ensures
      var c := Encoded(x) + if negative && Mantissa(Encoded(x)) != 0 then 0x80_0000 else 0;
      c < BASE && Decoded(c) == Kept(x) && !Overflows(c) && (Negative(c) <==> negative && x != 0)
  {
    hide Encoded, Normalized, Pow2, Decoded, Overflows, Negative, Kept, Mantissa, Exponent, Signed, Shrunk;
    DecodedEncoded(x);
    EncodedParts(x);
    EncodedUnsigned(x);
    SignBit(Encoded(x));
  }

  lemma EncodedUnsigned(x: nat)
    requires x < Pow2(256) && Encoded(x) < BASE
    ensures Encoded(x) / 0x80_0000 % 2 == 0
    ensures (Mantissa(Encoded(x)) == 0 <==> x == 0) && (Shrunk(Encoded(x)) == 0 <==> x == 0)
  {
    EncodedParts(x);
    NormalizedKeeps(x);
    hide Encoded, Normalized, Pow2, HasSize, Exponent, Mantissa;
    var n := Normalized(x);
    if n.size <= 3 {
      var p := Pow2(8 * (3 - n.size));
      DivExact(x, p);
      MulMono(if x == 0 then 0 else 1, x, p);
    }
  }

  /** Putting the parts together with or, in either order of magnitude, adds them. */
  lemma Assemble(m: nat, s: nat)
    requires m < 0x80_0000
    ensures Or(m, s * 0x100_0000) == m + s * 0x100_0000
    ensures Or(m + s * 0x100_0000, 0x80_0000) == m + s * 0x100_0000 + 0x80_0000
  {
    hide Or;
    Pow2Small();
    OrDisjoint(s, m, 24);
    OrSwap(m, s * Pow2(24));
    OrBit(m + s * 0x100_0000, 23);
  }

  // ---------------------------------------------------------------- work

  /** A block's work: how many hashes it takes on average to meet its target, zero for an invalid target. */
  function Work(bits: Word): nat {
    if Negative(bits) || Overflows(bits) || Decoded(bits) == 0 then 0 else Quot(Pow2(256), Decoded(bits) + 1)
  }

  /** floor(2^256 / (target + 1)), by way of the complement. */
  method Inverse(target: Uint) returns (proof: Uint)
    requires target.Width() == WIDTH && 0 < target.Value() && target.Value() + 1 < Modulus(WIDTH)
    modifies target.pn
    ensures proof.Width() == WIDTH && proof.Value() == Quot(Modulus(WIDTH), old(target.Value()) + 1)
  {
    hide Val, Modulus;
    ghost var t, m := target.Value(), Modulus(WIDTH);
    proof := target.Complement();
    AddOne(target);
    WorkIdentity(t, m);
    hide Quot;
    var thrown := proof.DivAssign(target);
    AddOne(proof);
  }

  /** Adds the 64-bit number one. */
  method AddOne(u: Uint)
    requires u.Width() == WIDTH && u.Value() + 1 < Modulus(WIDTH)
    modifies u.pn
    ensures u.Value() == old(u.Value()) + 1
  {
    hide Val, Modulus;
    ghost var x := u.Value();
    var one := new Uint(WIDTH);
    one.Assign64(1);
    u.AddAssign(one);
    DivUnique(x + 1, Modulus(WIDTH), 0, x + 1);
  }

  /** GetBlockProof computes 2^256 / (target + 1) without ever representing 2^256. */
  method GetBlockProof(bits: Word) returns (proof: Uint)
    ensures proof.Width() == WIDTH && proof.Value() == Work(bits)
  {
    FullModulus();
    hide Val, Pow2, Decoded, Negative, Overflows, Modulus, Quot;
    var target := new Uint(WIDTH);
    var negative, overflow := SetCompact(target, bits);
    var zero := target.EqualTo(0);
    if negative || overflow || zero {
      proof := new Uint(WIDTH);
    } else {
      ProperTarget(bits);
      proof := Inverse(target);
    }
  }

  lemma FullModulus()
    ensures Modulus(WIDTH) == Pow2(256)
  {
    hide Pow2;
  }

  lemma EvenPower(n: nat)
    requires n > 0
    ensures Pow2(n) == 2 * Pow2(n - 1)
  {
  }

  /** No target without overflow is the largest number, so one can be added to it. */
  lemma ProperTarget(c: Word)
    requires !Overflows(c)
    ensures Decoded(c) + 1 < Pow2(256)
  {
    hide Pow2;
    Pow2Small();
    if Exponent(c) <= 3 {
      MantissaShrinks(c);
      Pow2Mono(24, 256);
    } else {
      var e := 8 * (Exponent(c) - 3);
      DecodeFits(c, Mantissa(c) * Pow2(e));
      EvenPower(e);
      EvenPower(256);
      hide Decoded, Overflows, Mantissa;
      EvenBelow(Mantissa(c), Pow2(e - 1), Pow2(255));
    }
  }

  lemma EvenBelow(m: int, p: int, top: int)
    requires m * (2 * p) < 2 * top
    ensures m * (2 * p) + 1 < 2 * top
  {
    assert m * (2 * p) == 2 * (m * p);
  }

  lemma WorkIdentity(t: nat, m: nat)
    requires 0 < t && t + 1 < m
    ensures 0 <= (m - 1 - t) / (t + 1) && (m - 1 - t) / (t + 1) + 1 < m
    ensures (m - 1 - t) / (t + 1) + 1 == Quot(m, t + 1)
  {
    var d := t + 1;
    var q, r := (m - d) / d, (m - d) % d;
    QuotNonnegative(m - d, d);
    hide Quot;
    Distribute(q, 1, d);
    QuotUnique(m, d, q + 1, r);
    MulMono(2, d, q);
  }
}
