/** Base58 as it runs: digit buffers rewritten in place, src/base58.cpp. */
module Base58 {
  import opened Numbers
  import opened Radix
  import opened Wrappers
  import opened Base58Sizes
  import opened Base58Model

  // ---------------------------------------------------------------- a digit buffer

  /** The buffer holds the number v in its last len digits, the first of which is not zero. */
  ghost predicate Holds(b: nat, ds: seq<nat>, len: nat, v: nat) {
    && b >= 2 && Digits(b, ds) && len <= |ds|
    && (forall k :: 0 <= k < |ds| - len ==> ds[k] == 0)
    && Num(b, ds) == v
    && (len > 0 ==> Pow(b, len - 1) <= v)
  }

  lemma HoldsZero(b: nat, ds: seq<nat>)
    requires b >= 2 && forall k :: 0 <= k < |ds| ==> ds[k] == 0
    ensures Holds(b, ds, 0, 0)
  {
    NumZeros(b, ds);
  }

  /** The last i digits have been multiplied by f and increased by add, up to the carry. */
  ghost predicate Carrying(b: nat, f: nat, add: nat, ds: seq<nat>, before: seq<nat>, i: nat, carry: nat) {
    && i <= |ds| == |before| && Digits(b, ds)
    && ds[..|ds| - i] == before[..|ds| - i]
    && Num(b, ds[|ds| - i..]) + carry * Pow(b, i) == Num(b, before[|ds| - i..]) * f + add
  }

  lemma CarryingStep(b: nat, f: nat, add: nat, ds: seq<nat>, before: seq<nat>, i: nat, carry: nat, next: nat)
    requires b >= 2 && i < |ds| && Carrying(b, f, add, ds, before, i, carry)
    requires next == carry + f * ds[|ds| - 1 - i]
    ensures Carrying(b, f, add, ds[|ds| - 1 - i := Rem(next, b)], before, i + 1, Quot(next, b))
  {
    var p := |ds| - 1 - i;
    hide Quot, Rem;
    QuotRem(next, b);
    var digit := Rem(next, b);
    var after := ds[p := digit];
    var low, was := ds[p + 1..], before[p + 1..];
    var d := before[p];
    assert ds[p] == ds[..p + 1][p] == before[..p + 1][p] == d;
    assert after[p..] == [digit] + low;
    assert before[p..] == [d] + was;
    assert after[..p] == ds[..p + 1][..p] == before[..p + 1][..p] == before[..p];
    NumSplit(b, [digit], low);
    NumSplit(b, [d], was);
    NumOne(b, digit);
    NumOne(b, d);
    StepSum(b, f, add, next, carry, d, Pow(b, i), Num(b, low), Num(b, was), Quot(next, b), digit);
  }

  lemma NumOne(b: nat, d: nat)
    ensures Num(b, [d]) == d
  {
    assert [d][..0] == [];
  }

  lemma StepSum(b: nat, f: nat, add: nat, next: nat, carry: nat, d: nat, p: nat, low: nat, was: nat, q: nat, r: nat)
    requires next == q * b + r && next == carry + f * d && low + carry * p == was * f + add
    ensures r * p + low + q * (b * p) == (d * p + was) * f + add
  {
    Distribute(q * b, r, p);
    Assoc(q, b, p);
    Distribute(carry, f * d, p);
    Distribute(d * p, was, f);
    assert f * d * p == d * p * f;
  }

  /** Leading zeros do not count. */
  lemma NumTail(b: nat, ds: seq<nat>, k: nat)
    requires k <= |ds| && forall j :: 0 <= j < k ==> ds[j] == 0
    ensures Num(b, ds) == Num(b, ds[k..])
  {
    assert ds == ds[..k] + ds[k..];
    NumSplit(b, ds[..k], ds[k..]);
    NumZeros(b, ds[..k]);
  }

  lemma TopDigit(b: nat, ds: seq<nat>, i: nat)
    requires 0 < i <= |ds| && ds[|ds| - i] != 0
    ensures Pow(b, i - 1) <= Num(b, ds)
  {
    var k := |ds| - i;
    assert ds == ds[..k] + ([ds[k]] + ds[k + 1..]);
    NumSplit(b, ds[..k], [ds[k]] + ds[k + 1..]);
    NumSplit(b, [ds[k]], ds[k + 1..]);
    NumOne(b, ds[k]);
    MulMono(1, ds[k], Pow(b, i - 1));
    MulMono(0, Num(b, ds[..k]), Pow(b, i));
  }

  /** When the loop stops nothing is left to carry, provided the result fits. */
  lemma CarryingEnd(b: nat, f: nat, add: nat, ds: seq<nat>, before: seq<nat>, len: nat, v: nat, i: nat, carry: nat)
    requires f >= 1 && Holds(b, before, len, v) && Carrying(b, f, add, ds, before, i, carry)
    requires i == |ds| || (carry == 0 && i >= len)
    requires i > len && carry == 0 ==> ds[|ds| - i] != 0
    requires v * f + add < Pow(b, |ds|)
    ensures carry == 0 && Holds(b, ds, i, v * f + add)
  {
    var k := |ds| - i;
    hide Pow, Num;
    if i == |ds| {
      assert ds[0..] == ds && before[0..] == before;
      if carry > 0 {
        MulMono(1, carry, Pow(b, i));
      }
    } else {
      assert forall j :: 0 <= j < k ==> ds[j] == ds[..k][j] == before[..k][j] == before[j];
      NumTail(b, ds, k);
      NumTail(b, before, k);
    }
    assert carry == 0;
    assert Num(b, ds) == v * f + add;
    if i > len {
      TopDigit(b, ds, i);
    } else {
      MulMono(1, f, v);
    }
  }

  /** One digit of the inner loop. */
  method OneDigit(buf: array<nat>, b: nat, f: nat, carry: nat, i: nat, ghost add: nat, ghost before: seq<nat>)
    returns (next: nat)
    requires b >= 2 && i < buf.Length && Carrying(b, f, add, buf[..], before, i, carry)
    modifies buf
    ensures Carrying(b, f, add, buf[..], before, i + 1, next)
    ensures carry != 0 && before[|before| - 1 - i] == 0 && next == 0 ==> buf[buf.Length - 1 - i] != 0
  {
    var p := buf.Length - 1 - i;
    assert buf[..][..p + 1][p] == buf[p];
    assert buf[p] == before[p] by { assert before[..p + 1][p] == before[p]; }
    hide Carrying, Num, Pow;
    var sum: nat := carry + f * buf[p];
    CarryingStep(b, f, add, buf[..], before, i, carry, sum);
    QuotRem(sum, b);
    hide Quot, Rem;
    buf[p] := Rem(sum, b);
    next := Quot(sum, b);
  }

  /** Multiplies the number in the buffer by f and adds to it; the carry always comes out as zero. */
  method MulAdd(buf: array<nat>, b: nat, f: nat, add: nat, len: nat, ghost v: nat) returns (i: nat)
    requires f >= 1 && Holds(b, buf[..], len, v) && v * f + add < Pow(b, buf.Length)
    modifies buf
    ensures Holds(b, buf[..], i, v * f + add)
  {
    ghost var before := buf[..];
    var carry: nat := add;
    i := 0;
    CarryingStart(b, f, add, before);
    HoldsShape(b, before, len, v);
    hide Carrying, Holds, Pow, Num;
    while (carry != 0 || i < len) && i < buf.Length
      invariant i <= buf.Length && Carrying(b, f, add, buf[..], before, i, carry)
      invariant i > len && carry == 0 ==> buf[buf.Length - i] != 0
    {
      carry := OneDigit(buf, b, f, carry, i, add, before);
      i := i + 1;
    }
    CarryingEnd(b, f, add, buf[..], before, len, v, i, carry);
    assert carry == 0;
  }

  lemma CarryingStart(b: nat, f: nat, add: nat, ds: seq<nat>)
    requires Digits(b, ds)
    ensures Carrying(b, f, add, ds, ds, 0, add)
  {
    assert ds[|ds|..] == [];
  }

  lemma HoldsShape(b: nat, ds: seq<nat>, len: nat, v: nat)
    requires Holds(b, ds, len, v)
    ensures b >= 2 && len <= |ds| && forall k :: 0 <= k < |ds| - len ==> ds[k] == 0
  {
  }

  /** The digits in use are the digits of the number. */
  lemma HoldsDigits(b: nat, ds: seq<nat>, len: nat, v: nat)
    requires Holds(b, ds, len, v)
    ensures ds[|ds| - len..] == ToBase(b, v)
  {
    var k := |ds| - len;
    var low := ds[k..];
    NumTail(b, ds, k);
    if len > 0 && low[0] == 0 {
      assert low == [0] + ds[k + 1..];
      NumTail(b, low, 1);
      assert low[1..] == ds[k + 1..];
      NumBound(b, ds[k + 1..]);
    }
    NumToBase(b, low);
  }

  // ---------------------------------------------------------------- encoding

  lemma FirstNonzero(ds: seq<nat>, z: nat)
    requires z <= |ds| && (forall i :: 0 <= i < z ==> ds[i] == 0) && (z < |ds| ==> ds[z] != 0)
    ensures LeadingZeros(ds) == z
  {
  }

  /** The next value is still within the buffer. */
  lemma NextFits(a: nat, b: nat, ds: seq<nat>, n: nat, size: nat)
    requires a >= 1 && Digits(a, ds) && |ds| <= n && Within(a, n, b, size)
    ensures Num(a, ds) < Pow(b, size)
  {
    NumBound(a, ds);
    PowMono(a, |ds|, n);
  }

  /** Reads the digits of base a into the buffer, in base b. */
  method Load(buf: array<nat>, a: nat, b: nat, ds: seq<nat>) returns (len: nat)
    requires a >= 2 && b >= 2 && Digits(a, ds) && Within(a, |ds|, b, buf.Length)
    requires forall k :: 0 <= k < buf.Length ==> buf[k] == 0
    modifies buf
    ensures Holds(b, buf[..], len, Num(a, ds))
  {
    len := 0;
    HoldsZero(b, buf[..]);
    assert Num(a, ds[..0]) == 0;
    hide Holds, Within, Pow;
    for p := 0 to |ds|
      invariant Holds(b, buf[..], len, Num(a, ds[..p]))
    {
      assert ds[..p + 1][..p] == ds[..p];
      NextFits(a, b, ds[..p + 1], |ds|, buf.Length);
      len := MulAdd(buf, b, a, ds[p], len, Num(a, ds[..p]));
    }
    assert ds[..|ds|] == ds;
  }

  method EncodeBase58(bytes: seq<nat>) returns (str: string)
    requires Digits(256, bytes)
    ensures str == Encode(bytes)
  {
    var zeroes := 0;
    while zeroes < |bytes| && bytes[zeroes] == 0
      invariant zeroes <= |bytes| && forall i :: 0 <= i < zeroes ==> bytes[i] == 0
    {
      zeroes := zeroes + 1;
    }
    FirstNonzero(bytes, zeroes);
    hide LeadingZeros, Num, ToBase;
    ConvertDigits(256, 58, bytes);
    ToBaseNum(58, Num(256, bytes[zeroes..]));
    var digits := ToDigits(bytes[zeroes..]);
    str := Print(zeroes, digits);
  }

  /** The digits of a number given in bytes, by way of the buffer. */
  method ToDigits(bytes: seq<nat>) returns (digits: seq<nat>)
    requires Digits(256, bytes)
    ensures digits == ToBase(58, Num(256, bytes))
  {
    var size := |bytes| * 138 / 100 + 1;
    BytesFit(|bytes|);
    var b58 := new nat[size](_ => 0);
    hide Holds, Num, Pow, ToBase, Within;
    var length := Load(b58, 256, 58, bytes);
    HoldsDigits(58, b58[..], length, Num(256, bytes));
    HoldsShape(58, b58[..], length, Num(256, bytes));
    ToBaseNum(58, Num(256, bytes));
    var it := size - length;
    assert b58[it..] == ToBase(58, Num(256, bytes));
    assert it < size ==> b58[it] == b58[it..][0];
    var first := SkipZeros(b58, it);
    assert first == it;
    digits := b58[first..];
  }

  /** The first digit that is not zero, from a position on. */
  method SkipZeros(buf: array<nat>, from: nat) returns (it: nat)
    requires from <= buf.Length
    ensures from <= it <= buf.Length && (it < buf.Length ==> buf[it] != 0)
    ensures forall k :: from <= k < it ==> buf[k] == 0
  {
    it := from;
    while it != buf.Length && buf[it] == 0
      invariant from <= it <= buf.Length && forall k :: from <= k < it ==> buf[k] == 0
    {
      it := it + 1;
    }
  }

  /** A one for each leading zero, then the digits. */
  method Print(zeroes: nat, ds: seq<nat>) returns (str: string)
    requires Digits(58, ds)
    ensures Digits(58, Zeros(zeroes) + ds) && str == Chars(Zeros(zeroes) + ds)
  {
    str := seq(zeroes, _ => '1');
    for i := 0 to |ds|
      invariant |str| == zeroes + i
      invariant forall k :: 0 <= k < zeroes ==> str[k] == '1'
      invariant forall k :: 0 <= k < i ==> str[zeroes + k] == Char58(ds[k])
    {
      str := str + [Char58(ds[i])];
    }
    var all := Zeros(zeroes) + ds;
    forall k | 0 <= k < |str|
      ensures str[k] == Chars(all)[k]
    {
      if k >= zeroes {
        assert str[zeroes + (k - zeroes)] == Char58(ds[k - zeroes]);
      }
    }
  }

  // ---------------------------------------------------------------- decoding

  ghost predicate Spaces(s: string) {
    forall i :: 0 <= i < |s| ==> IsSpace(s[i])
  }

  /** The text without its surrounding spaces starts at a and ends before e. */
  ghost predicate Bounds(s: string, a: nat, e: nat) {
    && a <= e <= |s| && Spaces(s[..a]) && Spaces(s[e..])
    && (a < e ==> !IsSpace(s[a]) && !IsSpace(s[e - 1]))
  }

  lemma {:induction false} TrimLeftAt(s: string, a: nat)
    requires a <= |s| && Spaces(s[..a]) && (a < |s| ==> !IsSpace(s[a]))
    ensures TrimLeft(s) == s[a..]
    decreases |s|
  {
    if a > 0 {
      assert s[..a][0] == s[0];
      assert s[1..][..a - 1] == s[..a][1..];
      TrimLeftAt(s[1..], a - 1);
      assert s[1..][a - 1..] == s[a..];
    }
  }

  lemma {:induction false} TrimRightAt(s: string, e: nat)
    requires e <= |s| && Spaces(s[e..]) && (e > 0 ==> !IsSpace(s[e - 1]))
    ensures TrimRight(s) == s[..e]
  {
    if e < |s| {
      var n := |s| - 1;
      assert s[e..][n - e] == s[n];
      assert s[..n][e..] == s[e..][..n - e];
      TrimRightAt(s[..n], e);
      assert s[..n][..e] == s[..e];
    }
  }

  lemma TrimAt(s: string, a: nat, e: nat)
    requires Bounds(s, a, e) && (a == e ==> a == |s|)
    ensures TrimRight(TrimLeft(s)) == s[a..e]
  {
    hide TrimLeft, TrimRight, IsSpace, Spaces;
    TrimLeftAt(s, a);
    var t := s[a..];
    assert t[e - a..] == s[e..];
    TrimRightAt(t, e - a);
    assert t[..e - a] == s[a..e];
  }

  /** The end of the text, given its start. */
  lemma {:induction false} EndOfText(s: string, a: nat, n: nat) returns (e: nat)
    requires a < n <= |s| && Spaces(s[..a]) && !IsSpace(s[a]) && Spaces(s[n..])
    ensures a < e <= n && Bounds(s, a, e)
    decreases n
  {
    if IsSpace(s[n - 1]) {
      assert s[n - 1..] == [s[n - 1]] + s[n..];
      e := EndOfText(s, a, n - 1);
    } else {
      e := n;
    }
  }

  /** Every character that is not a space lies within the text. */
  lemma Inside(s: string, a: nat, e: nat, k: nat)
    requires Bounds(s, a, e) && a <= k < |s| && !IsSpace(s[k])
    ensures k < e
  {
    forall j | e <= j < |s|
      ensures IsSpace(s[j])
    {
      assert s[e..][j - e] == s[j];
    }
  }

  /** A character that is not in the alphabet makes the text undecodable. */
  lemma BadCharacter(s: string, limit: int, a: nat, k: nat, last: nat)
    requires a < |s| && Spaces(s[..a]) && !IsSpace(s[a])
    requires a <= k <= last < |s| && Map58(s[k]) == -1 && !IsSpace(s[last])
    ensures Decode(s, limit) == None
  {
    assert s[|s|..] == [];
    var e := EndOfText(s, a, |s|);
    TrimAt(s, a, e);
    Inside(s, a, e, last);
    assert s[a..e][k - a] == s[k];
    hide TrimLeft, TrimRight, Convert;
  }

  lemma {:induction false} NumPrefix(b: nat, ds: seq<nat>, k: nat)
    requires b >= 1 && k <= |ds|
    ensures Num(b, ds[..k]) <= Num(b, ds)
  {
    if k == |ds| {
      assert ds[..k] == ds;
    } else {
      var n := |ds| - 1;
      NumPrefix(b, ds[..n], k);
      assert ds[..n][..k] == ds[..k];
      MulMono(1, b, Num(b, ds[..n]));
    }
  }

  /** The ones and the digits read so far. */
  ghost predicate Reading(s: string, a: nat, z: nat, k: nat) {
    && a + z <= k <= |s|
    && (forall i :: a <= i < a + z ==> s[i] == '1')
    && AllBase58(s[a + z..k])
    && (a + z < k ==> s[a + z] != '1')
  }

  /** The number the digits read so far stand for, and its bytes. */
  ghost function Value(s: string, a: nat, z: nat, k: nat): nat
    requires Reading(s, a, z, k)
  {
    Num(58, DigitsOf(s[a + z..k]))
  }

  ghost function Bytes(s: string, a: nat, z: nat, k: nat): seq<nat>
    requires Reading(s, a, z, k)
  {
    ToBase(256, Value(s, a, z, k))
  }

  lemma OneIsZero(c: char)
    ensures Map58(c) == 0 <==> c == '1'
  {
  }

  /** The digits of a piece of text are a piece of its digits. */
  lemma {:induction false} DigitsOfPiece(s: string, from: nat, to: nat)
    requires AllBase58(s) && from <= to <= |s|
    ensures AllBase58(s[from..to]) && DigitsOf(s[from..to]) == DigitsOf(s)[from..to]
  {
    hide Map58, DigitsOf, Digits;
    var t := s[from..to];
    assert AllBase58(t);
    assert forall i :: 0 <= i < |t| ==> DigitsOf(t)[i] == Map58(t[i]) == Map58(s[from + i]);
  }

  /** The converted text starts with a zero for every leading one. */
  lemma ConvertText(body: string, z: nat)
    requires AllBase58(body) && z <= |body| && (forall i :: 0 <= i < z ==> body[i] == '1')
    requires (z < |body| ==> body[z] != '1')
    ensures Convert(58, 256, DigitsOf(body)) == Zeros(z) + ToBase(256, Num(58, DigitsOf(body)[z..]))
  {
    var ds := DigitsOf(body);
    forall i | 0 <= i < |ds|
      ensures ds[i] == 0 <==> body[i] == '1'
    {
      OneIsZero(body[i]);
    }
    FirstNonzero(ds, z);
  }

  lemma TooManyOnes(s: string, limit: int, a: nat, z: nat)
    requires 0 < z && a + z <= |s| && Spaces(s[..a]) && (forall i :: a <= i < a + z ==> s[i] == '1') && z > limit
    ensures Decode(s, limit) == None
  {
    assert s[|s|..] == [];
    assert s[a] == '1';
    var e := EndOfText(s, a, |s|);
    TrimAt(s, a, e);
    Inside(s, a, e, a + z - 1);
    var body := s[a..e];
    hide TrimLeft, TrimRight, ToBase, Num;
    if AllBase58(body) {
      var ds := DigitsOf(body);
      forall i | 0 <= i < z
        ensures ds[i] == 0
      {
        assert body[i] == s[a + i] == '1';
      }
      assert LeadingZeros(ds) >= z;
    }
  }

  lemma TooLong(s: string, limit: int, a: nat, z: nat, k: nat)
    requires a + z < k && Reading(s, a, z, k) && Spaces(s[..a]) && !IsSpace(s[a])
    requires z + |Bytes(s, a, z, k)| > limit
    ensures Decode(s, limit) == None
  {
    hide TrimLeft, TrimRight, IsSpace, Map58, Convert, DigitsOf, Num, ToBase, AllBase58, Spaces;
    LastCharacter(s, a, z, k);
    var e := TextOf(s, a, k - 1);
    var body := s[a..e];
    if AllBase58(body) {
      assert forall i :: 0 <= i < z ==> body[i] == s[a + i] == '1';
      assert body[z] == s[a + z];
      PrefixBytes(body, z, k - a);
      SliceOfSlice(s, a, e, z, k - a);
    }
  }

  lemma SliceOfSlice(s: string, a: nat, e: nat, from: nat, to: nat)
    requires a <= e <= |s| && from <= to <= e - a
    ensures s[a..e][from..to] == s[a + from..a + to]
  {
    var left, right := s[a..e][from..to], s[a + from..a + to];
    forall i | 0 <= i < to - from
      ensures left[i] == right[i]
    {
      assert left[i] == s[a..e][from + i] == s[a + from + i];
    }
  }

  /** The text that starts at a reaches beyond any later character that is not a space. */
  lemma TextOf(s: string, a: nat, k: nat) returns (e: nat)
    requires a <= k < |s| && Spaces(s[..a]) && !IsSpace(s[a]) && !IsSpace(s[k])
    ensures k < e <= |s| && TrimRight(TrimLeft(s)) == s[a..e]
  {
    assert s[|s|..] == [];
    e := EndOfText(s, a, |s|);
    TrimAt(s, a, e);
    Inside(s, a, e, k);
  }

  /** The bytes of the first digits are no more than those of the whole text. */
  lemma PrefixBytes(body: string, z: nat, k: nat)
    requires AllBase58(body) && z < k <= |body| && (forall i :: 0 <= i < z ==> body[i] == '1') && body[z] != '1'
    ensures AllBase58(body[z..k])
    ensures |Convert(58, 256, DigitsOf(body))| >= z + |ToBase(256, Num(58, DigitsOf(body[z..k])))|
  {
    hide *;
    ConvertText(body, z);
    DigitsOfPiece(body, z, k);
    var ds := DigitsOf(body)[z..];
    assert DigitsOf(body)[z..k] == ds[..k - z];
    NumPrefix(58, ds, k - z);
    ToBaseLonger(256, Num(58, ds[..k - z]), Num(58, ds));
  }

  /** The whole text has been read. */
  lemma Finished(s: string, limit: int, a: nat, z: nat, k: nat)
    requires Reading(s, a, z, k) && Spaces(s[..a]) && Spaces(s[k..]) && !HasNull(s)
    requires a < |s| ==> !IsSpace(s[a])
    requires k > a ==> z + |Bytes(s, a, z, k)| <= limit
    requires a == k ==> k == |s|
    ensures Decode(s, limit) == Some(Zeros(z) + Bytes(s, a, z, k))
  {
    hide TrimLeft, TrimRight, IsSpace, Map58, Convert, Num, ToBase, DigitsOf, HasNull, Spaces;
    if a < k {
      LastCharacter(s, a, z, k);
    }
    TrimAt(s, a, k);
    var body := s[a..k];
    WholeText(s, a, z, k);
    ConvertText(body, z);
    DigitsOfPiece(body, z, |body|);
    assert body[z..|body|] == s[a + z..k];
    assert DigitsOf(body)[z..|body|] == DigitsOf(body)[z..];
  }

  lemma WholeText(s: string, a: nat, z: nat, k: nat)
    requires Reading(s, a, z, k)
    ensures AllBase58(s[a..k]) && (forall i :: 0 <= i < z ==> s[a..k][i] == '1') && (z < k - a ==> s[a..k][z] != '1')
  {
    var body := s[a..k];
    OneIsZero('1');
    hide Map58;
    forall i | 0 <= i < |body|
      ensures Map58(body[i]) != -1
    {
      if i < z {
        assert body[i] == s[a + i] == '1';
      } else {
        assert body[i] == s[a + z..k][i - z];
      }
    }
  }

  lemma LastCharacter(s: string, a: nat, z: nat, k: nat)
    requires Reading(s, a, z, k) && a < k
    ensures !IsSpace(s[k - 1])
  {
    if a + z < k {
      assert s[a + z..k][k - 1 - a - z] == s[k - 1];
      MapInverse(s[k - 1]);
    }
  }

  lemma ReadingStep(s: string, a: nat, z: nat, k: nat)
    requires Reading(s, a, z, k) && k < |s| && Map58(s[k]) != -1 && (a + z == k ==> s[k] != '1')
    ensures Reading(s, a, z, k + 1)
    ensures Value(s, a, z, k + 1) == Value(s, a, z, k) * 58 + Map58(s[k])
  {
    hide Map58;
    var more := s[a + z..k + 1];
    assert more[..|more| - 1] == s[a + z..k];
    assert forall i :: 0 <= i < |more| ==> more[i] == if i < k - a - z then s[a + z..k][i] else s[k];
    var ds := DigitsOf(more);
    assert ds[..|ds| - 1] == DigitsOf(s[a + z..k]);
  }

  lemma ValueFits(s: string, a: nat, z: nat, k: nat, size: nat)
    requires Reading(s, a, z, k) && Within(58, |s| - (a + z), 256, size)
    ensures Value(s, a, z, k) < Pow(256, size)
  {
    hide Num, Pow, Within, Map58;
    NextFits(58, 256, DigitsOf(s[a + z..k]), |s| - (a + z), size);
  }

  /** The buffer holds the number read so far. */
  ghost predicate Stored(ds: seq<nat>, length: nat, s: string, a: nat, z: nat, k: nat) {
    Reading(s, a, z, k) && Holds(256, ds, length, Value(s, a, z, k))
  }

  lemma StoredBytes(ds: seq<nat>, length: nat, s: string, a: nat, z: nat, k: nat)
    requires Stored(ds, length, s, a, z, k)
    ensures Reading(s, a, z, k) && length <= |ds| && ds[|ds| - length..] == Bytes(s, a, z, k)
    ensures |Bytes(s, a, z, k)| == length
  {
    hide Value, ToBase;
    HoldsDigits(256, ds, length, Value(s, a, z, k));
  }

  lemma StoredStart(ds: seq<nat>, s: string, a: nat, z: nat)
    requires Reading(s, a, z, a + z) && forall i :: 0 <= i < |ds| ==> ds[i] == 0
    ensures Stored(ds, 0, s, a, z, a + z)
  {
    HoldsZero(256, ds);
    assert s[a + z..a + z] == [];
  }

  lemma ReadingBounds(s: string, a: nat, z: nat, k: nat)
    requires Reading(s, a, z, k)
    ensures a + z <= k <= |s|
  {
  }

  /** One more digit of the text. */
  method ReadOne(b256: array<nat>, s: string, a: nat, z: nat, k: nat, digit: nat, length: nat) returns (next: nat)
    requires Stored(b256[..], length, s, a, z, k) && k < |s| && digit == Map58(s[k]) && (a + z == k ==> s[k] != '1')
    requires Within(58, |s| - (a + z), 256, b256.Length)
    modifies b256
    ensures Stored(b256[..], next, s, a, z, k + 1)
  {
    hide Holds, Within, Pow, Map58, Value, Reading;
    ReadingStep(s, a, z, k);
    ValueFits(s, a, z, k + 1, b256.Length);
    next := MulAdd(b256, 256, 58, digit, length, Value(s, a, z, k));
  }

  /** Reads the digits of the text into the buffer, as far as they go. */
  method ReadDigits(s: string, limit: int, a: nat, z: nat) returns (ok: bool, k: nat, bytes: seq<nat>)
    requires Reading(s, a, z, a + z) && Spaces(s[..a]) && (a < |s| ==> !IsSpace(s[a]))
    requires (a + z < |s| ==> s[a + z] != '1')
    requires z > 0 ==> z <= limit
    ensures !ok ==> Decode(s, limit) == None
    ensures ok ==> Reading(s, a, z, k) && bytes == Bytes(s, a, z, k) && (k < |s| ==> IsSpace(s[k]))
    ensures ok && k > a ==> z + |bytes| <= limit
  {
    hide Stored, Within, Decode, Map58, IsSpace, Spaces, Reading, Bytes;
    ReadingBounds(s, a, z, a + z);
    var size := (|s| - (a + z)) * 733 / 1000 + 1;
    var b256 := new nat[size](_ => 0);
    DigitsFit(|s| - (a + z));
    k := a + z;
    var length: nat := 0;
    StoredStart(b256[..], s, a, z);
    while k < |s| && !IsSpace(s[k])
      invariant a + z <= k <= |s| && Reading(s, a, z, k)
      invariant Stored(b256[..], length, s, a, z, k)
      invariant k > a ==> z + length <= limit
    {
      var carry := Map58(s[k]);
      if carry == -1 {
        BadCharacter(s, limit, a, k, k);
        return false, k, [];
      }
      length := ReadOne(b256, s, a, z, k, carry, length);
      StoredBytes(b256[..], length, s, a, z, k + 1);
      if length + z > limit {
        TooLong(s, limit, a, z, k + 1);
        return false, k, [];
      }
      k := k + 1;
    }
    StoredBytes(b256[..], length, s, a, z, k);
    return true, k, b256[size - length..];
  }

  method DecodeBase58(s: string, limit: int) returns (r: Option<seq<nat>>)
    ensures r == Decode(s, limit)
  {
    if HasNull(s) {
      return None;
    }
    var p := SkipSpaces(s, 0);
    var start := p;
    assert s[0..p] == s[..p];
    var zeroes := 0;
    hide Decode, HasNull, Spaces, IsSpace, Reading;
    while p < |s| && s[p] == '1'
      invariant p == start + zeroes <= |s| && forall i :: start <= i < p ==> s[i] == '1'
      invariant zeroes > 0 ==> zeroes <= limit
    {
      zeroes := zeroes + 1;
      if zeroes > limit {
        TooManyOnes(s, limit, start, zeroes);
        return None;
      }
      p := p + 1;
    }
    NoDigitsYet(s, start, zeroes);
    var ok, k, bytes := ReadDigits(s, limit, start, zeroes);
    if !ok {
      return None;
    }
    p := SkipSpaces(s, k);
    if p != |s| {
      InnerSpace(s, limit, start, zeroes, k, p);
      return None;
    }
    assert s[k..p] == s[k..];
    EndReached(s, start, zeroes, k);
    Finished(s, limit, start, zeroes, k);
    return Some(Zeros(zeroes) + bytes);
  }

  method SkipSpaces(s: string, from: nat) returns (p: nat)
    requires from <= |s|
    ensures from <= p <= |s| && Spaces(s[from..p]) && (p < |s| ==> !IsSpace(s[p]))
  {
    p := from;
    while p < |s| && IsSpace(s[p])
      invariant from <= p <= |s| && Spaces(s[from..p])
    {
      assert s[from..p + 1] == s[from..p] + [s[p]];
      p := p + 1;
    }
  }

  lemma NoDigitsYet(s: string, a: nat, z: nat)
    requires a + z <= |s| && forall i :: a <= i < a + z ==> s[i] == '1'
    ensures Reading(s, a, z, a + z)
  {
    assert s[a + z..a + z] == [];
  }

  /** Something follows the spaces after the text. */
  lemma InnerSpace(s: string, limit: int, a: nat, z: nat, k: nat, p: nat)
    requires Reading(s, a, z, k) && Spaces(s[..a]) && (a < |s| ==> !IsSpace(s[a]))
    requires k < |s| && IsSpace(s[k]) && k <= p < |s| && !IsSpace(s[p])
    ensures Decode(s, limit) == None
  {
    BadCharacter(s, limit, a, k, p);
  }

  lemma EndReached(s: string, a: nat, z: nat, k: nat)
    requires Reading(s, a, z, k) && Spaces(s[k..]) && (a < |s| ==> !IsSpace(s[a]))
    ensures a == k ==> k == |s|
  {
    if k < |s| {
      assert s[k..][0] == s[k];
    }
  }
}
