/** Base58 as a change of base that keeps leading zeros, src/base58.cpp. */
module Base58Model {
  import opened Numbers
  import opened Radix
  import opened Wrappers

  // ---------------------------------------------------------------- change of base

  function LeadingZeros(ds: seq<nat>): (z: nat)
    ensures z <= |ds|
    ensures forall i :: 0 <= i < z ==> ds[i] == 0
    ensures z < |ds| ==> ds[z] != 0
  {
    if ds != [] && ds[0] == 0 then 1 + LeadingZeros(ds[1..]) else 0
  }

  function Zeros(n: nat): (z: seq<nat>)
    ensures |z| == n && forall i :: 0 <= i < n ==> z[i] == 0
  {
    if n == 0 then [] else Zeros(n - 1) + [0]
  }

  /** Leading zeros are kept as they are, the rest is read in base a and written in base b. */
  function Convert(a: nat, b: nat, ds: seq<nat>): seq<nat>
    requires b >= 2
  {
    var z := LeadingZeros(ds);
    Zeros(z) + ToBase(b, Num(a, ds[z..]))
  }

  lemma LeadingZerosOf(z: nat, ds: seq<nat>)
    requires NoLeadingZero(ds)
    ensures LeadingZeros(Zeros(z) + ds) == z
  {
    var all := Zeros(z) + ds;
    assert forall i :: 0 <= i < z ==> all[i] == 0;
    assert ds != [] ==> all[z] == ds[0];
  }

  lemma ZerosPrefix(ds: seq<nat>)
    ensures Zeros(LeadingZeros(ds)) + ds[LeadingZeros(ds)..] == ds
  {
  }

  lemma ConvertDigits(a: nat, b: nat, ds: seq<nat>)
    requires b >= 2
    ensures Digits(b, Convert(a, b, ds))
  {
    ToBaseNum(b, Num(a, ds[LeadingZeros(ds)..]));
  }

  /** Converting back gives the original digits. */
  lemma ConvertInverse(a: nat, b: nat, ds: seq<nat>)
    requires a >= 2 && b >= 2 && Digits(a, ds)
    ensures Convert(b, a, Convert(a, b, ds)) == ds
  {
    var z := LeadingZeros(ds);
    var rest := ds[z..];
    var n := Num(a, rest);
    ToBaseNum(b, n);
    LeadingZerosOf(z, ToBase(b, n));
    assert (Zeros(z) + ToBase(b, n))[z..] == ToBase(b, n);
    NumToBase(a, rest);
    ZerosPrefix(ds);
  }

  /** More digits never make the conversion shorter. */
  lemma {:induction false} ToBaseLonger(b: nat, m: nat, n: nat)
    requires b >= 2 && m <= n
    ensures |ToBase(b, m)| <= |ToBase(b, n)|
  {
    hide Quot, Rem;
    if m != 0 {
      Quotients(m, n, b);
      QuotRem(m, b);
      QuotRem(n, b);
      ToBaseLonger(b, Quot(m, b), Quot(n, b));
    }
  }

  lemma Quotients(m: nat, n: nat, b: nat)
    requires b >= 2 && m <= n
    ensures Quot(m, b) <= Quot(n, b)
  {
    hide Quot, Rem;
    QuotRem(m, b);
    QuotRem(n, b);
    var q, p := Quot(m, b), Quot(n, b);
    if p < q {
      MulMono(p + 1, q, b);
      Distribute(p, 1, b);
    }
  }

  // ---------------------------------------------------------------- characters

  /** The alphabet: all alphanumeric characters except 0, I, O and l. */
  function Char58(d: nat): char
    requires d < 58
  {
    if d < 9 then (d + '1' as int) as char
    else if d < 17 then (d - 9 + 'A' as int) as char
    else if d < 22 then (d - 17 + 'J' as int) as char
    else if d < 33 then (d - 22 + 'P' as int) as char
    else if d < 44 then (d - 33 + 'a' as int) as char
    else (d - 44 + 'm' as int) as char
  }

  function Map58(c: char): (d: int)
    ensures -1 <= d < 58
  {
    if '1' <= c <= '9' then c as int - '1' as int
    else if 'A' <= c <= 'H' then c as int - 'A' as int + 9
    else if 'J' <= c <= 'N' then c as int - 'J' as int + 17
    else if 'P' <= c <= 'Z' then c as int - 'P' as int + 22
    else if 'a' <= c <= 'k' then c as int - 'a' as int + 33
    else if 'm' <= c <= 'z' then c as int - 'm' as int + 44
    else -1
  }

  predicate IsSpace(c: char) {
    c == ' ' || c as int == 9 || c as int == 10 || c as int == 11 || c as int == 12 || c as int == 13
  }

  /** The digits follow the order of the character codes, the alphabet is the 62 alphanumeric characters without 0, I, O
      and l, and no character of it is a space. */
  lemma Alphabet(c: char, i: nat, j: nat)
    requires i < j < 58
    ensures Char58(i) < Char58(j)
    ensures (exists d: nat :: d < 58 && Char58(d) == c) <==>
      ('0' <= c <= '9' || 'A' <= c <= 'Z' || 'a' <= c <= 'z') && c !in "0IOl"
    ensures IsSpace(c) <==> c == ' ' || 9 <= c as int <= 13
  {
    if Map58(c) != -1 {
      MapInverse(c);
      assert Char58(Map58(c)) == c;
    }
  }

  lemma CharInverse(d: nat)
    requires d < 58
    ensures Map58(Char58(d)) == d && !IsSpace(Char58(d)) && Char58(d) as int != 0
  {
  }

  lemma MapInverse(c: char)
    requires Map58(c) != -1
    ensures Char58(Map58(c)) == c && !IsSpace(c) && c as int != 0
  {
  }

  function Chars(ds: seq<nat>): (s: string)
    requires Digits(58, ds)
    ensures |s| == |ds| && forall i :: 0 <= i < |s| ==> s[i] == Char58(ds[i])
  {
    if ds == [] then [] else Chars(ds[..|ds| - 1]) + [Char58(ds[|ds| - 1])]
  }

  predicate AllBase58(s: string) {
    forall i :: 0 <= i < |s| ==> Map58(s[i]) != -1
  }

  function DigitsOf(s: string): (ds: seq<nat>)
    requires AllBase58(s)
    ensures |ds| == |s| && Digits(58, ds) && forall i :: 0 <= i < |ds| ==> ds[i] == Map58(s[i])
  {
    if s == [] then [] else DigitsOf(s[..|s| - 1]) + [Map58(s[|s| - 1])]
  }

  lemma CharsBack(ds: seq<nat>)
    requires Digits(58, ds)
    ensures AllBase58(Chars(ds)) && DigitsOf(Chars(ds)) == ds
  {
    forall i | 0 <= i < |ds|
      ensures Map58(Chars(ds)[i]) == ds[i]
    {
      CharInverse(ds[i]);
    }
  }

  lemma DigitsBack(s: string)
    requires AllBase58(s)
    ensures Chars(DigitsOf(s)) == s
  {
    forall i | 0 <= i < |s|
      ensures Chars(DigitsOf(s))[i] == s[i]
    {
      MapInverse(s[i]);
    }
  }

  // ---------------------------------------------------------------- the codec

  function Encode(bytes: seq<nat>): string
  {
    ConvertDigits(256, 58, bytes);
    Chars(Convert(256, 58, bytes))
  }

  function TrimLeft(s: string): string {
    if s != [] && IsSpace(s[0]) then TrimLeft(s[1..]) else s
  }

  function TrimRight(s: string): string {
    if s != [] && IsSpace(s[|s| - 1]) then TrimRight(s[..|s| - 1]) else s
  }

  predicate HasNull(s: string) {
    exists i :: 0 <= i < |s| && s[i] as int == 0
  }

  /** The bytes of a string between spaces, at most `limit` of them; the limit is not applied to an empty text. */
  function Decode(s: string, limit: int): Option<seq<nat>> {
    var body := TrimRight(TrimLeft(s));
    if HasNull(s) || !AllBase58(body) then None else
      var bytes := Convert(58, 256, DigitsOf(body));
      if body != [] && |bytes| > limit then None else Some(bytes)
  }

  lemma TrimPlain(s: string)
    requires AllBase58(s)
    ensures TrimRight(TrimLeft(s)) == s && !HasNull(s)
  {
    forall i | 0 <= i < |s|
      ensures !IsSpace(s[i]) && s[i] as int != 0
    {
      MapInverse(s[i]);
    }
  }

  /** Every byte string survives encoding and decoding, if it is within the limit; the empty one always does. */
  lemma DecodeEncode(bytes: seq<nat>, limit: int)
    requires Digits(256, bytes)
    ensures Decode(Encode(bytes), limit) == if bytes == [] || |bytes| <= limit then Some(bytes) else None
  {
    var ds := Convert(256, 58, bytes);
    ConvertDigits(256, 58, bytes);
    CharsBack(ds);
    TrimPlain(Chars(ds));
    ConvertInverse(256, 58, bytes);
    EmptyConvert(bytes, ds);
    hide Convert, Chars, DigitsOf, TrimLeft, TrimRight, AllBase58, HasNull;
  }

  lemma EmptyConvert(bytes: seq<nat>, ds: seq<nat>)
    requires Digits(256, bytes) && ds == Convert(256, 58, bytes)
    ensures ds == [] <==> bytes == []
  {
    ConvertInverse(256, 58, bytes);
    assert Convert(58, 256, []) == [];
    assert Convert(256, 58, []) == [];
  }

  /** Encoding what was decoded gives back the text between the spaces: each byte string has one text. */
  lemma EncodeDecode(s: string, limit: int)
    requires Decode(s, limit).Some?
    ensures Encode(Decode(s, limit).value) == TrimRight(TrimLeft(s))
  {
    var body := TrimRight(TrimLeft(s));
    DigitsBack(body);
    ConvertInverse(58, 256, DigitsOf(body));
    hide Convert, Chars, DigitsOf, TrimLeft, TrimRight, AllBase58, HasNull;
  }
}
