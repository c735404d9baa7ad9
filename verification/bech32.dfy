/** Bech32 encoding and decoding, src/bech32.cpp. */
module Bech32 {
  import opened Wrappers
  import opened Bech32Checksum
  import opened Bech32Bch
  import opened Bech32Four
  import opened Bech32Charset

  // ---------------------------------------------------------------- the human-readable part

  /** A number below 32 as a symbol. */
  function SymbolOf(n: nat): Symbol
    requires n < 32
  {
    if n == 0 then 0 else Xor(if n % 2 == 1 then 1 else 0, Twice(SymbolOf(n / 2)))
  }

  /** A symbol moved up by one bit, within five bits. */
  function Twice(v: Symbol): Symbol {
    (v << 1) & 31
  }

  /** The upper bits of every character, a zero, and the lower bits of every character. */
  function ExpandHRP(hrp: string): (r: seq<Symbol>)
    ensures |r| == 2 * |hrp| + 1
  {
    UpperBits(hrp) + [0] + LowerBits(hrp)
  }

  function UpperBits(hrp: string): (r: seq<Symbol>)
    ensures |r| == |hrp| && forall i :: 0 <= i < |r| ==> r[i] == SymbolOf(hrp[i] as int % 256 / 32)
  {
    if hrp == [] then [] else UpperBits(hrp[..|hrp| - 1]) + [SymbolOf(hrp[|hrp| - 1] as int % 256 / 32)]
  }

  function LowerBits(hrp: string): (r: seq<Symbol>)
    ensures |r| == |hrp| && forall i :: 0 <= i < |r| ==> r[i] == SymbolOf(hrp[i] as int % 32)
  {
    if hrp == [] then [] else LowerBits(hrp[..|hrp| - 1]) + [SymbolOf(hrp[|hrp| - 1] as int % 32)]
  }

  lemma SymbolBounds(n: nat)
    requires n < 16
    ensures SymbolOf(n) < 16
  {
    assert SymbolOf(0) == 0 && SymbolOf(1) == 1 && SymbolOf(2) == 2 && SymbolOf(3) == 3;
    assert SymbolOf(4) == 4 && SymbolOf(5) == 5 && SymbolOf(6) == 6 && SymbolOf(7) == 7;
    hide Twice, Xor;
    TwiceBound(SymbolOf(n / 2), n);
  }

  lemma TwiceBound(x: Symbol, n: nat)
    requires x < 8
    ensures Xor(if n % 2 == 1 then 1 else 0, Twice(x)) < 16
  {
  }

  lemma TwiceInjective(x: Symbol, y: Symbol, b: bool, c: bool)
    requires x < 16 && y < 16 && Xor(if b then 1 else 0, Twice(x)) == Xor(if c then 1 else 0, Twice(y))
    ensures x == y && b == c
  {
  }

  /** Different numbers are different symbols. */
  lemma {:induction false} SymbolOfInjective(m: nat, n: nat)
    requires m < 32 && n < 32 && SymbolOf(m) == SymbolOf(n)
    ensures m == n
  {
    SymbolForm(m);
    SymbolForm(n);
    SymbolBounds(m / 2);
    SymbolBounds(n / 2);
    hide SymbolOf, Xor, Twice;
    TwiceInjective(SymbolOf(m / 2), SymbolOf(n / 2), m % 2 == 1, n % 2 == 1);
    if m != n {
      SymbolOfInjective(m / 2, n / 2);
    }
  }

  lemma SymbolForm(n: nat)
    requires n < 32
    ensures SymbolOf(n) == Xor(if n % 2 == 1 then 1 else 0, Twice(SymbolOf(n / 2)))
  {
    assert Twice(0) == 0 && Xor(0, 0) == 0;
    hide Xor, Twice;
  }

  /** The checksum sees every bit of the human-readable part. */
  lemma ExpandInjective(g: string, h: string)
    requires (forall i :: 0 <= i < |g| ==> g[i] as int < 256) && (forall i :: 0 <= i < |h| ==> h[i] as int < 256)
    requires ExpandHRP(g) == ExpandHRP(h)
    ensures g == h
  {
    assert |g| == |h|;
    assert UpperBits(g) == ExpandHRP(g)[..|g|] && UpperBits(h) == ExpandHRP(h)[..|g|];
    assert LowerBits(g) == ExpandHRP(g)[|g| + 1..] && LowerBits(h) == ExpandHRP(h)[|g| + 1..];
    forall i | 0 <= i < |g|
      ensures g[i] == h[i]
    {
      assert UpperBits(g)[i] == UpperBits(h)[i] && LowerBits(g)[i] == LowerBits(h)[i];
      hide SymbolOf, ExpandHRP;
      CharacterSeen(g[i], h[i]);
    }
  }

  lemma CharacterSeen(a: char, b: char)
    requires a as int < 256 && b as int < 256
    requires SymbolOf(a as int % 256 / 32) == SymbolOf(b as int % 256 / 32)
    requires SymbolOf(a as int % 32) == SymbolOf(b as int % 32)
    ensures a == b
  {
    hide SymbolOf;
    SymbolOfInjective(a as int % 256 / 32, b as int % 256 / 32);
    SymbolOfInjective(a as int % 32, b as int % 32);
  }

  // ---------------------------------------------------------------- encoding

  predicate NoUpper(s: string) {
    forall i :: 0 <= i < |s| ==> !IsUpper(s[i])
  }

  function Letters(v: seq<Symbol>): (s: string)
    ensures |s| == |v|
  {
    if v == [] then [] else Letters(v[..|v| - 1]) + [Charset(v[|v| - 1])]
  }

  lemma {:induction false} LetterAt(v: seq<Symbol>, i: nat)
    requires i < |v|
    ensures Letters(v)[i] == Charset(v[i])
  {
    hide Charset;
    if i < |v| - 1 {
      LetterAt(v[..|v| - 1], i);
    }
  }

  function Encode(hrp: string, values: seq<Symbol>): string
    requires NoUpper(hrp)
  {
    hrp + "1" + Letters(values + Checksum(ExpandHRP(hrp) + values))
  }

  // ---------------------------------------------------------------- decoding

  datatype Decoded = Decoded(hrp: string, values: seq<Symbol>)

  predicate AllOk(s: string) { forall i :: 0 <= i < |s| ==> CharOk(s[i]) }
  predicate HasLower(s: string) { exists i :: 0 <= i < |s| && IsLower(s[i]) }
  predicate HasUpper(s: string) { exists i :: 0 <= i < |s| && IsUpper(s[i]) }

  /** The position of the last separator, or minus one. */
  function LastOne(s: string): (p: int)
    ensures -1 <= p < |s|
    ensures p >= 0 ==> s[p] == '1'
    ensures forall i :: p < i < |s| ==> s[i] != '1'
  {
    if s == [] then -1 else if s[|s| - 1] == '1' then |s| - 1 else LastOne(s[..|s| - 1])
  }

  predicate AllSymbols(s: string) { forall i :: 0 <= i < |s| ==> CharsetRev(s[i]).Some? }

  function Symbols(s: string): (v: seq<Symbol>)
    requires AllSymbols(s)
    ensures |v| == |s|
  {
    if s == [] then [] else Symbols(s[..|s| - 1]) + [CharsetRev(s[|s| - 1]).value]
  }

  lemma {:induction false} SymbolAt(s: string, i: nat)
    requires AllSymbols(s) && i < |s|
    ensures CharsetRev(s[i]) == Some(Symbols(s)[i])
  {
    hide CharsetRev;
    if i < |s| - 1 {
      SymbolAt(s[..|s| - 1], i);
    }
  }

  function LowerAll(s: string): (r: string)
    ensures |r| == |s|
  {
    if s == [] then [] else LowerAll(s[..|s| - 1]) + [LowerCase(s[|s| - 1])]
  }

  lemma {:induction false} LowerAt(s: string, i: nat)
    requires i < |s|
    ensures LowerAll(s)[i] == LowerCase(s[i])
  {
    if i < |s| - 1 {
      LowerAt(s[..|s| - 1], i);
    }
  }

  /** The string has the right characters, case, length and separator. */
  predicate WellFormed(s: string) {
    && AllOk(s) && !(HasLower(s) && HasUpper(s))
    && |s| <= 90 && 1 <= LastOne(s) && LastOne(s) + 7 <= |s|
    && AllSymbols(s[LastOne(s) + 1..])
  }

  function Decode(s: string): Option<Decoded> {
    if !WellFormed(s) then None else
      var values := Symbols(s[LastOne(s) + 1..]);
      var hrp := LowerAll(s[..LastOne(s)]);
      if Verifies(ExpandHRP(hrp) + values) then Some(Decoded(hrp, values[..|values| - 6])) else None
  }

  // ---------------------------------------------------------------- round trips

  /** What can be sent: a printable human-readable part and a total of at most 90 characters. */
  predicate Legal(hrp: string, values: seq<Symbol>) {
    hrp != [] && AllOk(hrp) && |hrp| + 1 + |values| + 6 <= 90
  }

  /** No upper case, nothing unprintable and no separator. */
  ghost predicate AllPlain(s: string) {
    forall i :: 0 <= i < |s| ==> Plain(s[i])
  }

  lemma LettersBack(v: seq<Symbol>)
    ensures AllSymbols(Letters(v)) && Symbols(Letters(v)) == v
    ensures AllPlain(Letters(v))
  {
    hide CharsetRev, Charset, Plain;
    var s := Letters(v);
    forall i | 0 <= i < |v|
      ensures CharsetRev(s[i]) == Some(v[i]) && Plain(s[i])
    {
      LetterAt(v, i);
      CharsetInverts(v[i]);
    }
    forall i | 0 <= i < |v|
      ensures Symbols(s)[i] == v[i]
    {
      SymbolAt(s, i);
    }
  }

  lemma LastOneAt(s: string, p: nat)
    requires p < |s| && s[p] == '1' && forall i :: p < i < |s| ==> s[i] != '1'
    ensures LastOne(s) == p
  {
  }

  lemma LowerSame(s: string)
    requires NoUpper(s)
    ensures LowerAll(s) == s
  {
    forall i | 0 <= i < |s|
      ensures LowerAll(s)[i] == s[i]
    {
      LowerAt(s, i);
    }
  }

  /** Plain characters after the separator: where the separator is and which characters there are. */
  lemma JoinShape(hrp: string, tail: string)
    requires NoUpper(hrp) && AllPlain(tail)
    ensures
      var s := hrp + "1" + tail;
      && |s| == |hrp| + 1 + |tail| && LastOne(s) == |hrp| && s[..|hrp|] == hrp && s[|hrp| + 1..] == tail
      && NoUpper(s) && (AllOk(s) <==> AllOk(hrp))
  {
    var s := hrp + "1" + tail;
    assert s[|hrp|] == '1';
    forall i | |hrp| < i < |s|
      ensures Plain(s[i])
    {
      assert s[i] == tail[i - |hrp| - 1];
    }
    LastOneAt(s, |hrp|);
    assert forall i :: 0 <= i < |hrp| ==> s[i] == hrp[i];
  }

  lemma NoCaseMix(s: string)
    requires NoUpper(s)
    ensures !HasUpper(s)
  {
  }

  /** Decoding an encoded string gives back what was encoded, exactly if that was legal. */
  lemma RoundTrip(hrp: string, values: seq<Symbol>)
    requires NoUpper(hrp)
    ensures Decode(Encode(hrp, values)) == if Legal(hrp, values) then Some(Decoded(hrp, values)) else None
  {
    hide Checksum, ExpandHRP, Letters, Symbols, AllSymbols, LowerAll, LastOne, Verifies, AllOk, NoUpper, HasUpper,
         HasLower, AllPlain;
    var check := Checksum(ExpandHRP(hrp) + values);
    var all := values + check;
    LettersBack(all);
    JoinShape(hrp, Letters(all));
    NoCaseMix(Encode(hrp, values));
    LowerSame(hrp);
    ChecksumExact(ExpandHRP(hrp) + values, check);
    assert ExpandHRP(hrp) + all == ExpandHRP(hrp) + values + check;
    assert all[..|all| - 6] == values;
  }

  lemma LowerNoUpper(s: string)
    ensures NoUpper(LowerAll(s))
  {
    forall i | 0 <= i < |s|
      ensures !IsUpper(LowerAll(s)[i])
    {
      LowerAt(s, i);
    }
  }

  /** Encoding the symbols of a string again gives the string in lower case. */
  lemma LettersOfSymbols(s: string)
    requires AllSymbols(s)
    ensures Letters(Symbols(s)) == LowerAll(s)
  {
    hide CharsetRev, Charset, LowerCase;
    var v := Symbols(s);
    forall i | 0 <= i < |s|
      ensures Letters(v)[i] == LowerAll(s)[i]
    {
      LetterAt(v, i);
      LowerAt(s, i);
      SymbolAt(s, i);
      CharsetRevInverts(s[i]);
    }
  }

  lemma {:induction false} LowerJoin(s: string, p: nat)
    requires p < |s| && s[p] == '1'
    ensures LowerAll(s) == LowerAll(s[..p]) + "1" + LowerAll(s[p + 1..])
  {
    var r := LowerAll(s[..p]) + "1" + LowerAll(s[p + 1..]);
    forall i | 0 <= i < |s|
      ensures LowerAll(s)[i] == r[i]
    {
      LowerAt(s, i);
      if i < p {
        LowerAt(s[..p], i);
      } else if i > p {
        LowerAt(s[p + 1..], i - p - 1);
      }
    }
  }

  /** What a successful decoding found. */
  lemma DecodeParts(s: string) returns (p: nat, hrp: string, all: seq<Symbol>)
    requires Decode(s).Some?
    ensures 1 <= p == LastOne(s) && p + 7 <= |s| <= 90 && s[p] == '1' && AllOk(s)
    ensures AllSymbols(s[p + 1..]) && all == Symbols(s[p + 1..]) && hrp == LowerAll(s[..p])
    ensures Verifies(ExpandHRP(hrp) + all) && Decode(s).value == Decoded(hrp, all[..|all| - 6])
  {
    hide Verifies, ExpandHRP, Symbols, AllSymbols, LowerAll;
    p := LastOne(s);
    hrp := LowerAll(s[..p]);
    all := Symbols(s[p + 1..]);
  }

  lemma EncodeIs(hrp: string, values: seq<Symbol>, all: seq<Symbol>)
    requires NoUpper(hrp) && all == values + Checksum(ExpandHRP(hrp) + values)
    ensures Encode(hrp, values) == hrp + "1" + Letters(all)
  {
    hide NoUpper, Checksum, ExpandHRP, Letters;
  }

  /** Encoding what was decoded gives the string back, in lower case: there is one string for each content. */
  lemma Canonical(s: string)
    requires Decode(s).Some?
    ensures
      var d := Decode(s).value;
      NoUpper(d.hrp) && Legal(d.hrp, d.values) && Encode(d.hrp, d.values) == LowerAll(s)
  {
    hide Checksum, ExpandHRP, Letters, Symbols, AllSymbols, LowerAll, AllOk, NoUpper, Decode, Encode, Verifies;
    var p, hrp, all := DecodeParts(s);
    LowerNoUpper(s[..p]);
    LowerOk(s, p);
    LettersOfSymbols(s[p + 1..]);
    LowerJoin(s, p);
    SplitChecksum(ExpandHRP(hrp), all);
    EncodeIs(hrp, all[..|all| - 6], all);
  }

  /** A list that verifies ends in its own checksum. */
  lemma SplitChecksum(e: seq<Symbol>, all: seq<Symbol>)
    requires |all| >= 6 && Verifies(e + all)
    ensures all == all[..|all| - 6] + Checksum(e + all[..|all| - 6])
  {
    hide Checksum, Verifies;
    var values, check := all[..|all| - 6], all[|all| - 6..];
    assert all == values + check;
    assert e + all == e + values + check;
    ChecksumExact(e + values, check);
  }

  lemma LowerOk(s: string, p: nat)
    requires AllOk(s) && p <= |s|
    ensures AllOk(LowerAll(s[..p]))
  {
    forall i | 0 <= i < p
      ensures CharOk(LowerAll(s[..p])[i])
    {
      LowerAt(s[..p], i);
    }
  }

  // ---------------------------------------------------------------- errors

  /** Up to case, two strings differ at most in four places. */
  ghost predicate Alike(s: string, t: string, h: nat, i: nat, j: nat, k: nat) {
    && |s| == |t|
    && forall n :: 0 <= n < |s| && n != h && n != i && n != j && n != k ==> LowerCase(s[n]) == LowerCase(t[n])
  }

  /** Two lists differ, and at most in four places. */
  ghost predicate Twins(u: seq<Symbol>, w: seq<Symbol>, h: nat, i: nat, j: nat, k: nat) {
    |u| == |w| && u != w && forall n :: 0 <= n < |u| && n != h && n != i && n != j && n != k ==> u[n] == w[n]
  }

  /** Two strings with the same separator that differ, beyond case, in up to four characters after it are not both
      valid. */
  lemma SubstitutionDetected(s: string, t: string, h: nat, i: nat, j: nat, k: nat)
    requires Alike(s, t, h, i, j, k) && LastOne(s) == LastOne(t) && LastOne(s) < h < i < j < k < |s|
    requires LowerAll(s) != LowerAll(t)
    ensures !(Decode(s).Some? && Decode(t).Some?)
  {
    hide Decode, Symbols, AllSymbols, LowerAll, LastOne, ExpandHRP, Verifies, AllOk, Alike, Twins;
    if Decode(s).Some? && Decode(t).Some? {
      var p, hrp, u := DecodeParts(s);
      var q, g, w := DecodeParts(t);
      SamePrefix(s, t, p, h, i, j, k);
      SymbolsDiffer(s, t, p, h, i, j, k);
      FourAfter(ExpandHRP(hrp), u, w, h - p - 1, i - p - 1, j - p - 1, k - p - 1);
    }
  }

  lemma FourAfter(e: seq<Symbol>, u: seq<Symbol>, w: seq<Symbol>, h: nat, i: nat, j: nat, k: nat)
    requires Twins(u, w, h, i, j, k) && h < i < j < k < |u| && k - h <= 88
    ensures !(Verifies(e + u) && Verifies(e + w))
  {
    hide Verifies;
    assert (e + u)[|e|..] == u && (e + w)[|e|..] == w;
    FourDetected(e + u, e + w, |e| + h, |e| + i, |e| + j, |e| + k);
  }

  lemma SamePrefix(s: string, t: string, p: nat, h: nat, i: nat, j: nat, k: nat)
    requires Alike(s, t, h, i, j, k) && p <= |s| && p <= h && p <= i && p <= j && p <= k
    ensures LowerAll(s[..p]) == LowerAll(t[..p])
  {
    forall n | 0 <= n < p
      ensures LowerAll(s[..p])[n] == LowerAll(t[..p])[n]
    {
      LowerAt(s[..p], n);
      LowerAt(t[..p], n);
    }
  }

  /** The symbols of the two strings differ, and only where the characters do. */
  lemma SymbolsDiffer(s: string, t: string, p: nat, h: nat, i: nat, j: nat, k: nat)
    requires Alike(s, t, h, i, j, k) && p < h < i < j < k < |s| && AllSymbols(s[p + 1..]) && AllSymbols(t[p + 1..])
    requires s[p] == t[p] == '1' && LowerAll(s) != LowerAll(t)
    ensures Twins(Symbols(s[p + 1..]), Symbols(t[p + 1..]), h - p - 1, i - p - 1, j - p - 1, k - p - 1)
  {
    hide CharsetRev, LowerCase, Letters, LowerAll;
    var a, b := s[p + 1..], t[p + 1..];
    var u, w := Symbols(a), Symbols(b);
    LettersOfSymbols(a);
    LettersOfSymbols(b);
    LowerJoin(s, p);
    LowerJoin(t, p);
    SamePrefix(s, t, p, h, i, j, k);
    forall n | 0 <= n < |u| && n != h - p - 1 && n != i - p - 1 && n != j - p - 1 && n != k - p - 1
      ensures u[n] == w[n]
    {
      SymbolAt(a, n);
      SymbolAt(b, n);
      RevCase(s[p + 1 + n], t[p + 1 + n]);
    }
  }

  /** Two expansions differ only where the upper and the lower bits of the one character are. */
  lemma ExpandTwins(g: string, h: string, i: nat)
    requires |g| == |h| && i < |g| && forall n :: 0 <= n < |g| && n != i ==> g[n] == h[n]
    ensures |ExpandHRP(g)| == |ExpandHRP(h)| == 2 * |g| + 1
    ensures forall n :: 0 <= n < 2 * |g| + 1 && n != i && n != |g| + 1 + i ==> ExpandHRP(g)[n] == ExpandHRP(h)[n]
  {
    hide SymbolOf;
    forall n | 0 <= n < 2 * |g| + 1 && n != i && n != |g| + 1 + i
      ensures ExpandHRP(g)[n] == ExpandHRP(h)[n]
    {
      if n < |g| {
        assert ExpandHRP(g)[n] == UpperBits(g)[n] && ExpandHRP(h)[n] == UpperBits(h)[n];
      } else if n > |g| {
        assert ExpandHRP(g)[n] == LowerBits(g)[n - |g| - 1] && ExpandHRP(h)[n] == LowerBits(h)[n - |g| - 1];
      }
    }
  }

  /** One character of the human-readable part and one symbol may differ: that is at most three symbols in all. */
  lemma PrefixTwins(g: string, h: string, u: seq<Symbol>, w: seq<Symbol>, i: nat, k: nat)
    requires |g| == |h| && i < |g| && forall n :: 0 <= n < |g| && n != i ==> g[n] == h[n]
    requires |u| == |w| && k < |u| && forall n :: 0 <= n < |u| && n != k ==> u[n] == w[n]
    requires 2 * |g| + |u| < 1023 && ExpandHRP(g) + u != ExpandHRP(h) + w
    ensures !(Verifies(ExpandHRP(g) + u) && Verifies(ExpandHRP(h) + w))
  {
    ExpandTwins(g, h, i);
    hide ExpandHRP, Verifies;
    TripleDetected(ExpandHRP(g) + u, ExpandHRP(h) + w, i, |g| + 1 + i, 2 * |g| + 1 + k);
  }

  lemma PrefixLetters(s: string, t: string, p: nat, i: nat, j: nat)
    requires Alike(s, t, i, j, j, j) && i < p < j < |s|
    ensures forall n :: 0 <= n < p && n != i ==> LowerAll(s[..p])[n] == LowerAll(t[..p])[n]
  {
    hide LowerCase;
    forall n | 0 <= n < p && n != i
      ensures LowerAll(s[..p])[n] == LowerAll(t[..p])[n]
    {
      LowerAt(s[..p], n);
      LowerAt(t[..p], n);
    }
  }

  lemma TailSymbols(a: string, b: string, k: nat)
    requires |a| == |b| && AllSymbols(a) && AllSymbols(b) && forall n ::
      0 <= n < |a| && n != k ==> LowerCase(a[n]) == LowerCase(b[n])
    ensures forall n :: 0 <= n < |a| && n != k ==> Symbols(a)[n] == Symbols(b)[n]
  {
    hide CharsetRev, LowerCase;
    forall n | 0 <= n < |a| && n != k
      ensures Symbols(a)[n] == Symbols(b)[n]
    {
      SymbolAt(a, n);
      SymbolAt(b, n);
      RevCase(a[n], b[n]);
    }
  }

  /** Equal parts make equal strings, up to case. */
  lemma PartsDecide(s: string, t: string, p: nat)
    requires p < |s| && p < |t| && s[p] == t[p] == '1' && AllSymbols(s[p + 1..]) && AllSymbols(t[p + 1..])
    requires LowerAll(s[..p]) == LowerAll(t[..p]) && Symbols(s[p + 1..]) == Symbols(t[p + 1..])
    ensures LowerAll(s) == LowerAll(t)
  {
    hide LowerAll, Letters, Symbols, AllSymbols;
    LettersOfSymbols(s[p + 1..]);
    LettersOfSymbols(t[p + 1..]);
    LowerJoin(s, p);
    LowerJoin(t, p);
  }

  lemma SumDecides(e: seq<Symbol>, f: seq<Symbol>, u: seq<Symbol>, w: seq<Symbol>)
    requires |e| == |f| && e + u == f + w
    ensures e == f && u == w
  {
    assert (e + u)[..|e|] == e && (f + w)[..|f|] == f;
    assert (e + u)[|e|..] == u && (f + w)[|f|..] == w;
  }

  lemma SmallCharacters(g: string)
    requires AllOk(g)
    ensures forall i :: 0 <= i < |g| ==> g[i] as int < 256
  {}

  /** Two strings with the same separator that differ, beyond case, in up to one character before it and up to one
      after it are not both valid. */
  lemma PrefixSubstitutionDetected(s: string, t: string, i: nat, j: nat)
    requires Alike(s, t, i, j, j, j) && LastOne(s) == LastOne(t) && i < LastOne(s) < j < |s|
    requires LowerAll(s) != LowerAll(t)
    ensures !(Decode(s).Some? && Decode(t).Some?)
  {
    hide Decode, Symbols, AllSymbols, LowerAll, LastOne, ExpandHRP, Verifies, AllOk;
    if Decode(s).Some? && Decode(t).Some? {
      var p, g, u := DecodeParts(s);
      var q, h, w := DecodeParts(t);
      PrefixLetters(s, t, p, i, j);
      TailSymbols(s[p + 1..], t[p + 1..], j - p - 1);
      hide Alike;
      LowerOk(s, p);
      LowerOk(t, p);
      SmallCharacters(g);
      SmallCharacters(h);
      if ExpandHRP(g) + u == ExpandHRP(h) + w {
        SumDecides(ExpandHRP(g), ExpandHRP(h), u, w);
        ExpandInjective(g, h);
        PartsDecide(s, t, p);
      }
      PrefixTwins(g, h, u, w, i, j - p - 1);
    }
  }

  /** Two strings with the same separator that differ, beyond case, in one character are not both valid. */
  lemma CharacterDetected(s: string, t: string, i: nat)
    requires |s| == |t| && i < |s| && i != LastOne(s) == LastOne(t)
    requires (forall n :: 0 <= n < |s| && n != i ==> LowerCase(s[n]) == LowerCase(t[n])) && LowerAll(s) != LowerAll(t)
    ensures !(Decode(s).Some? && Decode(t).Some?)
  {
    hide Decode, LowerAll, LastOne, LowerCase;
    if Decode(s).Some? && Decode(t).Some? {
      var p, hrp, u := DecodeParts(s);
      if i < p {
        PrefixSubstitutionDetected(s, t, i, p + 1);
      } else if i + 3 < |s| {
        SubstitutionDetected(s, t, i, i + 1, i + 2, i + 3);
      } else {
        SubstitutionDetected(s, t, i - 3, i - 2, i - 1, i);
      }
    }
  }

  lemma RevCase(c: char, d: char)
    requires LowerCase(c) == LowerCase(d)
    ensures CharsetRev(c) == CharsetRev(d)
  {
    hide Position, LowerCase;
  }

  // ---------------------------------------------------------------- a known text

  lemma KnownSteps()
    ensures Step(1, 3) == 0x23 && Step(0x23, 0) == 0x460 && Step(0x460, 1) == 0x8c01
    ensures Step(0x8c01, 10) == 0x11802a && Step(0x11802a, 28) == 0x230055c && Step(0x230055c, 25) == 0x3d6afc2b
    ensures Step(0x3d6afc2b, 31) == 0x2f84386 && Step(0x2f84386, 20) == 0x24622766 && Step(0x24622766, 31) == 1
  {
  }

  /** The rounds of PolyMod, one by one. */
  lemma {:induction false} Rounds(v: seq<Symbol>, c: seq<bv32>)
    requires |c| == |v| + 1 && c[0] == 1 && forall i :: 0 <= i < |v| ==> c[i + 1] == Step(c[i], v[i])
    ensures PolyMod(v) == c[|v|]
  {
    hide Step;
    if v != [] {
      Rounds(v[..|v| - 1], c[..|v|]);
    }
  }

  lemma KnownSum(v: seq<Symbol>)
    requires v == [3, 0, 1, 10, 28, 25, 31, 20, 31]
    ensures Verifies(v)
  {
    KnownSteps();
    hide Step;
    Rounds(v, [1, 0x23, 0x460, 0x8c01, 0x11802a, 0x230055c, 0x3d6afc2b, 0x2f84386, 0x24622766, 1]);
  }

  lemma KnownLetters()
    ensures CharsetRev('2') == Some(10 as Symbol) && CharsetRev('5') == Some(20 as Symbol)
    ensures CharsetRev('u') == Some(28 as Symbol) && CharsetRev('U') == Some(28 as Symbol)
    ensures CharsetRev('e') == Some(25 as Symbol) && CharsetRev('E') == Some(25 as Symbol)
    ensures CharsetRev('l') == Some(31 as Symbol) && CharsetRev('L') == Some(31 as Symbol)
  {
  }

  lemma KnownSymbols(s: string)
    requires s == "2uel5l" || s == "2UEL5L"
    ensures AllSymbols(s) && Symbols(s) == [10, 28, 25, 31, 20, 31]
  {
    KnownLetters();
    hide CharsetRev;
    assert AllSymbols(s);
    SymbolAt(s, 0);
    SymbolAt(s, 1);
    SymbolAt(s, 2);
    SymbolAt(s, 3);
    SymbolAt(s, 4);
    SymbolAt(s, 5);
    hide Symbols;
  }

  lemma KnownPrefix()
    ensures ExpandHRP("a") == [3, 0, 1]
  {
    assert SymbolOf(0) == 0 && SymbolOf(1) == 1 && SymbolOf(3) == 3;
    hide SymbolOf;
    assert 'a' as int % 256 / 32 == 3 && 'a' as int % 32 == 1;
    assert UpperBits("a")[0] == SymbolOf(3) && LowerBits("a")[0] == SymbolOf(1);
  }

  lemma KnownForm(s: string)
    requires s == "a12uel5l" || s == "A12UEL5L"
    ensures WellFormed(s) && LastOne(s) == 1 && s[2..] == (if s[0] == 'a' then "2uel5l" else "2UEL5L")
    ensures LowerAll(s[..1]) == "a"
  {
    hide Symbols, AllSymbols;
    LastOneAt(s, 1);
    hide LastOne;
    KnownSymbols(s[2..]);
    LowerAt(s[..1], 0);
    hide LowerAll;
  }

  /** The shortest text the source takes as an example decodes in either case. */
  lemma KnownText(s: string)
    requires s == "a12uel5l" || s == "A12UEL5L"
    ensures Decode(s) == Some(Decoded("a", []))
  {
    hide ExpandHRP, Verifies, Symbols, AllSymbols, WellFormed, LastOne, LowerAll;
    KnownForm(s);
    KnownPrefix();
    KnownSymbols(s[2..]);
    KnownSum([3, 0, 1] + [10, 28, 25, 31, 20, 31]);
  }

  /** What can be decoded is printable, in one case, and has 8 to 90 characters, the last separator before the last
      six of them and after the first. */
  lemma Readable(s: string, i: nat, j: nat)
    requires i < |s| && j < |s| && Decode(s).Some?
    ensures 8 <= |s| <= 90 && 33 <= s[i] as int <= 126
    ensures !('a' <= s[i] <= 'z' && 'A' <= s[j] <= 'Z')
    ensures exists k :: 1 <= k < |s| - 6 && s[k] == '1' && '1' !in s[k + 1..]
  {
    var k := LastOne(s);
    assert 1 <= k < |s| - 6 && s[k] == '1' && '1' !in s[k + 1..];
  }
}
