/** The loops of src/bech32.cpp, each proved to compute its specification. */
module Bech32Code {
  import opened Wrappers
  import opened Bech32Checksum
  import opened Bech32Charset
  import opened Bech32

  lemma XorLast(a: bv32, v: bv32, k: bv32)
    ensures Xor(Xor(a, v), k) == Xor(Xor(a, k), v)
  {
    hide Xor;
    XorAssoc(a, v, k);
    XorSwap(v, k);
    XorAssoc(a, k, v);
  }

  /** Adds a multiple of the generator if its bit of the old top symbol is set. */
  method Fold(c: bv32, was: bv32, bit: bv32, k: bv32, ghost sum: bv32, ghost v: bv32) returns (r: bv32)
    requires c == Xor(sum, v)
    ensures r == Xor(Xor(sum, Chosen(was, bit, k)), v)
  {
    hide Xor, TopBit;
    XorLast(sum, v, k);
    XorSelf(sum);
    if TopBit(was, bit) {
      r := Xor(c, k);
    } else {
      r := c;
    }
  }

  /** One round of the PolyMod loop. */
  method Round(c: bv32, v: Symbol) returns (r: bv32)
    ensures r == Step(c, v)
  {
    hide Xor, Chosen, Raised;
    r := Xor(Raised(c), v);
    ghost var sum := Raised(c);
    r := Fold(r, c, 1, 0x3b6a57b2, sum, v);
    sum := Xor(sum, Chosen(c, 1, 0x3b6a57b2));
    r := Fold(r, c, 2, 0x26508e6d, sum, v);
    sum := Xor(sum, Chosen(c, 2, 0x26508e6d));
    r := Fold(r, c, 4, 0x1ea119fa, sum, v);
    sum := Xor(sum, Chosen(c, 4, 0x1ea119fa));
    r := Fold(r, c, 8, 0x3d4233dd, sum, v);
    sum := Xor(sum, Chosen(c, 8, 0x3d4233dd));
    r := Fold(r, c, 16, 0x2a1462b3, sum, v);
  }

  method ComputePolyMod(v: seq<Symbol>) returns (c: bv32)
    ensures c == PolyMod(v)
  {
    hide Step;
    c := 1;
    for i := 0 to |v|
      invariant c == From(1, v[..i])
    {
      assert v[..i + 1][..i] == v[..i];
      c := Round(c, v[i]);
    }
    assert v[..|v|] == v;
  }

  method Expand(hrp: string) returns (ret: seq<Symbol>)
    ensures ret == ExpandHRP(hrp)
  {
    hide SymbolOf;
    ret := Zeros(2 * |hrp| + 1);
    for i := 0 to |hrp|
      invariant |ret| == 2 * |hrp| + 1 && ret[|hrp|] == 0
      invariant forall j :: 0 <= j < i ==> ret[j] == UpperBits(hrp)[j]
      invariant forall j :: 0 <= j < i ==> ret[j + |hrp| + 1] == LowerBits(hrp)[j]
    {
      var c := hrp[i] as int;
      ret := ret[i := SymbolOf(c % 256 / 32)];
      ret := ret[i + |hrp| + 1 := SymbolOf(c % 32)];
    }
    forall k | |hrp| < k < |ret|
      ensures ret[k] == LowerBits(hrp)[k - |hrp| - 1]
    {
      var j := k - |hrp| - 1;
      assert ret[j + |hrp| + 1] == LowerBits(hrp)[j];
    }
  }

  /** A remainder without its last k symbols. */
  function Dropped(c: bv32, k: nat): bv32
    decreases k
  {
    if k == 0 then c else Dropped(Rest(c), k - 1)
  }

  lemma {:induction false} UnpackAt(c: bv32, n: nat, i: nat)
    requires i < n
    ensures Unpack(c, n)[i] == Last(Dropped(c, n - 1 - i))
    decreases n
  {
    hide Rest, Last;
    if i < n - 1 {
      UnpackAt(Rest(c), n - 1, i);
    }
  }

  method CreateChecksum(hrp: string, values: seq<Symbol>) returns (ret: seq<Symbol>)
    ensures ret == Checksum(ExpandHRP(hrp) + values)
  {
    hide ExpandHRP, PolyMod, Xor, Unpack, Rest, Last, Dropped;
    var enc := Expand(hrp);
    enc := enc + values + Zeros(6);
    var mod := ComputePolyMod(enc);
    mod := Xor(mod, 1);
    ret := [];
    for i := 0 to 6
      invariant |ret| == i && forall j :: 0 <= j < i ==> ret[j] == Unpack(mod, 6)[j]
    {
      UnpackAt(mod, 6, i);
      ret := ret + [Last(Dropped(mod, 5 - i))];
    }
  }

  method EncodeString(hrp: string, values: seq<Symbol>) returns (ret: string)
    requires NoUpper(hrp)
    ensures ret == Encode(hrp, values)
  {
    hide ExpandHRP, Checksum, Charset, NoUpper;
    var checksum := CreateChecksum(hrp, values);
    var combined := values + checksum;
    ret := hrp + "1";
    for i := 0 to |combined|
      invariant ret == hrp + "1" + Letters(combined[..i])
    {
      assert combined[..i + 1][..i] == combined[..i];
      ret := ret + [Charset(combined[i])];
    }
    assert combined[..|combined|] == combined;
  }

  /** Whether the characters are acceptable and not of both cases. */
  method CheckCharacters(s: string) returns (ok: bool)
    ensures ok <==> AllOk(s) && !(HasLower(s) && HasUpper(s))
  {
    var lower, upper := false, false;
    for i := 0 to |s|
      invariant forall j :: 0 <= j < i ==> CharOk(s[j])
      invariant lower <==> exists j :: 0 <= j < i && IsLower(s[j])
      invariant upper <==> exists j :: 0 <= j < i && IsUpper(s[j])
    {
      var c := s[i];
      if 'a' <= c <= 'z' {
        assert IsLower(s[i]);
        lower := true;
      } else if 'A' <= c <= 'Z' {
        assert IsUpper(s[i]);
        upper := true;
      } else if c as int < 33 || c as int > 126 {
        assert !CharOk(s[i]);
        return false;
      }
    }
    ok := !(lower && upper);
  }

  /** std::string::rfind of the separator. */
  method FindLastOne(s: string) returns (p: int)
    ensures p == LastOne(s)
  {
    p := |s| - 1;
    while p >= 0 && s[p] != '1'
      invariant -1 <= p < |s| && forall i :: p < i < |s| ==> s[i] != '1'
    {
      p := p - 1;
    }
    if p >= 0 {
      LastOneAt(s, p);
    }
  }

  method ReadSymbols(s: string) returns (ok: bool, values: seq<Symbol>)
    ensures ok <==> AllSymbols(s)
    ensures ok ==> values == Symbols(s)
  {
    hide CharsetRev;
    values := [];
    for i := 0 to |s|
      invariant AllSymbols(s[..i]) && values == Symbols(s[..i])
    {
      assert s[..i + 1][..i] == s[..i];
      var rev := CharsetRev(s[i]);
      if rev.None? {
        return false, values;
      }
      values := values + [rev.value];
    }
    assert s[..|s|] == s;
    ok := true;
  }

  method ToLower(s: string) returns (r: string)
    ensures r == LowerAll(s)
  {
    r := [];
    for i := 0 to |s|
      invariant r == LowerAll(s[..i])
    {
      assert s[..i + 1][..i] == s[..i];
      r := r + [LowerCase(s[i])];
    }
    assert s[..|s|] == s;
  }

  method DecodeString(s: string) returns (r: Option<Decoded>)
    ensures r == Decode(s)
  {
    hide AllOk, HasLower, HasUpper, AllSymbols, Symbols, LowerAll, ExpandHRP, PolyMod;
    var ok := CheckCharacters(s);
    if !ok {
      return None;
    }
    var pos := FindLastOne(s);
    if |s| > 90 || pos == -1 || pos == 0 || pos + 7 > |s| {
      return None;
    }
    var values;
    ok, values := ReadSymbols(s[pos + 1..]);
    if !ok {
      return None;
    }
    var hrp := ToLower(s[..pos]);
    var expanded := Expand(hrp);
    var mod := ComputePolyMod(expanded + values);
    if mod != 1 {
      return None;
    }
    return Some(Decoded(hrp, values[..|values| - 6]));
  }
}
