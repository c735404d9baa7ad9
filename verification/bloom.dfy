/** The rolling bloom filter of src/bloom.cpp: two bit-planes that encode three generations. */
module RollingBloom {
  import opened Numbers

  type Key = seq<bv8>

  /** MurmurHash3 of a seed and a key, taken as a 32-bit word. */
  type Murmur = (nat, Key) -> nat

  // ---------------------------------------------------------------- words

  predicate Bit(w: bv64, b: bv6) {
    (w >> b) & 1 == 1
  }

  function Put(w: bv64, b: bv6, v: bool): bv64 {
    (w & !((1 as bv64) << b)) | ((if v then 1 as bv64 else 0) << b)
  }

  lemma PutSame(w: bv64, b: bv6, v: bool)
    ensures Bit(Put(w, b, v), b) == v
  {
  }

  lemma PutOther(w: bv64, b: bv6, v: bool, c: bv6)
    requires b != c
    ensures Bit(Put(w, b, v), c) == Bit(w, c)
  {
  }

  lemma PutBit(w: bv64, b: bv6, v: bool, c: bv6)
    ensures Bit(Put(w, b, v), c) == if b == c then v else Bit(w, c)
  {
    hide Bit, Put;
    PutSame(w, b, v);
    if b != c {
      PutOther(w, b, v, c);
    }
  }

  /** All ones or all zeros. */
  function Spread(v: bool): bv64 {
    0 - if v then 1 as bv64 else 0
  }

  function Differ(p: bv64, v: bool): bv64 {
    p ^ Spread(v)
  }

  lemma DifferBit(p: bv64, v: bool, b: bv6)
    ensures Bit(Differ(p, v), b) == (Bit(p, b) != v)
  {
  }

  function Either(x: bv64, y: bv64): bv64 {
    x | y
  }

  lemma OrBit(x: bv64, y: bv64, b: bv6)
    ensures Bit(Either(x, y), b) == (Bit(x, b) || Bit(y, b))
  {
    assert Bit(x | y, b) == (Bit(x, b) || Bit(y, b));
  }

  function KeepMask(p1: bv64, p2: bv64, low: bool, high: bool): bv64 {
    Either(Differ(p1, low), Differ(p2, high))
  }

  lemma KeepBit(p1: bv64, p2: bv64, low: bool, high: bool, b: bv6)
    ensures Bit(KeepMask(p1, p2, low, high), b) == !(Bit(p1, b) == low && Bit(p2, b) == high)
  {
    hide Bit, Differ, Spread, Either;
    DifferBit(p1, low, b);
    DifferBit(p2, high, b);
    OrBit(Differ(p1, low), Differ(p2, high), b);
  }

  lemma AndBit(x: bv64, mask: bv64, b: bv6)
    ensures Bit(x & mask, b) == (Bit(x, b) && Bit(mask, b))
  {
  }

  /** One of the two words, without the cells that hold the generation (low, high). */
  function Cleared(w: bv64, p1: bv64, p2: bv64, low: bool, high: bool): bv64 {
    w & KeepMask(p1, p2, low, high)
  }

  /** The mask clears exactly the cells that hold the generation (low, high). */
  lemma WipeBits(p1: bv64, p2: bv64, low: bool, high: bool, b: bv6)
    ensures Bit(Cleared(p1, p1, p2, low, high), b) == (Bit(p1, b) && !(Bit(p1, b) == low && Bit(p2, b) == high))
    ensures Bit(Cleared(p2, p1, p2, low, high), b) == (Bit(p2, b) && !(Bit(p1, b) == low && Bit(p2, b) == high))
  {
    hide Bit, Spread, Differ, KeepMask;
    KeepBit(p1, p2, low, high, b);
    AndBit(p1, KeepMask(p1, p2, low, high), b);
    AndBit(p2, KeepMask(p1, p2, low, high), b);
  }

  // ---------------------------------------------------------------- cells

  /** Where a hash leads: a pair of words and a bit in both. */
  datatype Pos = Pos(pair: nat, bit: bv6)

  /** The 32-bit seed of the n-th hash function. */
  function Seed(n: nat, tweak: nat): nat {
    (n * 0xFBA4C795 + tweak) % TWO32
  }

  /** What fixes where keys lead: the hash, the tweak, the number of words and of hash functions. */
  datatype Lens = Lens(murmur: Murmur, tweak: nat, words: nat, hashes: nat)

  predicate LensOk(lens: Lens) {
    lens.words > 0 && lens.words % 2 == 0 && lens.hashes >= 1
  }

  function At(lens: Lens, key: Key, n: nat): (p: Pos)
    requires LensOk(lens)
    ensures Within(p, lens.words)
  {
    var h := lens.murmur(Seed(n, lens.tweak), key) % TWO32;
    Pos(FastRange(h, lens.words) / 2, (h % 64) as bv6)
  }

  /** A hash leads to the bit its low six bits name, in the pair of words that lies as far into the filter as the hash
      lies into the 32-bit numbers; the hash functions differ by a fixed distance of their seeds. */
  lemma AtMeans(lens: Lens, key: Key, n: nat)
    requires LensOk(lens)
    ensures
      var h := lens.murmur((n * 0xFBA4C795 + lens.tweak) % 0x1_0000_0000, key) % 0x1_0000_0000;
      var p := At(lens, key, n);
      && p.bit as int == h % 64
      && 2 * p.pair * 0x1_0000_0000 <= h * lens.words < 2 * (p.pair + 1) * 0x1_0000_0000
  {
    var h := lens.murmur(Seed(n, lens.tweak), key) % TWO32;
    var r := FastRange(h, lens.words);
    LowBits(h % 64);
    HalfRange(r, h * lens.words);
    hide FastRange;
  }

  lemma LowBits(x: nat)
    requires x < 64
    ensures (x as bv6) as int == x
  {
  }

  lemma HalfRange(r: nat, x: nat)
    requires r * 0x1_0000_0000 <= x < (r + 1) * 0x1_0000_0000
    ensures 2 * (r / 2) * 0x1_0000_0000 <= x < 2 * (r / 2 + 1) * 0x1_0000_0000
  {
  }

  predicate Within(p: Pos, words: nat) {
    2 * p.pair + 1 < words
  }

  function Level(p1: bv64, p2: bv64, b: bv6): (g: nat)
    ensures g <= 3
  {
    (if Bit(p1, b) then 1 else 0) + (if Bit(p2, b) then 2 else 0)
  }

  /** The generation stored in a cell, zero for none. */
  function Cell(data: seq<bv64>, p: Pos): (g: nat)
    requires Within(p, |data|)
    ensures g <= 3
  {
    Level(data[2 * p.pair], data[2 * p.pair + 1], p.bit)
  }

  function Prev(g: nat): (r: nat)
    requires 1 <= g <= 3
    ensures 1 <= r <= 3 && Next(r) == g
  {
    if g == 1 then 3 else g - 1
  }

  function Next(g: nat): (r: nat)
    requires 1 <= g <= 3
    ensures 1 <= r <= 3
  {
    if g == 3 then 1 else g + 1
  }

  predicate Low(g: nat) { g % 2 == 1 }
  predicate High(g: nat) { g / 2 == 1 }

  /** One pair of words with the cells of generation `g` cleared. */
  ghost predicate PairWiped(before: seq<bv64>, after: seq<bv64>, q: nat, g: nat) {
    && 2 * q + 1 < |before| == |after|
    && after[2 * q] == Cleared(before[2 * q], before[2 * q], before[2 * q + 1], Low(g), High(g))
    && after[2 * q + 1] == Cleared(before[2 * q + 1], before[2 * q], before[2 * q + 1], Low(g), High(g))
  }

  ghost predicate AllWiped(before: seq<bv64>, after: seq<bv64>, g: nat) {
    forall q: nat :: 2 * q + 1 < |before| ==> PairWiped(before, after, q, g)
  }

  lemma LevelWiped(p1: bv64, p2: bv64, b: bv6, g: nat)
    requires 1 <= g <= 3
    ensures Level(Cleared(p1, p1, p2, Low(g), High(g)), Cleared(p2, p1, p2, Low(g), High(g)), b)
         == if Level(p1, p2, b) == g then 0 else Level(p1, p2, b)
  {
    hide Bit, Cleared;
    WipeBits(p1, p2, Low(g), High(g), b);
  }

  lemma CellWiped(before: seq<bv64>, after: seq<bv64>, p: Pos, g: nat)
    requires PairWiped(before, after, p.pair, g) && 1 <= g <= 3
    ensures Cell(after, p) == if Cell(before, p) == g then 0 else Cell(before, p)
  {
    hide Level, Cleared;
    LevelWiped(before[2 * p.pair], before[2 * p.pair + 1], p.bit, g);
  }

  /** The two words of a pair with one cell set to generation `g`. */
  function CellSet(data: seq<bv64>, p: Pos, g: nat): (r: seq<bv64>)
    requires Within(p, |data|)
    ensures |r| == |data|
  {
    data[2 * p.pair := Put(data[2 * p.pair], p.bit, Low(g))][2 * p.pair + 1 :=
        Put(data[2 * p.pair + 1], p.bit, High(g))]
  }

  lemma LevelPut(p1: bv64, p2: bv64, b: bv6, g: nat, c: bv6)
    requires 1 <= g <= 3
    ensures Level(Put(p1, b, Low(g)), Put(p2, b, High(g)), c) == if b == c then g else Level(p1, p2, c)
  {
    hide Bit, Put;
    PutBit(p1, b, Low(g), c);
    PutBit(p2, b, High(g), c);
  }

  lemma CellSetAt(data: seq<bv64>, p: Pos, g: nat, c: Pos)
    requires Within(p, |data|) && Within(c, |data|) && 1 <= g <= 3
    ensures Cell(CellSet(data, p, g), c) == if c == p then g else Cell(data, c)
  {
    hide Level, Put;
    LevelPut(data[2 * p.pair], data[2 * p.pair + 1], p.bit, g, c.bit);
  }

  // ---------------------------------------------------------------- the plain filter

  /** One of the first `n` hash functions leads the key to the cell. */
  ghost predicate Leads(lens: Lens, key: Key, n: nat, p: Pos)
    requires LensOk(lens)
  {
    exists m: nat :: m < n && At(lens, key, m) == p
  }

  /** Some of the keys leads to the cell. */
  ghost predicate Hit(lens: Lens, keys: seq<Key>, p: Pos)
    requires LensOk(lens)
  {
    exists i :: 0 <= i < |keys| && Leads(lens, keys[i], lens.hashes, p)
  }

  /** What a plain bloom filter that holds the keys says of a key. */
  ghost predicate Plain(lens: Lens, keys: seq<Key>, key: Key)
    requires LensOk(lens)
  {
    forall n: nat :: n < lens.hashes ==> Hit(lens, keys, At(lens, key, n))
  }

  /** The generation of the last key that leads to the cell, among those still remembered. */
  ghost function Expect(lens: Lens, g: nat, cur: seq<Key>, prev: seq<Key>, oldest: seq<Key>, p: Pos): nat
    requires LensOk(lens) && 1 <= g <= 3
  {
    if Hit(lens, cur, p) then g
    else if Hit(lens, prev, p) then Prev(g)
    else if Hit(lens, oldest, p) then Prev(Prev(g))
    else 0
  }

  ghost predicate CellsOk(lens: Lens, data: seq<bv64>, g: nat, cur: seq<Key>, prev: seq<Key>, oldest: seq<Key>) {
    && LensOk(lens) && |data| == lens.words && 1 <= g <= 3
    && forall p :: Within(p, |data|) ==> Cell(data, p) == Expect(lens, g, cur, prev, oldest, p)
  }

  lemma HitAppend(lens: Lens, keys: seq<Key>, more: seq<Key>, p: Pos)
    requires LensOk(lens)
    ensures Hit(lens, keys + more, p) <==> Hit(lens, keys, p) || Hit(lens, more, p)
  {
    hide Leads;
    var all := keys + more;
    if Hit(lens, all, p) {
      var i :| 0 <= i < |all| && Leads(lens, all[i], lens.hashes, p);
      assert if i < |keys| then all[i] == keys[i] else all[i] == more[i - |keys|];
    }
    if Hit(lens, keys, p) {
      var i :| 0 <= i < |keys| && Leads(lens, keys[i], lens.hashes, p);
      assert all[i] == keys[i];
    }
    if Hit(lens, more, p) {
      var i :| 0 <= i < |more| && Leads(lens, more[i], lens.hashes, p);
      assert all[|keys| + i] == more[i];
    }
  }

  lemma HitOne(lens: Lens, key: Key, p: Pos)
    requires LensOk(lens)
    ensures Hit(lens, [key], p) <==> Leads(lens, key, lens.hashes, p)
  {
    assert [key][0] == key;
  }

  /** Wiping the next generation's cells forgets exactly the oldest keys. */
  lemma WipeOk(lens: Lens, before: seq<bv64>, after: seq<bv64>, g: nat, cur: seq<Key>, prev: seq<Key>, oldest: seq<Key>)
    requires CellsOk(lens, before, g, cur, prev, oldest) && |after| == |before|
    requires AllWiped(before, after, Next(g))
    ensures CellsOk(lens, after, Next(g), [], cur, prev)
  {
    hide Cell, PairWiped;
    forall p | Within(p, |after|)
      ensures Cell(after, p) == Expect(lens, Next(g), [], cur, prev, p)
    {
      assert 2 * p.pair + 1 < |before|;
      CellWiped(before, after, p, Next(g));
      assert Cell(before, p) == Expect(lens, g, cur, prev, oldest, p);
      hide Hit;
    }
  }

  /** Every cell a key leads to has been set, and no other. */
  ghost predicate Marked(lens: Lens, before: seq<bv64>, after: seq<bv64>, g: nat, key: Key, n: nat)
    requires LensOk(lens)
  {
    && |before| == |after| == lens.words
    && forall p :: Within(p, lens.words) ==> Cell(after, p) == if Leads(lens, key, n, p) then g else Cell(before, p)
  }

  lemma MarkedStep(lens: Lens, before: seq<bv64>, after: seq<bv64>, g: nat, key: Key, n: nat)
    requires LensOk(lens) && Marked(lens, before, after, g, key, n) && 1 <= g <= 3
    ensures Marked(lens, before, CellSet(after, At(lens, key, n), g), g, key, n + 1)
  {
    hide Cell, CellSet, At;
    var q := At(lens, key, n);
    forall p | Within(p, lens.words)
      ensures Cell(CellSet(after, q, g), p) == if Leads(lens, key, n + 1, p) then g else Cell(before, p)
    {
      CellSetAt(after, q, g, p);
      assert Leads(lens, key, n + 1, p) <==> p == q || Leads(lens, key, n, p);
    }
  }

  lemma InsertOk(lens: Lens, before: seq<bv64>, after: seq<bv64>, g: nat, cur: seq<Key>, prev: seq<Key>,
      oldest: seq<Key>, key: Key)
    requires CellsOk(lens, before, g, cur, prev, oldest) && Marked(lens, before, after, g, key, lens.hashes)
    ensures CellsOk(lens, after, g, cur + [key], prev, oldest)
  {
    hide Cell, Leads, Hit;
    forall p | Within(p, |after|)
      ensures Cell(after, p) == Expect(lens, g, cur + [key], prev, oldest, p)
    {
      HitAppend(lens, cur, [key], p);
      HitOne(lens, key, p);
      assert Cell(before, p) == Expect(lens, g, cur, prev, oldest, p);
    }
  }

  // ---------------------------------------------------------------- the filter

  /** The remembered keys are the last ones of the history: all of it, or two full generations and the current one. */
  ghost predicate Tally(history: seq<Key>, oldest: seq<Key>, prev: seq<Key>, cur: seq<Key>, entries: nat,
      perGeneration: nat) {
    && perGeneration >= 1 && entries == |cur| <= perGeneration
    && (prev != [] ==> |prev| == perGeneration)
    && (oldest != [] ==> |oldest| == |prev| == perGeneration)
    && var kept := oldest + prev + cur;
       && |kept| <= |history| && kept == history[|history| - |kept|..]
       && (|kept| == |history| || |kept| == 2 * perGeneration + entries)
  }

  lemma TallyAdvance(history: seq<Key>, oldest: seq<Key>, prev: seq<Key>, cur: seq<Key>, perGeneration: nat)
    requires Tally(history, oldest, prev, cur, perGeneration, perGeneration)
    ensures Tally(history, prev, cur, [], 0, perGeneration)
  {
    var all := oldest + prev + cur;
    var kept := prev + cur + [];
    assert kept == all[|oldest|..];
    assert all[|oldest|..] == history[|history| - |kept|..];
  }

  lemma TallyInsert(history: seq<Key>, oldest: seq<Key>, prev: seq<Key>, cur: seq<Key>, entries: nat,
      perGeneration: nat, key: Key)
    requires Tally(history, oldest, prev, cur, entries, perGeneration) && entries < perGeneration
    ensures Tally(history + [key], oldest, prev, cur + [key], entries + 1, perGeneration)
  {
    var all := oldest + prev + cur;
    var kept := oldest + prev + (cur + [key]);
    assert kept == all + [key];
    assert kept == (history + [key])[|history| + 1 - |kept|..];
  }

  class Filter {
    const murmur: Murmur
    const hashFuncs: nat
    const perGeneration: nat
    const data: array<bv64>
    var tweak: nat
    var entries: nat
    var generation: nat
    /** Every key since the last reset, and those of them in the current and the two preceding generations. */
    ghost var history: seq<Key>
    ghost var cur: seq<Key>
    ghost var prev: seq<Key>
    ghost var oldest: seq<Key>

    function View(): Lens
      reads this
    {
      Lens(murmur, tweak, data.Length, hashFuncs)
    }

    /** The keys the filter still remembers. */
    ghost function Remembered(): seq<Key>
      reads this
    {
      oldest + prev + cur
    }

    ghost predicate Valid()
      reads this, data
    {
      CellsOk(View(), data[..], generation, cur, prev, oldest) &&
          Tally(history, oldest, prev, cur, entries, perGeneration)
    }

    /** The sizes come out of a floating-point formula; `random` is a fresh tweak. */
    constructor (murmur: Murmur, elements: nat, hashFuncs: nat, pairs: nat, random: nat)
      requires elements >= 1 && hashFuncs >= 1 && pairs >= 1
      ensures Valid() && fresh(data) && history == [] && View() == Lens(murmur, random, 2 * pairs, hashFuncs)
      ensures elements <= 2 * perGeneration <= elements + 1 && entries == 0 && generation == 1
    {
      this.murmur := murmur;
      this.hashFuncs := hashFuncs;
      perGeneration := (elements + 1) / 2;
      data := new bv64[2 * pairs](_ => 0);
      tweak, entries, generation := random, 0, 1;
      history, cur, prev, oldest := [], [], [], [];
      new;
      BlankOk(View(), data[..]);
    }

    method Reset(random: nat)
      requires Valid()
      modifies this, data
      ensures Valid() && history == [] && tweak == random && entries == 0 && generation == 1
    {
      tweak, entries, generation := random, 0, 1;
      history, cur, prev, oldest := [], [], [], [];
      forall i | 0 <= i < data.Length {
        data[i] := 0;
      }
      BlankOk(View(), data[..]);
    }

    /** Clears the cells of one generation, a pair of words at a time. */
    method Wipe(g: nat)
      requires data.Length % 2 == 0 && 1 <= g <= 3
      modifies data
      ensures AllWiped(old(data[..]), data[..], g)
    {
      hide Cleared;
      var q := 0;
      while 2 * q < data.Length
        invariant 0 <= 2 * q <= data.Length
        invariant forall r: nat :: r < q ==> PairWiped(old(data[..]), data[..], r, g)
        invariant forall i :: 2 * q <= i < data.Length ==> data[i] == old(data[i])
      {
        ghost var was := data[..];
        WipePair(q, g);
        forall r: nat | r < q
          ensures PairWiped(old(data[..]), data[..], r, g)
        {
          assert PairWiped(old(data[..]), was, r, g);
        }
        q := q + 1;
      }
    }

    method WipePair(q: nat, g: nat)
      requires 2 * q + 1 < data.Length
      modifies data
      ensures PairWiped(old(data[..]), data[..], q, g)
      ensures forall i :: 0 <= i < data.Length && i != 2 * q && i != 2 * q + 1 ==> data[i] == old(data[i])
    {
      hide Cleared;
      var p1, p2 := data[2 * q], data[2 * q + 1];
      data[2 * q] := Cleared(p1, p1, p2, Low(g), High(g));
      data[2 * q + 1] := Cleared(p2, p1, p2, Low(g), High(g));
    }

    method Advance()
      requires Valid()
      modifies this`generation, this`entries, this`cur, this`prev, this`oldest, data
      ensures Valid() && entries < perGeneration
      ensures generation == if old(entries) == perGeneration then Next(old(generation)) else old(generation)
    {
      hide CellsOk, AllWiped, Tally;
      LensFit(View(), data[..], generation, cur, prev, oldest);
      TallyFit(history, oldest, prev, cur, entries, perGeneration);
      if entries == perGeneration {
        ghost var before := data[..];
        entries := 0;
        generation := generation + 1;
        if generation == 4 {
          generation := 1;
        }
        Wipe(generation);
        WipeOk(View(), before, data[..], old(generation), cur, prev, oldest);
        TallyAdvance(history, oldest, prev, cur, perGeneration);
        cur, prev, oldest := [], cur, prev;
      }
    }

    method Set(p: Pos)
      requires Within(p, data.Length) && data.Length % 2 == 0
      modifies data
      ensures data[..] == CellSet(old(data[..]), p, generation)
    {
      hide Put;
      data[2 * p.pair] := Put(data[2 * p.pair], p.bit, Low(generation));
      data[2 * p.pair + 1] := Put(data[2 * p.pair + 1], p.bit, High(generation));
    }

    method Insert(key: Key)
      requires Valid()
      modifies this`generation, this`entries, this`history, this`cur, this`prev, this`oldest, data
      ensures Valid() && history == old(history) + [key]
      ensures 1 <= entries && generation == if old(entries) == perGeneration then Next(old(generation))
        else old(generation)
    {
      hide CellsOk, Marked, Tally, CellSet, At;
      Advance();
      entries := entries + 1;
      ghost var before := data[..];
      LensFit(View(), data[..], generation, cur, prev, oldest);
      MarkedNone(View(), before, generation, key);
      for n := 0 to hashFuncs
        invariant Marked(View(), before, data[..], generation, key, n)
        modifies data
      {
        MarkedStep(View(), before, data[..], generation, key, n);
        Set(At(View(), key, n));
      }
      InsertOk(View(), before, data[..], generation, cur, prev, oldest, key);
      TallyInsert(history, oldest, prev, cur, entries - 1, perGeneration, key);
      history, cur := history + [key], cur + [key];
    }

    /** The filter answers exactly as a plain bloom filter that holds the remembered keys. */
    method Contains(key: Key) returns (r: bool)
      requires Valid()
      ensures r <==> Plain(View(), Remembered(), key)
    {
      hide CellsOk, Tally, Hit, At, Cell;
      LensFit(View(), data[..], generation, cur, prev, oldest);
      for n := 0 to hashFuncs
        invariant forall m: nat :: m < n ==> Hit(View(), Remembered(), At(View(), key, m))
      {
        var p := At(View(), key, n);
        CellMeans(View(), data[..], generation, cur, prev, oldest, p);
        var found := Test(p);
        if !found {
          return false;
        }
      }
      return true;
    }

    method Test(p: Pos) returns (found: bool)
      requires Within(p, data.Length)
      ensures found <==> Cell(data[..], p) != 0
    {
      hide Bit;
      OrBit(data[2 * p.pair], data[2 * p.pair + 1], p.bit);
      found := Bit(Either(data[2 * p.pair], data[2 * p.pair + 1]), p.bit);
    }
  }

  /** A key among the remembered ones is reported. */
  lemma NoFalseNegative(lens: Lens, keys: seq<Key>, key: Key)
    requires LensOk(lens) && key in keys
    ensures Plain(lens, keys, key)
  {
    var i :| 0 <= i < |keys| && keys[i] == key;
    forall n: nat | n < lens.hashes
      ensures Hit(lens, keys, At(lens, key, n))
    {
      assert Leads(lens, keys[i], lens.hashes, At(lens, key, n));
    }
  }

  /** Once two generations are full, the remembered keys reach at least two generations back from the newest key. */
  lemma Reach(history: seq<Key>, oldest: seq<Key>, prev: seq<Key>, cur: seq<Key>, entries: nat, perGeneration: nat,
      ago: nat)
    requires Tally(history, oldest, prev, cur, entries, perGeneration) && entries >= 1
    requires ago < |history| && ago <= 2 * perGeneration
    ensures history[|history| - 1 - ago] in oldest + prev + cur
  {
    var kept := oldest + prev + cur;
    assert |kept| == |oldest| + |prev| + |cur|;
    hide Tally;
    var tail := history[|history| - |kept|..];
    assert tail[|kept| - 1 - ago] == history[|history| - 1 - ago];
  }

  /** From any state: a key inserted is reported after any further insertions, up to two full generations of them,
      which is at least the number of elements the filter was made for. */
  method Window(f: Filter, key: Key, later: seq<Key>) returns (r: bool)
    requires f.Valid() && |later| <= 2 * f.perGeneration
    modifies f, f.data
    ensures f.Valid() && f.history == old(f.history) + [key] + later
    ensures r
  {
    hide CellsOk, Tally, Plain;
    f.Insert(key);
    for i := 0 to |later|
      invariant f.Valid() && f.entries >= 1 && f.history == old(f.history) + [key] + later[..i]
    {
      f.Insert(later[i]);
      assert later[..i + 1] == later[..i] + [later[i]];
    }
    assert later[..|later|] == later;
    LensFit(f.View(), f.data[..], f.generation, f.cur, f.prev, f.oldest);
    Reach(f.history, f.oldest, f.prev, f.cur, f.entries, f.perGeneration, |later|);
    NoFalseNegative(f.View(), f.Remembered(), key);
    r := f.Contains(key);
  }

  lemma BlankOk(lens: Lens, data: seq<bv64>)
    requires LensOk(lens) && |data| == lens.words && forall i :: 0 <= i < |data| ==> data[i] == 0
    ensures CellsOk(lens, data, 1, [], [], [])
  {
    forall p | Within(p, |data|)
      ensures Cell(data, p) == 0
    {
      BlankBit(p.bit);
      hide Bit;
    }
  }

  lemma BlankBit(b: bv6)
    ensures !Bit(0, b)
  {
  }

  lemma LensFit(lens: Lens, data: seq<bv64>, g: nat, cur: seq<Key>, prev: seq<Key>, oldest: seq<Key>)
    requires CellsOk(lens, data, g, cur, prev, oldest)
    ensures LensOk(lens) && |data| == lens.words && 1 <= g <= 3
  {
  }

  lemma TallyFit(history: seq<Key>, oldest: seq<Key>, prev: seq<Key>, cur: seq<Key>, entries: nat, perGeneration: nat)
    requires Tally(history, oldest, prev, cur, entries, perGeneration)
    ensures perGeneration >= 1 && entries <= perGeneration
  {
  }

  lemma MarkedNone(lens: Lens, data: seq<bv64>, g: nat, key: Key)
    requires LensOk(lens) && |data| == lens.words
    ensures Marked(lens, data, data, g, key, 0)
  {
    hide Cell;
  }

  /** A cell is empty exactly when no remembered key leads to it. */
  lemma CellMeans(lens: Lens, data: seq<bv64>, g: nat, cur: seq<Key>, prev: seq<Key>, oldest: seq<Key>, p: Pos)
    requires CellsOk(lens, data, g, cur, prev, oldest) && Within(p, |data|)
    ensures Cell(data, p) != 0 <==> Hit(lens, oldest + prev + cur, p)
  {
    assert Cell(data, p) == Expect(lens, g, cur, prev, oldest, p);
    hide Cell, Hit;
    HitAppend(lens, oldest, prev, p);
    HitAppend(lens, oldest + prev, cur, p);
  }
}
