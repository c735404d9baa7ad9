/** src/cuckoocache.h as it runs: bit-packed flags, the epoch scan, bounded cuckoo insertion and lookup. */
module CuckooCache {
  import opened Numbers
  import opened CuckooModel

  /** 1 << k */
  function Mask(k: nat): bv8
    requires k < 8
  {
    if k == 0 then 0x01 else if k == 1 then 0x02 else if k == 2 then 0x04 else if k == 3 then 0x08
    else if k == 4 then 0x10 else if k == 5 then 0x20 else if k == 6 then 0x40 else 0x80
  }

  predicate IsSet(word: bv8, k: nat)
    requires k < 8
  {
    word & Mask(k) != 0
  }

  lemma MaskMeans(k: nat)
    requires k < 8
    ensures Mask(k) as int == Pow2(k)
  {
    if k == 0 {
    } else if k == 1 {
    } else if k == 2 {
    } else if k == 3 {
    } else if k == 4 {
    } else if k == 5 {
    } else if k == 6 {
    } else {
      assert Pow2(7) == 128;
    }
  }

  lemma MaskOr(word: bv8, j: nat, k: nat)
    requires j < 8 && k < 8
    ensures IsSet(word | Mask(j), k) <==> (j == k || IsSet(word, k))
  {
  }

  lemma MaskAndNot(word: bv8, j: nat, k: nat)
    requires j < 8 && k < 8
    ensures IsSet(word & !Mask(j), k) <==> (j != k && IsSet(word, k))
  {
  }

  lemma AllSet(k: nat)
    requires k < 8
    ensures IsSet(0xFF, k)
  {
  }

  /** The words allocated for `size` flags, in 32-bit arithmetic. */
  function Words(size: nat): nat {
    (size + 7) % TWO32 / 8
  }

  /** The words cover every flag exactly when the rounding up does not wrap. */
  lemma WordsCover(size: nat)
    requires size < TWO32
    ensures size <= 8 * Words(size) <==> size + 7 < TWO32
  {
  }

  class Flags {
    var mem: array<bv8>
    /** The first `size` flags. */
    ghost var bits: seq<bool>

    ghost predicate Valid()
      reads this, mem
    {
      && |bits| <= 8 * mem.Length
      && forall i :: 0 <= i < |bits| ==> bits[i] == IsSet(mem[i / 8], i % 8)
    }

    constructor (size: nat)
      requires size + 7 < TWO32
      ensures Valid() && fresh(mem) && |bits| == size && forall i :: 0 <= i < size ==> bits[i]
    {
      mem := new bv8[Words(size)](_ => 0xFF);
      bits := seq(size, _ => true);
      new;
      forall i | 0 <= i < size
        ensures IsSet(mem[i / 8], i % 8)
      {
        AllSet(i % 8);
      }
    }

    method BitSet(s: nat)
      requires Valid() && s < |bits|
      modifies this`bits, mem
      ensures Valid() && bits == old(bits)[s := true]
    {
      ghost var before := mem[s / 8];
      mem[s / 8] := mem[s / 8] | Mask(s % 8);
      forall i | 0 <= i < |bits| && i / 8 == s / 8
        ensures IsSet(mem[i / 8], i % 8) <==> i == s || bits[i]
      {
        MaskOr(before, s % 8, i % 8);
      }
      bits := bits[s := true];
    }

    method BitUnset(s: nat)
      requires Valid() && s < |bits|
      modifies this`bits, mem
      ensures Valid() && bits == old(bits)[s := false]
    {
      ghost var before := mem[s / 8];
      mem[s / 8] := mem[s / 8] & !Mask(s % 8);
      forall i | 0 <= i < |bits| && i / 8 == s / 8
        ensures IsSet(mem[i / 8], i % 8) <==> i != s && bits[i]
      {
        MaskAndNot(before, s % 8, i % 8);
      }
      bits := bits[s := false];
    }

    method BitIsSet(s: nat) returns (r: bool)
      requires Valid() && s < |bits|
      ensures r == bits[s]
    {
      r := Mask(s % 8) & mem[s / 8] != 0;
    }
  }

  /** The first `n` slots have been aged. */
  ghost predicate PartlyAged(bits: seq<bool>, epochs: seq<bool>, bits': seq<bool>, epochs': seq<bool>, n: nat) {
    && |bits| == |epochs| == |bits'| == |epochs'|
    && forall j :: 0 <= j < |bits| ==>
         if j < n then !epochs'[j] && bits'[j] == (bits[j] || !epochs[j])
         else epochs'[j] == epochs[j] && bits'[j] == bits[j]
  }

  class Cache {
    const hash: Hasher
    const size: nat
    const epochSize: nat
    const depthLimit: nat
    const table: array<Element>
    const flags: Flags
    const epoch: array<bool>
    var counter: nat
    /** Every element ever passed to Insert. */
    ghost var ever: set<Element>

    ghost predicate Formed()
      reads this, flags, flags.mem
    {
      && size >= 2 && epochSize >= 1 && depthLimit >= 1
      && table.Length == epoch.Length == |flags.bits| == size
      && flags.Valid()
      && (flags.mem as object) != (epoch as object) && (flags.mem as object) != (table as object) &&
        (epoch as object) != (table as object)
    }

    ghost predicate Placed(t: seq<Element>, bits: seq<bool>)
      reads this
    {
      && size >= 2 && |t| == |bits| == size
      && Sited(hash, t, bits) && Distinct(t)
      && forall i :: 0 <= i < size ==> t[i] == DEFAULT || t[i] in ever
    }

    ghost predicate Valid()
      reads this, table, flags, flags.mem, epoch
    {
      && Formed()
      && Placed(table[..], flags.bits)
      && Budget(flags.bits, epoch[..], counter, epochSize)
    }

    ghost function Kept(): set<Element>
      reads this, table, flags, flags.mem
      requires Formed()
    {
      Live(table[..], flags.bits)
    }

    /** `depth` is the rounded-down base-two logarithm of the size. */
    constructor Setup(hash: Hasher, newSize: nat, depth: nat)
      requires newSize + 7 < TWO32 && depth >= 1
      ensures Valid() && fresh(table) && fresh(flags) && fresh(flags.mem) && fresh(epoch)
      ensures this.hash == hash && size == Max(2, newSize) && depthLimit == depth
      ensures epochSize == counter == EpochSize(size)
      ensures forall i :: 0 <= i < size ==> flags.bits[i] && !epoch[i]
      ensures Kept() == {} && ever == {}
      ensures forall i :: 0 <= i < size ==> table[i] == DEFAULT
    {
      var n := Max(2, newSize);
      this.hash := hash;
      size := n;
      epochSize := EpochSize(n);
      depthLimit := depth;
      table := new Element[n](_ => DEFAULT);
      flags := new Flags(n);
      epoch := new bool[n](_ => false);
      counter := EpochSize(n);
      ever := {};
      new;
      NothingLive(flags.bits, epoch[..]);
    }

    /** Counts the live elements of the current epoch. */
    method CountCurrent() returns (used: nat)
      requires Formed()
      ensures used == Count(flags.bits, epoch[..], true)
    {
      hide Count;
      used := 0;
      CountNone(flags.bits, epoch[..]);
      for i := 0 to size
        invariant used == Count(flags.bits[..i], epoch[..][..i], true)
      {
        var collectable := flags.BitIsSet(i);
        CountNext(flags.bits, epoch[..], i);
        used := used + if epoch[i] && !collectable then 1 else 0;
      }
      assert flags.bits[..size] == flags.bits && epoch[..][..size] == epoch[..];
    }

    method AgeSlot(i: nat)
      requires Formed() && i < size
      modifies flags`bits, flags.mem, epoch
      ensures Formed()
      ensures flags.bits == old(flags.bits)[i := old(flags.bits[i] || !epoch[i])]
      ensures epoch[..] == old(epoch[..])[i := false]
    {
      if epoch[i] {
        epoch[i] := false;
      } else {
        flags.BitSet(i);
      }
    }

    /** Erases the old epoch and demotes the current one. */
    method Age()
      requires Formed()
      modifies flags`bits, flags.mem, epoch
      ensures Formed()
      ensures flags.bits == AgedBits(old(flags.bits), old(epoch[..]))
      ensures epoch[..] == NoEpochs(size)
    {
      ghost var bits, epochs := flags.bits, epoch[..];
      for i := 0 to size
        invariant Formed()
        invariant PartlyAged(bits, epochs, flags.bits, epoch[..], i)
      {
        AgeSlot(i);
      }
    }

    method EpochCheck()
      requires Formed()
      modifies this`counter, flags`bits, flags.mem, epoch
      ensures Formed()
      ensures Epochs(flags.bits, epoch[..], counter) ==
        Checked(old(flags.bits), old(epoch[..]), old(counter), epochSize)
      ensures old(Count(flags.bits, epoch[..], true)) < epochSize ==>
        flags.bits == old(flags.bits) && epoch[..] == old(epoch[..])
      ensures old(counter) != 0 ==>
        flags.bits == old(flags.bits) && epoch[..] == old(epoch[..]) && counter == old(counter) - 1
      ensures old(counter) == 0 && old(Count(flags.bits, epoch[..], true)) < epochSize ==>
        && 1 <= counter && epochSize < 16 * (counter + 1)
        && epochSize <= old(Count(flags.bits, epoch[..], true)) + counter
      ensures old(counter) == 0 && old(Count(flags.bits, epoch[..], true)) >= epochSize ==>
        counter == epochSize && forall i :: 0 <= i < size ==>
          !epoch[i] && (flags.bits[i] <==> old(flags.bits[i]) || !old(epoch[i]))
    {
      if counter != 0 {
        counter := counter - 1;
        return;
      }
      var used := CountCurrent();
      if used >= epochSize {
        Age();
        counter := epochSize;
      } else {
        counter := Max(1, Max(epochSize / 16, epochSize - used));
      }
    }

    ghost function Slots(): (g: Grid)
      requires Formed()
      reads this, table, flags, flags.mem, epoch
      ensures |g.table| == |g.bits| == |g.epochs| == size > 0
    {
      Grid(table[..], flags.bits, epoch[..])
    }

    /** Looks an element up among its locations. */
    method Lookup(e: Element) returns (found: bool, loc: nat)
      requires Formed() && Placed(table[..], flags.bits)
      ensures found ==> loc < size && table[loc] == e && loc in Locs(hash, size, e)
      ensures !found ==> forall k :: 0 <= k < WAYS ==> table[Locs(hash, size, e)[k]] != e
      ensures e != DEFAULT ==> (found <==> e in table[..])
      ensures !found ==> Apart(table[..], e)
      ensures
        var locs := Locs(hash, size, e);
        var k := FirstHolding(table[..], locs, e);
        (found <==> k < WAYS) && (found ==> loc == locs[k])
    {
      var locs := Locs(hash, size, e);
      found, loc := false, 0;
      for k := 0 to WAYS
        invariant !found && forall j :: 0 <= j < k ==> table[locs[j]] != e
      {
        if table[locs[k]] == e {
          found, loc := true, locs[k];
          assert table[..][loc] == e;
          return;
        }
      }
      Missing(hash, table[..], flags.bits, e);
    }

    method Keep(loc: nat, recent: bool)
      requires Formed() && loc < size
      modifies flags`bits, flags.mem, epoch
      ensures Formed()
      ensures flags.bits == old(flags.bits)[loc := false] && epoch[..] == old(epoch[..])[loc := recent]
    {
      flags.BitUnset(loc);
      epoch[loc] := recent;
    }

    /** Looks for a collectable slot among an element's locations. */
    method FindOpen(e: Element) returns (open: bool, loc: nat)
      requires Formed()
      ensures open ==> loc < size && loc in Locs(hash, size, e) && flags.bits[loc]
      ensures !open ==> forall k :: 0 <= k < WAYS ==> !flags.bits[Locs(hash, size, e)[k]]
      ensures
        var locs := Locs(hash, size, e);
        var k := FirstOpen(flags.bits, locs);
        (open <==> k < WAYS) && (open ==> loc == locs[k])
    {
      var locs := Locs(hash, size, e);
      open, loc := false, 0;
      for k := 0 to WAYS
        invariant !open && forall j :: 0 <= j < k ==> !flags.bits[locs[j]]
      {
        var collectable := flags.BitIsSet(locs[k]);
        if collectable {
          return true, locs[k];
        }
      }
    }

    /** Exchanges the element in hand with a live one. */
    method Displace(e: Element, recent: bool, loc: nat) returns (e': Element, recent': bool)
      requires Formed() && loc < size
      modifies table, epoch
      ensures Formed() && e' == old(table[loc]) && recent' == old(epoch[loc])
      ensures table[..] == old(table[..])[loc := e] && epoch[..] == old(epoch[..])[loc := recent]
    {
      e', recent' := table[loc], epoch[loc];
      table[loc] := e;
      epoch[loc] := recent;
    }

    method PutOpen(e: Element, recent: bool, loc: nat)
      requires Formed() && loc < size
      modifies table, flags`bits, flags.mem, epoch
      ensures Formed()
      ensures table[..] == old(table[..])[loc := e] && flags.bits == old(flags.bits)[loc := false]
      ensures epoch[..] == old(epoch[..])[loc := recent]
    {
      table[loc] := e;
      Keep(loc, recent);
    }

    /** Puts an element that is not in the table into it, displacing at most `depthLimit` others in turn. */
    method Climb(e: Element, ghost before: set<Element>, ghost current: nat, ghost older: nat)
      requires Formed() && Placed(table[..], flags.bits) && e in ever
      requires forall k :: 0 <= k < WAYS ==> table[Locs(hash, size, e)[k]] != e
      requires InHand(table[..], flags.bits, epoch[..], e, true, before + {e}, current, older) && before == Kept()
      modifies table, flags`bits, flags.mem, epoch
      ensures Formed() && Placed(table[..], flags.bits)
      ensures Exchanged(before, e, Kept())
      ensures old(Hosted(hash, table[..], flags.bits, e)) ==> Kept() == before + {e}
      ensures Count(flags.bits, epoch[..], true) <= current && Count(flags.bits, epoch[..], false) <= older
      ensures Slots() == Climbed(hash, old(Slots()), e, true, INVALID, depthLimit)
    {
      hide Sited, Distinct, Live, Count, Apart, InHand, Locs, Exchanged, FirstOpen, Victim, Climbed;
      ghost var bits := flags.bits;
      var hand, recent, last := e, true, INVALID;
      for depth := 0 to depthLimit
        invariant Formed() && flags.bits == bits && Placed(table[..], bits) && hand in ever + {DEFAULT}
        invariant InHand(table[..], bits, epoch[..], hand, recent, before + {e}, current, older)
        invariant depth == 0 ==> hand == e && table[..] == old(table[..])
        invariant depth > 0 ==> !old(Hosted(hash, table[..], flags.bits, e))
        invariant Climbed(hash, Slots(), hand, recent, last, depthLimit - depth) ==
          Climbed(hash, old(Slots()), e, true, INVALID, depthLimit)
      {
        var open, loc := FindOpen(hand);
        if open {
          ghost var t, epochs := table[..], epoch[..];
          PutOpen(hand, recent, loc);
          ClimbStep(hash, t, bits, epochs, hand, recent, last, depthLimit - depth, true, loc);
          PlaceInHand(t, bits, epochs, hand, recent, before + {e}, current, older, loc);
          PutSited(hash, t, bits, loc, hand);
          PutKnown(t, loc, hand, ever, table[..]);
          SameExchanged(before, e);
          return;
        }
        loc := Victim(Locs(hash, size, hand), last);
        ClimbStep(hash, table[..], bits, epoch[..], hand, recent, last, depthLimit - depth, false, loc);
        SwapInHand(table[..], bits, epoch[..], hand, recent, before + {e}, current, older, loc);
        PutSited(hash, table[..], bits, loc, hand);
        PutDistinctOnly(table[..], bits, epoch[..], hand, recent, before + {e}, current, older, loc);
        PutKnown(table[..], loc, hand, ever, table[..][loc := hand]);
        hand, recent := Displace(hand, recent, loc);
        last := loc;
      }
      ClimbEnd(hash, Slots(), hand, recent, last);
      Dropped(table[..], bits, epoch[..], hand, recent, before, e, current, older);
    }

    /** Inserts an element: afterwards it and everything the epoch check left is kept, except for at most one element,
        and for none if the element was present or one of its locations was collectable. */
    method Insert(e: Element)
      requires Valid()
      modifies this`counter, this`ever, table, flags`bits, flags.mem, epoch
      ensures Valid() && ever == old(ever) + {e}
      ensures
        var r := Checked(old(flags.bits), old(epoch[..]), old(counter), epochSize);
        var before := Live(old(table[..]), r.bits);
        && counter == r.counter
        && Exchanged(before, e, Kept())
        && (Hosted(hash, old(table[..]), r.bits, e) ==> Kept() == before + {e})
        && Slots() == InsertedGrid(hash, old(table[..]), r, e, depthLimit)
    {
      hide Sited, Distinct, Live, Count, Apart, Locs, Exchanged, Checked, Hosted, Bound;
      ghost var bits, epochs, left := flags.bits, epoch[..], counter;
      EpochCheck();
      ghost var r := Checked(bits, epochs, left, epochSize);
      CheckedBudget(bits, epochs, left, epochSize);
      CheckedLive(table[..], bits, epochs, left, epochSize);
      StillSited(hash, table[..], bits, r.bits);
      ever := ever + {e};
      var found, loc := Lookup(e);
      if found {
        KeepFound(table[..], r.bits, r.flags, loc);
        PutSited(hash, table[..], r.bits, loc, e);
        assert table[..][loc := e] == table[..];
        Keep(loc, true);
        SameExchanged(Live(table[..], r.bits), e);
      } else {
        Climb(e, Kept(), Count(r.bits, r.flags, true) + 1, Count(r.bits, r.flags, false));
      }
    }

    /** Looks an element up and, if asked to, lets its slot be collected. The table itself does not change,
        so an element just reported and erased is still reported. */
    method Contains(e: Element, erase: bool) returns (r: bool)
      requires Valid()
      modifies flags`bits, flags.mem
      ensures Valid()
      ensures e != DEFAULT ==> (r <==> e in table[..])
      ensures r && e != DEFAULT ==> e in ever
      ensures if erase && r then Kept() <= old(Kept()) && old(Kept()) <= Kept() + {e} && (e != DEFAULT ==> e !in Kept())
              else Kept() == old(Kept())
      ensures
        var k := FirstHolding(table[..], Locs(hash, size, e), e);
        && (r <==> k < WAYS)
        && flags.bits == if erase && r then old(flags.bits)[Locs(hash, size, e)[k] := true] else old(flags.bits)
    {
      hide Sited, Live, Count, Apart, Locs, Bound;
      var loc;
      r, loc := Lookup(e);
      if erase && r {
        EraseSited(hash, table[..], flags.bits, loc);
        EraseLive(table[..], flags.bits, loc);
        EraseCounts(flags.bits, epoch[..], loc);
        flags.BitSet(loc);
      }
    }
  }

  lemma CountNone(bits: seq<bool>, epochs: seq<bool>)
    ensures Count(bits[..0], epochs[..0], true) == 0
  {
  }

  lemma CountNext(bits: seq<bool>, epochs: seq<bool>, i: nat)
    requires i < |bits| == |epochs|
    ensures Count(bits[..i + 1], epochs[..i + 1], true) == Count(bits[..i], epochs[..i], true) + if epochs[i] &&
      !bits[i] then 1 else 0
  {
    assert bits[..i + 1][..i] == bits[..i] && epochs[..i + 1][..i] == epochs[..i];
  }

  lemma {:induction false} NothingLive(bits: seq<bool>, epochs: seq<bool>)
    requires |bits| == |epochs| && forall i :: 0 <= i < |bits| ==> bits[i]
    ensures Count(bits, epochs, true) == 0 && Count(bits, epochs, false) == 0
  {
    if bits != [] {
      NothingLive(bits[..|bits| - 1], epochs[..|bits| - 1]);
    }
  }

  /** An element that is not at any of its locations is nowhere. */
  lemma Missing(hash: Hasher, t: seq<Element>, bits: seq<bool>, e: Element)
    requires |t| == |bits| > 0 && Sited(hash, t, bits)
    requires forall k :: 0 <= k < WAYS ==> t[Locs(hash, |t|, e)[k]] != e
    ensures Apart(t, e)
  {
    hide Locs;
  }

  lemma PutKnown(t: seq<Element>, i: nat, e: Element, ever: set<Element>, u: seq<Element>)
    requires i < |t| && e in ever + {DEFAULT} && u == t[i := e]
    requires forall j :: 0 <= j < |t| ==> t[j] == DEFAULT || t[j] in ever
    ensures forall j :: 0 <= j < |u| ==> u[j] == DEFAULT || u[j] in ever
  {
  }

  lemma SameExchanged(before: set<Element>, e: Element)
    ensures Exchanged(before, e, before + {e})
  {
  }

  lemma PutDistinctOnly(t: seq<Element>, bits: seq<bool>, epochs: seq<bool>, e: Element, recent: bool,
                        all: set<Element>, current: nat, older: nat, i: nat)
    requires |t| == |bits| == |epochs| && i < |t| && Distinct(t)
    requires InHand(t, bits, epochs, e, recent, all, current, older)
    ensures Distinct(t[i := e])
  {
    PutDistinct(t, i, e);
  }

  /** What has been displaced last is lost; whatever it is, the rest is kept. */
  lemma Dropped(t: seq<Element>, bits: seq<bool>, epochs: seq<bool>, hand: Element, recent: bool,
                before: set<Element>, e: Element, current: nat, older: nat)
    requires |t| == |bits| == |epochs| && InHand(t, bits, epochs, hand, recent, before + {e}, current, older)
    ensures Exchanged(before, e, Live(t, bits))
    ensures Count(bits, epochs, true) <= current && Count(bits, epochs, false) <= older
  {
    DropExchanged(before, e, Live(t, bits), hand);
  }

  /** Slots that become collectable need less. */
  lemma StillSited(hash: Hasher, t: seq<Element>, bits: seq<bool>, bits': seq<bool>)
    requires |t| == |bits| == |bits'| > 0 && Sited(hash, t, bits)
    requires forall i :: 0 <= i < |t| && !bits'[i] ==> !bits[i]
    ensures Sited(hash, t, bits')
  {
    hide Locs;
  }

  lemma EraseSited(hash: Hasher, t: seq<Element>, bits: seq<bool>, i: nat)
    requires |t| == |bits| > 0 && Sited(hash, t, bits) && i < |t|
    ensures Sited(hash, t, bits[i := true])
  {
    StillSited(hash, t, bits, bits[i := true]);
  }

  lemma EraseLive(t: seq<Element>, bits: seq<bool>, i: nat)
    requires |t| == |bits| && i < |t| && Distinct(t)
    ensures Live(t, bits[i := true]) <= Live(t, bits) <= Live(t, bits[i := true]) + {t[i]}
    ensures t[i] != DEFAULT ==> t[i] !in Live(t, bits[i := true])
  {
    var c := bits[i := true];
    forall x | x in Live(t, bits)
      ensures x in Live(t, c) + {t[i]}
    {
      var j :| 0 <= j < |t| && !bits[j] && t[j] == x;
      assert j != i ==> !c[j];
    }
  }

  lemma EraseCounts(bits: seq<bool>, epochs: seq<bool>, i: nat)
    requires |bits| == |epochs| && i < |bits|
    ensures Count(bits[i := true], epochs, true) <= Count(bits, epochs, true)
    ensures Count(bits[i := true], epochs, false) <= Count(bits, epochs, false)
  {
    CountUpdate(bits, epochs, true, i, true, epochs[i]);
    CountUpdate(bits, epochs, false, i, true, epochs[i]);
    assert epochs[i := epochs[i]] == epochs;
  }

  // ---------------------------------------------------------------- runs

  datatype Op = Add(e: Element) | Ask(e: Element, erase: bool)

  function Inserted(ops: seq<Op>): set<Element> {
    if ops == [] then {} else
    Inserted(ops[..|ops| - 1]) + if ops[|ops| - 1].Add? then {ops[|ops| - 1].e} else {}
  }

  datatype State = State(grid: Grid, counter: nat)

  predicate Square(s: State) {
    |s.grid.table| == |s.grid.bits| == |s.grid.epochs| > 0
  }

  /** What an operation makes of the slots. */
  function Stepped(hash: Hasher, epochSize: nat, depth: nat, s: State, op: Op): (t: State)
    requires Square(s)
    ensures Square(t)
  {
    match op
    case Add(e) =>
      var r := Checked(s.grid.bits, s.grid.epochs, s.counter, epochSize);
      State(InsertedGrid(hash, s.grid.table, r, e, depth), r.counter)
    case Ask(e, erase) =>
      var locs := Locs(hash, |s.grid.table|, e);
      var k := FirstHolding(s.grid.table, locs, e);
      if erase && k < WAYS then s.(grid := s.grid.(bits := s.grid.bits[locs[k] := true])) else s
  }

  function StateAfter(hash: Hasher, size: nat, depth: nat, ops: seq<Op>): (t: State)
    requires size > 0
    ensures Square(t)
  {
    if ops == [] then
      State(Grid(seq(size, _ => DEFAULT), seq(size, _ => true), seq(size, _ => false)), EpochSize(size))
    else Stepped(hash, EpochSize(size), depth, StateAfter(hash, size, depth, ops[..|ops| - 1]), ops[|ops| - 1])
  }

  lemma StateNext(hash: Hasher, size: nat, depth: nat, ops: seq<Op>, n: nat)
    requires size > 0 && n < |ops|
    ensures StateAfter(hash, size, depth, ops[..n + 1]) ==
      Stepped(hash, EpochSize(size), depth, StateAfter(hash, size, depth, ops[..n]), ops[n])
  {
    assert ops[..n + 1][..n] == ops[..n];
    hide Stepped, EpochSize;
  }

  /** After any run of insertions and lookups the cache holds only elements that were inserted, none of them twice,
      and both epochs are within their bounds. */
  method Run(hash: Hasher, newSize: nat, depth: nat, ops: seq<Op>) returns (c: Cache)
    requires newSize + 7 < TWO32 && depth >= 1
    ensures c.Valid() && c.ever == Inserted(ops)
    ensures State(c.Slots(), c.counter) == StateAfter(hash, Max(2, newSize), depth, ops)
    ensures Count(c.flags.bits, c.epoch[..], true) + c.counter <= Bound(c.epochSize)
    ensures |c.Kept()| <= 2 * Bound(c.epochSize)
    ensures Distinct(c.table[..])
    ensures forall e :: e in c.table[..] && e != DEFAULT ==> e in Inserted(ops)
    ensures forall i :: 0 <= i < c.size && !c.flags.bits[i] ==> i in Locs(c.hash, c.size, c.table[i])
  {
    hide Locs, Count, Bound, Sited, Distinct, Checked, InsertedGrid, EpochSize, FirstHolding;
    c := new Cache.Setup(hash, newSize, depth);
    ghost var size, epochSize := c.size, c.epochSize;
    StartGrid(c.Slots(), size);
    assert State(c.Slots(), c.counter) == StateAfter(hash, size, depth, ops[..0]);
    hide StateAfter;
    for n := 0 to |ops|
      invariant c.Valid() && c.ever == Inserted(ops[..n])
      invariant c.hash == hash && c.size == size && c.epochSize == epochSize && c.depthLimit == depth
      invariant State(c.Slots(), c.counter) == StateAfter(hash, size, depth, ops[..n])
      invariant fresh(c) && fresh(c.table) && fresh(c.flags) && fresh(c.flags.mem) && fresh(c.epoch)
    {
      assert ops[..n + 1][..n] == ops[..n];
      StateNext(hash, size, depth, ops, n);
      match ops[n] {
        case Add(e) => c.Insert(e);
        case Ask(e, erase) => var r := c.Contains(e, erase);
      }
    }
    assert ops[..|ops|] == ops;
    LiveSize(c.table[..], c.flags.bits, c.epoch[..]);
    SitedAt(c.hash, c.table[..], c.flags.bits);
  }

  lemma StartGrid(g: Grid, size: nat)
    requires |g.table| == |g.bits| == |g.epochs| == size
    requires forall i :: 0 <= i < size ==> g.table[i] == DEFAULT && g.bits[i] && !g.epochs[i]
    ensures g == Grid(seq(size, _ => DEFAULT), seq(size, _ => true), seq(size, _ => false))
  {
  }

  lemma SitedAt(hash: Hasher, t: seq<Element>, bits: seq<bool>)
    requires |t| == |bits| > 0 && Sited(hash, t, bits)
    ensures forall i :: 0 <= i < |t| && !bits[i] ==> i in Locs(hash, |t|, t[i])
  {
    hide Locs;
  }
}
