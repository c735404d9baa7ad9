/** The cuckoo cache of src/cuckoocache.h as values: a table, one collection flag and one epoch flag per slot. */
module CuckooModel {
  import opened Numbers

  /** Elements are 256-bit digests; a default-constructed element is zero. */
  type Element = nat
  const DEFAULT: Element := 0

  /** A family of hash functions; each value is taken as a 32-bit word. */
  type Hasher = (nat, Element) -> nat

  const WAYS := 8

  /** No slot has this index. */
  const INVALID: nat := 0xFFFF_FFFF

  /** The 32-bit hash as a fixed-point fraction of the table's size. */
  function Loc(hash: Hasher, size: nat, e: Element, k: nat): (i: nat)
    requires size > 0
    ensures i < size
  {
    FastRange(hash(k, e) % TWO32, size)
  }

  function Locs(hash: Hasher, size: nat, e: Element): (locs: seq<nat>)
    requires size > 0
    ensures |locs| == WAYS && forall k :: 0 <= k < WAYS ==> locs[k] < size
  {
    [Loc(hash, size, e, 0), Loc(hash, size, e, 1), Loc(hash, size, e, 2), Loc(hash, size, e, 3),
     Loc(hash, size, e, 4), Loc(hash, size, e, 5), Loc(hash, size, e, 6), Loc(hash, size, e, 7)]
  }

  /** The k-th location lies as far into the table as the k-th hash lies into the 32-bit numbers. */
  lemma LocsMean(hash: Hasher, size: nat, e: Element, k: nat)
    requires size > 0 && k < 8
    ensures
      var h, i := hash(k, e) % 0x1_0000_0000, Locs(hash, size, e)[k];
      i * 0x1_0000_0000 <= h * size < (i + 1) * 0x1_0000_0000
  {
    assert Locs(hash, size, e)[k] == Loc(hash, size, e, k);
  }

  /** A slot's element may be looked up there, unless the slot has never been used. */
  ghost predicate Sited(hash: Hasher, t: seq<Element>, bits: seq<bool>)
    requires |t| == |bits| > 0
  {
    forall i :: 0 <= i < |t| && (t[i] != DEFAULT || !bits[i]) ==> i in Locs(hash, |t|, t[i])
  }

  /** No element sits in two slots, collectable or not. */
  ghost predicate Distinct(t: seq<Element>) {
    forall i, j :: 0 <= i < j < |t| && t[i] == t[j] ==> t[i] == DEFAULT
  }

  /** The elements in slots that may not be overwritten. */
  ghost function Live(t: seq<Element>, bits: seq<bool>): set<Element>
    requires |t| == |bits|
  {
    set i | 0 <= i < |t| && !bits[i] :: t[i]
  }

  /** The number of live slots whose epoch flag is `current`. */
  function Count(bits: seq<bool>, epochs: seq<bool>, current: bool): (n: nat)
    requires |bits| == |epochs|
    ensures n <= |bits|
  {
    if bits == [] then 0 else
      var m := |bits| - 1;
      Count(bits[..m], epochs[..m], current) + if !bits[m] && epochs[m] == current then 1 else 0
  }

  lemma {:induction false} CountUpdate(bits: seq<bool>, epochs: seq<bool>, current: bool, i: nat, bit: bool,
      epoch: bool)
    requires |bits| == |epochs| && i < |bits|
    ensures Count(bits[i := bit], epochs[i := epoch], current) + (if !bits[i] && epochs[i] == current then 1 else 0)
         == Count(bits, epochs, current) + (if !bit && epoch == current then 1 else 0)
  {
    var m := |bits| - 1;
    if i == m {
      assert bits[i := bit][..m] == bits[..m] && epochs[i := epoch][..m] == epochs[..m];
    } else {
      assert bits[i := bit][..m] == bits[..m][i := bit] && epochs[i := epoch][..m] == epochs[..m][i := epoch];
      CountUpdate(bits[..m], epochs[..m], current, i, bit, epoch);
    }
  }

  // ---------------------------------------------------------------- epochs

  /** The size of an epoch for a table of `size` slots, in 32-bit arithmetic. */
  function EpochSize(size: nat): nat {
    Max(1, (45 * size) % TWO32 / 100)
  }

  /** An epoch is 45% of the table, at least one element, exactly when the product does not wrap. */
  lemma EpochShare(size: nat)
    requires 2 <= size < TWO32
    ensures EpochSize(size) == Max(1, 45 * size / 100) <==> 45 * size < TWO32
  {
    if 45 * size >= TWO32 {
      assert (45 * size) % TWO32 <= 45 * size - TWO32;
    }
  }

  /** What an epoch may grow to: its size and the slack of the cheapest scan interval. */
  function Bound(epochSize: nat): (n: nat)
    ensures epochSize < n && (epochSize < 16 ==> n == epochSize + 1) && (epochSize >= 16 ==> 16 * n <= 17 * epochSize)
  {
    epochSize + Max(1, epochSize / 16)
  }

  /** The current epoch and the scans still saved up stay within the bound, and so does the old epoch. */
  ghost predicate Budget(bits: seq<bool>, epochs: seq<bool>, counter: nat, epochSize: nat)
    requires |bits| == |epochs|
  {
    && Count(bits, epochs, true) + counter <= Bound(epochSize)
    && Count(bits, epochs, false) <= Bound(epochSize)
  }

  /** Ageing: the old epoch becomes collectable and the current one becomes old. */
  function AgedBits(bits: seq<bool>, epochs: seq<bool>): (r: seq<bool>)
    requires |bits| == |epochs|
    ensures |r| == |bits| && forall i :: 0 <= i < |r| ==> r[i] == (bits[i] || !epochs[i])
  {
    seq(|bits|, i requires 0 <= i < |bits| => bits[i] || !epochs[i])
  }

  function NoEpochs(n: nat): (r: seq<bool>)
    ensures |r| == n && forall i :: 0 <= i < n ==> !r[i]
  {
    seq(n, _ => false)
  }

  datatype Epochs = Epochs(bits: seq<bool>, flags: seq<bool>, counter: nat)

  /** The epoch check that precedes every insertion. */
  function Checked(bits: seq<bool>, epochs: seq<bool>, counter: nat, epochSize: nat): (r: Epochs)
    requires |bits| == |epochs|
    ensures |r.bits| == |r.flags| == |bits|
  {
    if counter != 0 then Epochs(bits, epochs, counter - 1) else
    var used := Count(bits, epochs, true);
    if used >= epochSize then Epochs(AgedBits(bits, epochs), NoEpochs(|bits|), epochSize)
    else Epochs(bits, epochs, Max(1, Max(epochSize / 16, epochSize - used)))
  }

  /** Ageing turns the current count into the old one. */
  lemma {:induction false} AgedCounts(bits: seq<bool>, epochs: seq<bool>)
    requires |bits| == |epochs|
    ensures Count(AgedBits(bits, epochs), NoEpochs(|bits|), true) == 0
    ensures Count(AgedBits(bits, epochs), NoEpochs(|bits|), false) == Count(bits, epochs, true)
  {
    if bits != [] {
      var m := |bits| - 1;
      AgedCounts(bits[..m], epochs[..m]);
      assert AgedBits(bits, epochs)[..m] == AgedBits(bits[..m], epochs[..m]);
      assert NoEpochs(|bits|)[..m] == NoEpochs(m);
    }
  }

  /** The check leaves room in the current epoch for one more element. */
  lemma CheckedBudget(bits: seq<bool>, epochs: seq<bool>, counter: nat, epochSize: nat)
    requires |bits| == |epochs| && epochSize >= 1 && Budget(bits, epochs, counter, epochSize)
    ensures
      var r := Checked(bits, epochs, counter, epochSize);
      && Count(r.bits, r.flags, true) + 1 + r.counter <= Bound(epochSize)
      && Count(r.bits, r.flags, false) <= Bound(epochSize)
  {
    AgedCounts(bits, epochs);
  }

  /** Until an element is inserted, the check only ever drops elements of the old epoch. */
  lemma CheckedLive(t: seq<Element>, bits: seq<bool>, epochs: seq<bool>, counter: nat, epochSize: nat)
    requires |t| == |bits| == |epochs|
    ensures
      var r := Checked(bits, epochs, counter, epochSize);
      && (forall i :: 0 <= i < |t| && !r.bits[i] ==> !bits[i])
      && (forall i :: 0 <= i < |t| && !bits[i] && epochs[i] ==> !r.bits[i])
      && Live(t, r.bits) <= Live(t, bits)
  {
  }

  // ---------------------------------------------------------------- one slot changes

  /** The element in hand is nowhere in the table. */
  ghost predicate Apart(t: seq<Element>, e: Element) {
    e != DEFAULT ==> forall i :: 0 <= i < |t| ==> t[i] != e
  }

  lemma PutSited(hash: Hasher, t: seq<Element>, bits: seq<bool>, i: nat, e: Element)
    requires |t| == |bits| > 0 && Sited(hash, t, bits) && i < |t| && i in Locs(hash, |t|, e)
    ensures Sited(hash, t[i := e], bits) && Sited(hash, t[i := e], bits[i := false])
  {
  }

  lemma PutDistinct(t: seq<Element>, i: nat, e: Element)
    requires Distinct(t) && Apart(t, e) && i < |t|
    ensures Distinct(t[i := e]) && Apart(t[i := e], t[i])
  {
    hide Live;
    var u := t[i := e];
    forall j, k | 0 <= j < k < |u| && u[j] == u[k]
      ensures u[j] == DEFAULT
    {
      if j != i && k != i {
        assert t[j] == t[k];
      }
    }
    forall j | 0 <= j < |u| && t[i] != DEFAULT
      ensures u[j] != t[i]
    {
      if j < i {
        assert u[j] == t[j];
      } else if i < j {
        assert u[j] == t[j];
      }
    }
  }

  /** Exchanging the element in hand with a live slot's loses nothing. */
  lemma SwapLive(t: seq<Element>, bits: seq<bool>, i: nat, e: Element)
    requires |t| == |bits| && i < |t| && !bits[i]
    ensures Live(t[i := e], bits) + {t[i]} == Live(t, bits) + {e}
  {
    var u := t[i := e];
    forall x | x in Live(u, bits) + {t[i]}
      ensures x in Live(t, bits) + {e}
    {
      if x in Live(u, bits) {
        var j :| 0 <= j < |u| && !bits[j] && u[j] == x;
        assert j != i ==> t[j] == x;
      }
    }
    forall x | x in Live(t, bits) + {e}
      ensures x in Live(u, bits) + {t[i]}
    {
      if x in Live(t, bits) {
        var j :| 0 <= j < |t| && !bits[j] && t[j] == x;
        assert j != i ==> u[j] == x;
      }
      assert u[i] == e;
    }
  }

  /** Filling a collectable slot adds one live element. */
  lemma PlaceLive(t: seq<Element>, bits: seq<bool>, i: nat, e: Element)
    requires |t| == |bits| && i < |t| && (bits[i] || t[i] == e)
    ensures Live(t[i := e], bits[i := false]) == Live(t, bits) + {e}
  {
    var u, c := t[i := e], bits[i := false];
    forall x | x in Live(u, c)
      ensures x in Live(t, bits) + {e}
    {
      var j :| 0 <= j < |u| && !c[j] && u[j] == x;
      assert j != i ==> t[j] == x && !bits[j];
    }
    forall x | x in Live(t, bits) + {e}
      ensures x in Live(u, c)
    {
      if x in Live(t, bits) {
        var j :| 0 <= j < |t| && !bits[j] && t[j] == x;
        assert u[j] == x && !c[j];
      }
      assert u[i] == e && !c[i];
    }
  }

  function One(b: bool): nat { if b then 1 else 0 }

  /** An element in hand and the table together hold what they held when the insertion began. */
  ghost predicate InHand(t: seq<Element>, bits: seq<bool>, epochs: seq<bool>, e: Element, recent: bool,
                         all: set<Element>, current: nat, older: nat)
    requires |t| == |bits| == |epochs|
  {
    && Apart(t, e)
    && Live(t, bits) + {e} == all
    && Count(bits, epochs, true) + One(recent) == current
    && Count(bits, epochs, false) + One(!recent) == older
  }

  lemma SwapInHand(t: seq<Element>, bits: seq<bool>, epochs: seq<bool>, e: Element, recent: bool,
                   all: set<Element>, current: nat, older: nat, i: nat)
    requires |t| == |bits| == |epochs| && i < |t| && !bits[i] && Distinct(t)
    requires InHand(t, bits, epochs, e, recent, all, current, older)
    ensures InHand(t[i := e], bits, epochs[i := recent], t[i], epochs[i], all, current, older)
  {
    SwapLive(t, bits, i, e);
    PutDistinct(t, i, e);
    CountUpdate(bits, epochs, true, i, false, recent);
    CountUpdate(bits, epochs, false, i, false, recent);
    assert bits[i := false] == bits;
    hide Live, Count, Apart, Distinct;
  }

  lemma PlaceInHand(t: seq<Element>, bits: seq<bool>, epochs: seq<bool>, e: Element, recent: bool,
                    all: set<Element>, current: nat, older: nat, i: nat)
    requires |t| == |bits| == |epochs| && i < |t| && bits[i] && Distinct(t)
    requires InHand(t, bits, epochs, e, recent, all, current, older)
    ensures Distinct(t[i := e]) && Live(t[i := e], bits[i := false]) == all
    ensures Count(bits[i := false], epochs[i := recent], true) == current
    ensures Count(bits[i := false], epochs[i := recent], false) == older
  {
    PlaceLive(t, bits, i, e);
    PutDistinct(t, i, e);
    CountUpdate(bits, epochs, true, i, false, recent);
    CountUpdate(bits, epochs, false, i, false, recent);
    hide Live, Count, Apart, Distinct;
  }

  /** Keeping an element found in the table. */
  lemma KeepFound(t: seq<Element>, bits: seq<bool>, epochs: seq<bool>, i: nat)
    requires |t| == |bits| == |epochs| && i < |t|
    ensures Live(t, bits[i := false]) == Live(t, bits) + {t[i]}
    ensures Count(bits[i := false], epochs[i := true], true) <= Count(bits, epochs, true) + 1
    ensures Count(bits[i := false], epochs[i := true], false) <= Count(bits, epochs, false)
  {
    PlaceLive(t, bits, i, t[i]);
    assert t[i := t[i]] == t;
    CountUpdate(bits, epochs, true, i, false, true);
    CountUpdate(bits, epochs, false, i, false, true);
  }

  /** The element is already there, or one of its locations is free for it. */
  ghost predicate Hosted(hash: Hasher, t: seq<Element>, bits: seq<bool>, e: Element)
    requires |t| == |bits| > 0
  {
    exists k :: 0 <= k < WAYS && (t[Locs(hash, |t|, e)[k]] == e || bits[Locs(hash, |t|, e)[k]])
  }

  /** What an insertion may do to the kept elements: gain one and lose at most one. */
  ghost predicate Exchanged(before: set<Element>, e: Element, after: set<Element>) {
    after == before + {e} || exists d :: d in before + {e} && after == before + {e} - {d}
  }

  lemma DropExchanged(before: set<Element>, e: Element, after: set<Element>, d: Element)
    requires after + {d} == before + {e}
    ensures Exchanged(before, e, after)
  {
    if d in after {
      assert after == after + {d};
    } else {
      assert d in before + {e};
      assert after == before + {e} - {d};
    }
  }

  function IndexOf(locs: seq<nat>, loc: nat): (k: nat)
    ensures k <= |locs|
    ensures k < |locs| ==> locs[k] == loc
    ensures forall j :: 0 <= j < k ==> locs[j] != loc
  {
    if locs == [] then 0 else if locs[0] == loc then 0 else 1 + IndexOf(locs[1..], loc)
  }

  /** The slot to displace: the location after the one displaced last, or location one if there is none.
      An element just put in is not moved again unless its slot is also the next location. */
  function Victim(locs: seq<nat>, last: nat): (v: nat)
    requires |locs| == WAYS
    ensures v in locs
    ensures last !in locs ==> v == locs[1]
    ensures (forall i, j :: 0 <= i < j < WAYS ==> locs[i] != locs[j]) ==> v != last
  {
    locs[(1 + IndexOf(locs, last)) % 8]
  }

  /** The element displaced next time is found one location further on, and the first follows the last. */
  lemma VictimNext(locs: seq<nat>, k: nat)
    requires |locs| == 8 && k < 8 && forall j :: 0 <= j < k ==> locs[j] != locs[k]
    ensures Victim(locs, locs[k]) == if k == 7 then locs[0] else locs[k + 1]
  {
  }

  /** The number of locations before the first collectable one. */
  function FirstOpen(bits: seq<bool>, locs: seq<nat>): (k: nat)
    requires forall j :: 0 <= j < |locs| ==> locs[j] < |bits|
    ensures k <= |locs|
    ensures k < |locs| ==> bits[locs[k]]
    ensures forall j :: 0 <= j < k ==> !bits[locs[j]]
  {
    if locs == [] then 0 else if bits[locs[0]] then 0 else 1 + FirstOpen(bits, locs[1..])
  }

  /** The slots of the cache: elements, collection flags and epoch flags. */
  datatype Grid = Grid(table: seq<Element>, bits: seq<bool>, epochs: seq<bool>)

  /** The slots after the element in hand goes to its first collectable location. If there is none it takes the victim's
      slot and the victim is put somewhere in turn, until the depth is used up. */
  function Climbed(hash: Hasher, g: Grid, e: Element, recent: bool, last: nat, depth: nat): (h: Grid)
    requires |g.table| == |g.bits| == |g.epochs| > 0
    ensures |h.table| == |h.bits| == |h.epochs| == |g.table|
    decreases depth
  {
    if depth == 0 then g
    else
      var locs := Locs(hash, |g.table|, e);
      var k := FirstOpen(g.bits, locs);
      if k < WAYS then Grid(g.table[locs[k] := e], g.bits[locs[k] := false], g.epochs[locs[k] := recent])
      else
        var v := Victim(locs, last);
        Climbed(hash, Grid(g.table[v := e], g.bits, g.epochs[v := recent]), g.table[v], g.epochs[v], v, depth - 1)
  }

  lemma ClimbStep(hash: Hasher, t: seq<Element>, bits: seq<bool>, epochs: seq<bool>, e: Element, recent: bool,
      last: nat, depth: nat, open: bool, loc: nat)
    requires |t| == |bits| == |epochs| > loc && depth > 0
    requires
      var locs := Locs(hash, |t|, e);
      var k := FirstOpen(bits, locs);
      (open <==> k < WAYS) && loc == if open then locs[k] else Victim(locs, last)
    ensures Climbed(hash, Grid(t, bits, epochs), e, recent, last, depth) ==
            if open then Grid(t[loc := e], bits[loc := false], epochs[loc := recent])
            else Climbed(hash, Grid(t[loc := e], bits, epochs[loc := recent]), t[loc], epochs[loc], loc, depth - 1)
  {
    hide Locs, FirstOpen, Victim;
  }

  lemma ClimbEnd(hash: Hasher, g: Grid, e: Element, recent: bool, last: nat)
    requires |g.table| == |g.bits| == |g.epochs| > 0
    ensures Climbed(hash, g, e, recent, last, 0) == g
  {}

  /** The slots after the whole insertion: the epoch check, then either the element found is kept or it is put in. */
  function InsertedGrid(hash: Hasher, t: seq<Element>, r: Epochs, e: Element, depth: nat): (h: Grid)
    requires |t| == |r.bits| == |r.flags| > 0
    ensures |h.table| == |h.bits| == |h.epochs| == |t|
  {
    var locs := Locs(hash, |t|, e);
    var k := FirstHolding(t, locs, e);
    if k < WAYS then Grid(t, r.bits[locs[k] := false], r.flags[locs[k] := true])
    else Climbed(hash, Grid(t, r.bits, r.flags), e, true, INVALID, depth)
  }

  /** The number of locations before the first one that holds the element. */
  function FirstHolding(t: seq<Element>, locs: seq<nat>, e: Element): (k: nat)
    requires forall j :: 0 <= j < |locs| ==> locs[j] < |t|
    ensures k <= |locs|
    ensures k < |locs| ==> t[locs[k]] == e
    ensures forall j :: 0 <= j < k ==> t[locs[j]] != e
  {
    if locs == [] then 0 else if t[locs[0]] == e then 0 else 1 + FirstHolding(t, locs[1..], e)
  }

  lemma {:induction false} LiveSize(t: seq<Element>, bits: seq<bool>, epochs: seq<bool>)
    requires |t| == |bits| == |epochs|
    ensures |Live(t, bits)| <= Count(bits, epochs, true) + Count(bits, epochs, false)
  {
    if t != [] {
      var m := |t| - 1;
      LiveSize(t[..m], bits[..m], epochs[..m]);
      var rest := Live(t[..m], bits[..m]);
      if bits[m] {
        assert Live(t, bits) == rest by { LiveStep(t, bits); }
      } else {
        assert Live(t, bits) == rest + {t[m]} by { LiveStep(t, bits); }
      }
    }
  }

  lemma LiveStep(t: seq<Element>, bits: seq<bool>)
    requires |t| == |bits| > 0
    ensures
      var m := |t| - 1;
      Live(t, bits) == if bits[m] then Live(t[..m], bits[..m]) else Live(t[..m], bits[..m]) + {t[m]}
  {
    var m := |t| - 1;
    var rest := Live(t[..m], bits[..m]);
    forall x | x in Live(t, bits)
      ensures x in rest || (!bits[m] && x == t[m])
    {
      var j :| 0 <= j < |t| && !bits[j] && t[j] == x;
      assert j < m ==> t[..m][j] == x && !bits[..m][j];
    }
    forall x | x in rest
      ensures x in Live(t, bits)
    {
      var j :| 0 <= j < m && !bits[..m][j] && t[..m][j] == x;
      assert t[j] == x && !bits[j];
    }
  }

  /** A table that has never been written to reports exactly the default element. */
  lemma BlankReports(hash: Hasher, t: seq<Element>, e: Element)
    requires |t| > 0 && forall i :: 0 <= i < |t| ==> t[i] == DEFAULT
    ensures (exists k :: 0 <= k < WAYS && t[Locs(hash, |t|, e)[k]] == e) <==> e == 0
  {
    assert t[Locs(hash, |t|, e)[0]] == 0;
  }
}
