/** Compact block reconstruction as it runs, src/blockencodings.cpp. */
module CompactBlocks {
  import opened Wrappers
  import opened CompactModel

  datatype Status = Ok | Invalid | Failed | CheckFailed

  /** A transaction offered under a hash, from the memory pool or the extra list. */
  datatype Offer = Offer(hash: nat, tx: Tx, fromPool: bool)

  ghost predicate Matches(o: Offer, m: Message, id: nat) {
    m.shortId(o.hash) == id
  }

  ghost predicate HasMatch(offers: seq<Offer>, m: Message, id: nat) {
    exists i :: 0 <= i < |offers| && Matches(offers[i], m, id)
  }

  /** Some matching offer carries the transaction. */
  ghost predicate Carried(offers: seq<Offer>, m: Message, id: nat, tx: Tx) {
    exists i :: 0 <= i < |offers| && Matches(offers[i], m, id) && offers[i].tx == tx
  }

  /** Two offers compete for a slot: a second one from the pool, or one of another hash. */
  ghost predicate Compete(first: Offer, second: Offer, m: Message, id: nat) {
    Matches(first, m, id) && Matches(second, m, id) && (second.fromPool || first.tx.hash != second.tx.hash)
  }

  ghost predicate Clash(offers: seq<Offer>, m: Message, id: nat) {
    exists i, k :: 0 <= i < k < |offers| && Compete(offers[i], offers[k], m, id)
  }

  /** A slot is filled only by a match, has been looked at exactly if there was one, and stays filled unless two
      compete. */
  ghost predicate SlotOk(m: Message, x: Option<Tx>, have: bool, id: nat, offers: seq<Offer>) {
    && (x.Some? ==> Carried(offers, m, id, x.value))
    && (have <==> HasMatch(offers, m, id))
    && (x.Some? ==> have)
    && (have && !Clash(offers, m, id) ==> x.Some?)
  }

  /** What the scans keep: prefilled slots are left alone, and the counter counts the other filled ones. */
  ghost predicate Scanned(m: Message, a: Slots, have: seq<bool>, count: int, offers: seq<Offer>)
    requires Accepted(m)
  {
    && |a| == |have| == |Layout(m)|
    && (forall s :: 0 <= s < |a| && Layout(m)[s].Some? ==> a[s] == Layout(m)[s])
    && (forall j :: 0 <= j < |OpenSlots(m)| ==> OpenSlots(m)[j] < |a|)
    && count == Filled(a, OpenSlots(m))
    && (forall j :: 0 <= j < |OpenSlots(m)| ==>
      SlotOk(m, a[OpenSlots(m)[j]], have[OpenSlots(m)[j]], m.shorttxids[j], offers))
  }

  lemma {:induction false} OfferMore(offers: seq<Offer>, o: Offer, m: Message, id: nat)
    ensures HasMatch(offers + [o], m, id) <==> HasMatch(offers, m, id) || Matches(o, m, id)
    ensures forall tx :: Carried(offers, m, id, tx) ==> Carried(offers + [o], m, id, tx)
    ensures Matches(o, m, id) ==> Carried(offers + [o], m, id, o.tx)
    ensures Clash(offers, m, id) ==> Clash(offers + [o], m, id)
    ensures forall tx :: Carried(offers, m, id, tx) && Matches(o, m, id) && (o.fromPool || tx.hash != o.tx.hash) ==>
      Clash(offers + [o], m, id)
    ensures HasMatch(offers, m, id) && Matches(o, m, id) && o.fromPool ==> Clash(offers + [o], m, id)
  {
    var more := offers + [o];
    assert more[|offers|] == o;
    assert forall i :: 0 <= i < |offers| ==> more[i] == offers[i];
    if Clash(offers, m, id) {
      var i, k :| 0 <= i < k < |offers| && Compete(offers[i], offers[k], m, id);
      assert Compete(more[i], more[k], m, id);
    }
    forall tx | Carried(offers, m, id, tx)
      ensures Carried(more, m, id, tx)
      ensures Matches(o, m, id) && (o.fromPool || tx.hash != o.tx.hash) ==> Clash(more, m, id)
    {
      var i :| 0 <= i < |offers| && Matches(offers[i], m, id) && offers[i].tx == tx;
      assert Matches(more[i], m, id);
      if Matches(o, m, id) && (o.fromPool || tx.hash != o.tx.hash) {
        assert Compete(more[i], more[|offers|], m, id);
      }
    }
    if HasMatch(offers, m, id) {
      var i :| 0 <= i < |offers| && Matches(offers[i], m, id);
      assert Matches(more[i], m, id);
      if Matches(o, m, id) && o.fromPool {
        assert Compete(more[i], more[|offers|], m, id);
      }
    }
  }

  /** What one offer does to the slot it matches. */
  function Settled(x: Option<Tx>, have: bool, o: Offer): Option<Tx> {
    if !have then Some(o.tx)
    else if x.Some? && (o.fromPool || x.value.hash != o.tx.hash) then None
    else x
  }

  lemma SettledOk(m: Message, x: Option<Tx>, have: bool, id: nat, offers: seq<Offer>, o: Offer)
    requires SlotOk(m, x, have, id, offers)
    ensures Matches(o, m, id) ==> SlotOk(m, Settled(x, have, o), true, id, offers + [o])
    ensures !Matches(o, m, id) ==> SlotOk(m, x, have, id, offers + [o])
  {
    OfferMore(offers, o, m, id);
    if !Matches(o, m, id) {
      SameClash(offers, o, m, id);
    }
    hide Matches, HasMatch, Carried, Clash;
  }

  lemma SameClash(offers: seq<Offer>, o: Offer, m: Message, id: nat)
    requires !Matches(o, m, id)
    ensures Clash(offers + [o], m, id) ==> Clash(offers, m, id)
  {
    var more := offers + [o];
    if Clash(more, m, id) {
      var i, k :| 0 <= i < k < |more| && Compete(more[i], more[k], m, id);
      assert k < |offers|;
      assert Compete(offers[i], offers[k], m, id);
    }
  }

  /** The offer matches the j-th short id. */
  lemma ScannedMatch(m: Message, a: Slots, have: seq<bool>, count: int, offers: seq<Offer>, o: Offer, j: nat)
    requires Accepted(m) && DistinctIds(m.shorttxids) && Scanned(m, a, have, count, offers)
    requires j < |m.shorttxids| && Matches(o, m, m.shorttxids[j])
    ensures
      var s := OpenSlots(m)[j];
      var x := Settled(a[s], have[s], o);
      Scanned(m, a[s := x], have[s := true], count + (if x.Some? then 1 else 0) - (if a[s].Some? then 1 else 0),
          offers + [o])
  {
    OpenSlotsOk(m);
    var slots := OpenSlots(m);
    var s := slots[j];
    var x := Settled(a[s], have[s], o);
    FilledUpdate(a, slots, j, x);
    forall i | 0 <= i < |slots|
      ensures SlotOk(m, a[s := x][slots[i]], have[s := true][slots[i]], m.shorttxids[i], offers + [o])
    {
      SettledOk(m, a[slots[i]], have[slots[i]], m.shorttxids[i], offers, o);
      assert i != j ==> slots[i] != s && m.shorttxids[i] != m.shorttxids[j];
    }
    hide SlotOk, Filled, Settled;
  }

  /** The three things that can happen to the slot of a matching offer. */
  lemma ScannedOffer(m: Message, a: Slots, have: seq<bool>, count: int, offers: seq<Offer>, o: Offer, j: nat)
    requires Accepted(m) && DistinctIds(m.shorttxids) && Scanned(m, a, have, count, offers)
    requires j < |m.shorttxids| && Matches(o, m, m.shorttxids[j])
    ensures
      var s := OpenSlots(m)[j];
      && s < |a| == |have|
      && if !have[s] then Scanned(m, a[s := Some(o.tx)], have[s := true], count + 1, offers + [o])
         else if a[s].Some? && (o.fromPool || a[s].value.hash != o.tx.hash) then
             Scanned(m, a[s := None], have, count - 1, offers + [o])
         else Scanned(m, a, have, count, offers + [o])
  {
    var s := OpenSlots(m)[j];
    ScannedMatch(m, a, have, count, offers, o, j);
    assert SlotOk(m, a[s], have[s], m.shorttxids[j], offers);
    hide Scanned;
    assert have[s] ==> have[s := true] == have;
    assert a[s := a[s]] == a;
  }

  lemma ScannedMiss(m: Message, a: Slots, have: seq<bool>, count: int, offers: seq<Offer>, o: Offer)
    requires Accepted(m) && Scanned(m, a, have, count, offers) && m.shortId(o.hash) !in m.shorttxids
    ensures Scanned(m, a, have, count, offers + [o])
  {
    var slots := OpenSlots(m);
    forall i | 0 <= i < |slots|
      ensures SlotOk(m, a[slots[i]], have[slots[i]], m.shorttxids[i], offers + [o])
    {
      SettledOk(m, a[slots[i]], have[slots[i]], m.shorttxids[i], offers, o);
    }
  }

  /** Once every slot is filled, further offers change nothing. */
  lemma {:induction false} ScannedFull(m: Message, a: Slots, have: seq<bool>, count: int, offers: seq<Offer>, n: nat)
    requires Accepted(m) && n <= |offers| && Scanned(m, a, have, count, offers[..n]) && count == |m.shorttxids|
    ensures Scanned(m, a, have, count, offers)
  {
    var slots := OpenSlots(m);
    FilledAll(a, slots);
    forall i | 0 <= i < |slots|
      ensures SlotOk(m, a[slots[i]], have[slots[i]], m.shorttxids[i], offers)
    {
      assert SlotOk(m, a[slots[i]], have[slots[i]], m.shorttxids[i], offers[..n]);
      CarriedMore(offers, n, m, m.shorttxids[i], a[slots[i]].value);
    }
  }

  lemma CarriedMore(offers: seq<Offer>, n: nat, m: Message, id: nat, tx: Tx)
    requires n <= |offers| && Carried(offers[..n], m, id, tx)
    ensures Carried(offers, m, id, tx) && HasMatch(offers, m, id)
  {
    var i :| 0 <= i < n && Matches(offers[..n][i], m, id) && offers[..n][i].tx == tx;
    assert Matches(offers[i], m, id);
  }

  lemma ScannedStart(m: Message)
    requires Accepted(m)
    ensures Scanned(m, Layout(m), seq(|Layout(m)|, _ => false), 0, [])
  {
    OpenSlotsOk(m);
    FilledNone(Layout(m), OpenSlots(m));
  }

  /** One of the first `n` insertions overfills a bucket. */
  ghost predicate Overfull(crowded: nat -> bool, n: nat) {
    exists i :: 0 <= i < n && crowded(i)
  }

  lemma IndexedNone(short: seq<nat>, slots: seq<nat>)
    ensures Indexed(map[], short[..0], slots)
  {
  }

  /** The message is refused out of hand. */
  predicate Refused(m: Message, maxTxs: nat) {
    m.headerNull || (m.shorttxids == [] && m.prefilled == []) || |m.shorttxids| + |m.prefilled| > maxTxs
  }

  /** What a successful InitData establishes. */
  ghost predicate Initialised(m: Message, a: Slots, count: int, offers: seq<Offer>)
    requires Accepted(m)
  {
    && |a| == |Layout(m)|
    && (forall s :: 0 <= s < |a| && Layout(m)[s].Some? ==> a[s] == Layout(m)[s])
    && (forall j :: 0 <= j < |OpenSlots(m)| ==> OpenSlots(m)[j] < |a|)
    && count == Filled(a, OpenSlots(m))
    && (forall j :: 0 <= j < |OpenSlots(m)| ==> Outcome(m, a[OpenSlots(m)[j]], m.shorttxids[j], offers))
  }

  /** A slot holds only what was offered for it, and unless two offers compete it holds something if anything was. */
  ghost predicate Outcome(m: Message, x: Option<Tx>, id: nat, offers: seq<Offer>) {
    && (x.Some? ==> Carried(offers, m, id, x.value))
    && (!Clash(offers, m, id) ==> (x.Some? <==> HasMatch(offers, m, id)))
  }

  lemma ScannedEnd(m: Message, a: Slots, have: seq<bool>, count: int, offers: seq<Offer>)
    requires Accepted(m) && Scanned(m, a, have, count, offers)
    ensures Initialised(m, a, count, offers)
  {
    forall j | 0 <= j < |OpenSlots(m)|
      ensures Outcome(m, a[OpenSlots(m)[j]], m.shorttxids[j], offers)
    {
      assert SlotOk(m, a[OpenSlots(m)[j]], have[OpenSlots(m)[j]], m.shorttxids[j], offers);
    }
  }

  /** No offer matches a short id of the block by accident. */
  ghost predicate Separating(m: Message, block: seq<Tx>, offers: seq<Offer>)
    requires Describes(m, block)
  {
    forall i, j :: 0 <= i < |offers| && 0 <= j < |m.shorttxids| && Matches(offers[i], m, m.shorttxids[j]) ==>
      offers[i].tx == block[OpenSlots(m)[j]]
  }

  /** With separating short ids, whatever has been filled in is right. */
  lemma FilledRight(m: Message, block: seq<Tx>, a: Slots, count: int, offers: seq<Offer>)
    requires Describes(m, block) && Separating(m, block, offers) && Initialised(m, a, count, offers)
    ensures forall s :: 0 <= s < |a| && a[s].Some? ==> a[s].value == block[s]
  {
    OpenSlotsOk(m);
    forall s | 0 <= s < |a| && a[s].Some?
      ensures a[s].value == block[s]
    {
      if Layout(m)[s].None? {
        var j :| 0 <= j < |OpenSlots(m)| && OpenSlots(m)[j] == s;
        assert Outcome(m, a[s], m.shorttxids[j], offers);
        var i :| 0 <= i < |offers| && Matches(offers[i], m, m.shorttxids[j]) && offers[i].tx == a[s].value;
      }
    }
  }

  /** Any accepted message for a block, once initialised, is completed by the block's own missing transactions. */
  lemma Reconstructs(m: Message, block: seq<Tx>, a: Slots, count: int, offers: seq<Offer>)
    requires Describes(m, block) && Separating(m, block, offers) && Initialised(m, a, count, offers)
    ensures Woven(a, Missing(block, a)) == block
  {
    FilledRight(m, block, a, count, offers);
    WovenBlock(a, block);
  }

  /** The slots before the k-th have been moved out, the others are as before. */
  ghost predicate EmptiedTo(before: Slots, after: Slots, k: nat) {
    |before| == |after| && forall s :: 0 <= s < |after| ==> after[s] == if s < k then None else before[s]
  }

  lemma OpenTotal(a: Slots)
    ensures forall i :: 0 <= i <= |a| ==> |Open(a[..i])| <= |Open(a)|
  {
    forall i | 0 <= i <= |a|
      ensures |Open(a[..i])| <= |Open(a)|
    {
      OpenPrefix(a, i);
    }
  }

  class PartialBlock {
    var headerNull: bool
    var available: Slots
    var prefilledCount: nat
    var mempoolCount: int

    constructor ()
      ensures headerNull && available == [] && prefilledCount == 0 && mempoolCount == 0
    {
      headerNull, available, prefilledCount, mempoolCount := true, [], 0, 0;
    }

    /** Puts the prefilled transactions in their slots. */
    method Prefill(m: Message) returns (status: Status)
      requires available == Blank(|m.shorttxids| + |m.prefilled|)
      modifies this`available, this`prefilledCount
      ensures status == if Accepted(m) then Ok else Invalid
      ensures status == Ok ==> available == Layout(m) && prefilledCount == |m.prefilled|
    {
      var last := -1;
      for i := 0 to |m.prefilled|
        invariant last == Position(m.prefilled, i)
        invariant (forall j :: 0 <= j < i ==> Fits(m, j)) && available == Laid(m, i)
      {
        if m.prefilled[i].tx.isNull {
          assert !Fits(m, i);
          return Invalid;
        }
        last := last + m.prefilled[i].index + 1;
        if last > MAX16 {
          assert !Fits(m, i);
          return Invalid;
        }
        if last > |m.shorttxids| + i {
          assert !Fits(m, i);
          return Invalid;
        }
        assert Fits(m, i);
        available := available[last := Some(m.prefilled[i].tx)];
      }
      prefilledCount := |m.prefilled|;
      return Ok;
    }

    /** The first i short ids have been mapped and the scan is at i + offset. */
    ghost predicate Mapped(short: seq<nat>, ids: map<nat, nat>, i: nat, offset: nat)
      reads this
    {
      && i <= |short| == |Open(available)| && i + offset <= |available|
      && |Open(available[..i + offset])| == i
      && Indexed(ids, short[..i], Open(available))
    }

    /** Maps one more short id. */
    method MapOne(short: seq<nat>, ids: map<nat, nat>, i: nat, start: nat) returns (ids': map<nat, nat>, offset: nat)
      requires |available| <= MAX16 && i < |short| && Mapped(short, ids, i, start)
      ensures Mapped(short, ids', i + 1, offset)
    {
      offset := SkipFilled(i, start);
      hide Open, Indexed;
      IndexedStep(ids, short, Open(available), i);
      ids' := ids[short[i] := (i + offset) % (MAX16 + 1)];
      assert (i + offset) % (MAX16 + 1) == Open(available)[i];
    }

    /** Maps each short id to the next open slot. `crowded` says after which insertions a hash bucket holds too many. */
    method MapIds(short: seq<nat>, crowded: nat -> bool) returns (full: bool, ids: map<nat, nat>)
      requires |Open(available)| == |short| && |available| <= MAX16
      ensures full <==> Overfull(crowded, |short|)
      ensures !full ==> Indexed(ids, short, Open(available))
    {
      ids := map[];
      var offset: nat := 0;
      assert available[..0] == [];
      IndexedNone(short, Open(available));
      assert Mapped(short, ids, 0, 0);
      hide PartialBlock.Mapped;
      for i := 0 to |short|
        invariant forall j :: 0 <= j < i ==> !crowded(j)
        invariant Mapped(short, ids, i, offset)
      {
        ids, offset := MapOne(short, ids, i, offset);
        if crowded(i) {
          return true, ids;
        }
      }
      MappedAll(short, ids, offset);
      return false, ids;
    }

    lemma MappedAll(short: seq<nat>, ids: map<nat, nat>, offset: nat)
      requires Mapped(short, ids, |short|, offset)
      ensures Indexed(ids, short, Open(available))
    {
      assert short[..|short|] == short;
    }

    /** Assigns the short ids to the open slots, unless two of them are the same or a bucket gets too full. */
    method AssignIds(m: Message, crowded: nat -> bool) returns (status: Status, ids: map<nat, nat>)
      requires WellFormed(m) && Accepted(m) && available == Layout(m)
      ensures status == if Overfull(crowded, |m.shorttxids|) || !DistinctIds(m.shorttxids) then Failed else Ok
      ensures status == Ok ==> Indexed(ids, m.shorttxids, OpenSlots(m))
    {
      ghost var slots := OpenSlots(m);
      var full;
      full, ids := MapIds(m.shorttxids, crowded);
      if full {
        return Failed, ids;
      }
      IndexedSize(ids, m.shorttxids, slots);
      return if |ids| != |m.shorttxids| then Failed else Ok, ids;
    }

    /** Puts an offered transaction into the slot of its short id, or empties the slot if two compete for it. */
    method Consider(m: Message, ids: map<nat, nat>, have: seq<bool>, o: Offer, ghost offers: seq<Offer>)
      returns (have': seq<bool>)
      requires Accepted(m) && DistinctIds(m.shorttxids) && Indexed(ids, m.shorttxids, OpenSlots(m))
      requires Scanned(m, available, have, mempoolCount, offers)
      modifies this`available, this`mempoolCount
      ensures Scanned(m, available, have', mempoolCount, offers + [o])
    {
      have' := have;
      var id := m.shortId(o.hash);
      if id in ids {
        var s := ids[id];
        ghost var j :| 0 <= j < |m.shorttxids| && m.shorttxids[j] == id && s == OpenSlots(m)[j];
        ScannedOffer(m, available, have, mempoolCount, offers, o, j);
        hide Scanned, Indexed, DistinctIds, Accepted, OpenSlots;
        if !have[s] {
          available := available[s := Some(o.tx)];
          have' := have[s := true];
          mempoolCount := mempoolCount + 1;
        } else if available[s].Some? && (o.fromPool || available[s].value.hash != o.tx.hash) {
          available := available[s := None];
          mempoolCount := mempoolCount - 1;
        }
      } else {
        ScannedMiss(m, available, have, mempoolCount, offers, o);
      }
    }

    /** Scans the memory pool, then the extra transactions, stopping when every slot is filled. */
    method Scan(m: Message, ids: map<nat, nat>, offers: seq<Offer>, start: nat, have: seq<bool>)
      returns (have': seq<bool>)
      requires Accepted(m) && DistinctIds(m.shorttxids) && Indexed(ids, m.shorttxids, OpenSlots(m))
      requires |ids| == |m.shorttxids|
      requires start <= |offers| && Scanned(m, available, have, mempoolCount, offers[..start])
      modifies this`available, this`mempoolCount
      ensures Scanned(m, available, have', mempoolCount, offers)
    {
      hide Scanned, Indexed, DistinctIds;
      have' := have;
      for i := start to |offers|
        invariant Scanned(m, available, have', mempoolCount, offers[..i])
      {
        assert offers[..i + 1] == offers[..i] + [offers[i]];
        have' := Consider(m, ids, have', offers[i], offers[..i]);
        if mempoolCount == |ids| {
          ScannedFull(m, available, have', mempoolCount, offers, i + 1);
          return;
        }
      }
      assert offers[..|offers|] == offers;
    }

    /** InitData. `maxTxs` is the number of smallest transactions that fit in a block. */
    method InitData(m: Message, maxTxs: nat, pool: seq<Offer>, extra: seq<Offer>, crowded: nat -> bool)
      returns (status: Status)
      requires WellFormed(m) && headerNull && available == [] && mempoolCount == 0
      modifies this
      ensures status == if Refused(m, maxTxs) || !Accepted(m) then Invalid
                        else if Overfull(crowded, |m.shorttxids|) || !DistinctIds(m.shorttxids) then Failed
                        else Ok
      ensures status == Ok ==> !headerNull && Initialised(m, available, mempoolCount, pool + extra)
    {
      hide Indexed, DistinctIds, Initialised, Overfull;
      if Refused(m, maxTxs) {
        return Invalid;
      }
      headerNull := m.headerNull;
      available := Blank(|m.shorttxids| + |m.prefilled|);
      status := Prefill(m);
      if status != Ok {
        return;
      }
      var ids;
      status, ids := AssignIds(m, crowded);
      if status != Ok {
        return;
      }
      FillIn(m, ids, pool, extra);
    }

    /** Fills the open slots from the pool and then from the extra transactions. */
    method FillIn(m: Message, ids: map<nat, nat>, pool: seq<Offer>, extra: seq<Offer>)
      requires Accepted(m) && available == Layout(m) && mempoolCount == 0
      requires DistinctIds(m.shorttxids) && Indexed(ids, m.shorttxids, OpenSlots(m))
      modifies this`available, this`mempoolCount
      ensures Initialised(m, available, mempoolCount, pool + extra)
    {
      IndexedSize(ids, m.shorttxids, OpenSlots(m));
      ScannedStart(m);
      hide Scanned, Indexed, DistinctIds, Initialised, Layout, OpenSlots;
      var have := seq(|available|, _ => false);
      assert pool[..0] == [];
      have := Scan(m, ids, pool, 0, have);
      assert (pool + extra)[..|pool|] == pool;
      have := Scan(m, ids, pool + extra, |pool|, have);
      ScannedEnd(m, available, have, mempoolCount, pool + extra);
    }

    /** FillBlock. `check` stands for CheckBlock. Too few transactions leave the slots before the first unmet one
        emptied. */
    method FillBlock(missing: seq<Tx>, check: seq<Tx> -> Status) returns (status: Status, block: seq<Tx>)
      requires !headerNull
      modifies this
      ensures |missing| < |old(Open(available))| ==>
        status == Invalid && !headerNull && EmptiedTo(old(available), available, old(Open(available))[|missing|])
      ensures |missing| >= |old(Open(available))| ==> headerNull && available == []
      ensures |missing| > |old(Open(available))| ==> status == Invalid
      ensures |missing| == |old(Open(available))| ==>
        block == Woven(old(available), missing) && status == check(Woven(old(available), missing))
    {
      ghost var a := available;
      block := [];
      var offset := 0;
      assert a[..0] == [];
      OpenTotal(a);
      hide Open, Woven;
      for i := 0 to |available|
        invariant !headerNull && EmptiedTo(a, available, i)
        invariant offset == |Open(a[..i])| <= |missing|
        invariant block == Woven(a[..i], missing)
      {
        WeaveStep(a, i, missing);
        if available[i].None? {
          if |missing| <= offset {
            ScanStep(a, i, offset);
            return Invalid, block;
          }
          block := block + [missing[offset]];
          offset := offset + 1;
        } else {
          block := block + [available[i].value];
          available := available[i := None];
        }
      }
      assert a[..|a|] == a;
      headerNull := true;
      available := [];
      if |missing| != offset {
        return Invalid, block;
      }
      return check(block), block;
    }

    /** Moves on to the next open slot, which exists. */
    method SkipFilled(i: nat, start: nat) returns (offset: nat)
      requires i + start <= |available| <= MAX16 && |Open(available[..i + start])| == i < |Open(available)|
      ensures i + offset < |available| && Open(available)[i] == i + offset
      ensures |Open(available[..i + offset + 1])| == i + 1
    {
      hide Open;
      offset := start;
      ScanStep(available, i + offset, i);
      while available[i + offset].Some?
        invariant i + offset < |available| && |Open(available[..i + offset])| == i
        decreases |available| - offset
      {
        ScanStep(available, i + offset, i);
        offset := (offset + 1) % (MAX16 + 1);
        ScanStep(available, i + offset, i);
      }
      ScanStep(available, i + offset, i);
    }
  }

  /** A block sent as a compact block and completed with the transactions its receiver lacks arrives unchanged. */
  method Relay(block: seq<Tx>, shortId: nat -> nat, maxTxs: nat, pool: seq<Offer>, extra: seq<Offer>,
      crowded: nat -> bool,
               check: seq<Tx> -> Status)
    returns (status: Status, received: seq<Tx>)
    requires 0 < |block| <= MAX16 && !block[0].isNull
    requires Describes(Encode(block, shortId), block) ==> Separating(Encode(block, shortId), block, pool + extra)
    ensures
      var m := Encode(block, shortId);
      var clash := Overfull(crowded, |m.shorttxids|) || !DistinctIds(m.shorttxids);
      && status == (if |block| > maxTxs then Invalid else if clash then Failed else check(block))
      && received == if |block| > maxTxs || clash then [] else block
  {
    EncodeDescribes(block, shortId);
    var m := Encode(block, shortId);
    var partial := new PartialBlock();
    status := partial.InitData(m, maxTxs, pool, extra, crowded);
    received := [];
    if status == Ok {
      Reconstructs(m, block, partial.available, partial.mempoolCount, pool + extra);
      hide Describes, Separating, Initialised;
      var missing := Request(block, partial.available);
      status, received := partial.FillBlock(missing, check);
    }
  }

  /** The transactions a receiver asks for. */
  method Request(block: seq<Tx>, a: Slots) returns (missing: seq<Tx>)
    requires |block| == |a|
    ensures missing == Missing(block, a)
  {
    missing := [];
    for i := 0 to |a|
      invariant missing == Missing(block[..i], a[..i])
    {
      assert a[..i + 1][..i] == a[..i] && block[..i + 1][..i] == block[..i];
      if a[i].None? {
        missing := missing + [block[i]];
      }
    }
    assert a[..|a|] == a && block[..|a|] == block;
  }
}
