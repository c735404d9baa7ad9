/** Coins, cache entries and what one layer of the coins cache means on top of another
    (src/coins.h, src/coins.cpp), on plain values. */
module CoinModel {
  import opened Wrappers

  datatype OutPoint = OutPoint(hash: nat, n: nat)

  type Script = seq<nat>

  datatype Coin = Coin(nValue: int, script: Script, nHeight: nat, fCoinBase: bool)

  const OP_RETURN := 0x6a
  const MAX_SCRIPT_SIZE := 10000

  const EmptyCoin := Coin(-1, [], 0, false)

  predicate IsSpent(c: Coin) {
    c.nValue == -1
  }

  predicate IsUnspendable(s: Script) {
    (|s| > 0 && s[0] == OP_RETURN) || |s| > MAX_SCRIPT_SIZE
  }

  /** A script that starts with the opcode 0x6a can never be spent, nor one longer than 10000 bytes. */
  lemma UnspendableMeans(s: Script)
    ensures IsUnspendable(s) <==> [0x6a] <= s || |s| > 10000
  {
  }

  datatype Entry = Entry(coin: Coin, dirty: bool, isFresh: bool)

  type Utxos = map<OutPoint, Coin>
  type CoinsMap = map<OutPoint, Entry>

  /** The unspent coins a cache shows on top of a parent that shows `p`. */
  function Overlay(p: Utxos, c: CoinsMap): (v: Utxos)
    ensures forall o :: o in v <==> if o in c then !IsSpent(c[o].coin) else o in p
    ensures forall o :: o in v ==> v[o] == if o in c then c[o].coin else p[o]
  {
    map o | o in p.Keys + c.Keys && (o in c ==> !IsSpent(c[o].coin)) :: if o in c then c[o].coin else p[o]
  }

  function At(v: Utxos, o: OutPoint): Option<Coin> {
    if o in v then Some(v[o]) else None
  }

  /** What a cache shows at one outpoint. */
  function See(p: Utxos, c: CoinsMap, o: OutPoint): Option<Coin> {
    if o in c then (if IsSpent(c[o].coin) then None else Some(c[o].coin)) else At(p, o)
  }

  lemma OverlayAt(p: Utxos, c: CoinsMap, o: OutPoint)
    ensures At(Overlay(p, c), o) == See(p, c, o)
  {}

  lemma SameAt(v: Utxos, w: Utxos)
    requires forall o :: At(v, o) == At(w, o)
    ensures v == w
  {
    forall o ensures (o in v <==> o in w) && (o in v ==> v[o] == w[o]) {
      assert At(v, o) == At(w, o);
    }
  }

  /** The combinations of spent, DIRTY and FRESH that the header documents as valid. */
  predicate Documented(en: Entry) {
    || (!IsSpent(en.coin) && en.isFresh && en.dirty)
    || (!IsSpent(en.coin) && !en.isFresh && en.dirty)
    || (!IsSpent(en.coin) && !en.isFresh && !en.dirty)
    || (IsSpent(en.coin) && en.isFresh && !en.dirty)
    || (IsSpent(en.coin) && !en.isFresh && en.dirty)
  }

  /** What an entry for `o` promises about the parent's coins `p`: FRESH means the parent has no such coin, not
      DIRTY means the two agree; and no entry is both spent and FRESH. */
  ghost predicate EntryOk(p: Utxos, o: OutPoint, en: Entry) {
    && Documented(en)
    && !(IsSpent(en.coin) && en.isFresh)
    && (en.isFresh ==> o !in p)
    && (!en.dirty ==> o in p && p[o] == en.coin)
  }

  ghost predicate EntriesOk(p: Utxos, c: CoinsMap) {
    forall o :: o in c ==> EntryOk(p, o, c[o])
  }

  // ---------------------------------------------------------------- one operation on one layer

  lemma FetchKeeps(p: Utxos, c: CoinsMap, o: OutPoint)
    requires EntriesOk(p, c) && o !in c && o in p && !IsSpent(p[o])
    ensures EntriesOk(p, c[o := Entry(p[o], false, false)])
    ensures Overlay(p, c[o := Entry(p[o], false, false)]) == Overlay(p, c)
  {}

  lemma UncacheKeeps(p: Utxos, c: CoinsMap, o: OutPoint)
    requires EntriesOk(p, c) && o in c && !c[o].dirty && !c[o].isFresh
    ensures EntriesOk(p, c - {o}) && Overlay(p, c - {o}) == Overlay(p, c)
  {
    assert EntryOk(p, o, c[o]);
  }

  /** The entry AddCoin leaves. */
  function Added(c: CoinsMap, o: OutPoint, coin: Coin, possibleOverwrite: bool): Entry {
    var was := if o in c then c[o] else Entry(EmptyCoin, false, false);
    var isFresh := !possibleOverwrite && !was.dirty;
    Entry(coin, true, was.isFresh || isFresh)
  }

  lemma AddKeeps(p: Utxos, c: CoinsMap, o: OutPoint, coin: Coin, possibleOverwrite: bool)
    requires EntriesOk(p, c) && !IsSpent(coin)
    requires !possibleOverwrite ==> if o in c then IsSpent(c[o].coin) else o !in p
    ensures EntriesOk(p, c[o := Added(c, o, coin, possibleOverwrite)])
    ensures Overlay(p, c[o := Added(c, o, coin, possibleOverwrite)]) == Overlay(p, c)[o := coin]
  {
    if o in c {
      assert EntryOk(p, o, c[o]);
    }
  }

  /** Claiming no overwrite for a coin the parent has breaks the layer: once spent again, the parent's coin
      reappears. */
  lemma AddMisused(p: Utxos, c: CoinsMap, o: OutPoint, coin: Coin)
    requires EntriesOk(p, c) && !IsSpent(coin) && o !in c && o in p
    ensures !EntriesOk(p, c[o := Added(c, o, coin, false)])
    ensures Spent(c[o := Added(c, o, coin, false)], o) == c && o in Overlay(p, c)
  {
    var d := c[o := Added(c, o, coin, false)];
    assert !EntryOk(p, o, d[o]);
    assert d - {o} == c;
  }

  /** The layer after SpendCoin of a coin it holds. */
  function Spent(c: CoinsMap, o: OutPoint): CoinsMap
    requires o in c
  {
    if c[o].isFresh then c - {o} else c[o := Entry(EmptyCoin, true, false)]
  }

  /** Spending the coin just added leaves no trace of it exactly if the layer may forget it: there was nothing to
      overwrite and no change waiting to be written, or the entry was FRESH already. Otherwise the spent coin stays as a
      change to be written. */
  lemma AddSpend(c: CoinsMap, o: OutPoint, coin: Coin, possibleOverwrite: bool)
    ensures
      var d := Spent(c[o := Added(c, o, coin, possibleOverwrite)], o);
      if (o in c && c[o].isFresh) || (!possibleOverwrite && (o in c ==> !c[o].dirty)) then d == c - {o}
      else d == c[o := Entry(Coin(-1, [], 0, false), true, false)]
  {
  }

  lemma SpendKeeps(p: Utxos, c: CoinsMap, o: OutPoint)
    requires EntriesOk(p, c) && o in c
    ensures EntriesOk(p, Spent(c, o))
    ensures Overlay(p, Spent(c, o)) == Overlay(p, c) - {o}
  {
    assert EntryOk(p, o, c[o]);
    SpendEntries(p, c, o);
    hide EntriesOk, Overlay;
    forall x ensures At(Overlay(p, Spent(c, o)), x) == At(Overlay(p, c) - {o}, x) {
      OverlayAt(p, c, x);
      OverlayAt(p, Spent(c, o), x);
    }
    SameAt(Overlay(p, Spent(c, o)), Overlay(p, c) - {o});
  }

  lemma SpendEntries(p: Utxos, c: CoinsMap, o: OutPoint)
    requires EntriesOk(p, c) && o in c
    ensures EntriesOk(p, Spent(c, o))
  {}

  // ---------------------------------------------------------------- flushing a child into its parent

  /** The parent layer after BatchWrite met the child's entry `en` for `o`. */
  function Merged(c: CoinsMap, o: OutPoint, en: Entry): CoinsMap {
    if !en.dirty then c
    else if o !in c then
      if en.isFresh && IsSpent(en.coin) then c else c[o := Entry(en.coin, true, en.isFresh)]
    else if c[o].isFresh && IsSpent(en.coin) then c - {o}
    else c[o := Entry(en.coin, true, c[o].isFresh)]
  }

  /** A coin that a child holds FRESH and unspent is one the layer may forget after the flush too; a spent coin takes a
      FRESH entry away; what did not change in the child changes nothing. */
  lemma MergeSpend(c: CoinsMap, o: OutPoint, en: Entry)
    ensures !en.dirty ==> Merged(c, o, en) == c
    ensures en.dirty && en.isFresh && !IsSpent(en.coin) && o !in c ==> Spent(Merged(c, o, en), o) == c
    ensures en.dirty && IsSpent(en.coin) && o in c && c[o].isFresh ==> Merged(c, o, en) == c - {o}
    ensures en.dirty && o in c && !c[o].isFresh ==> Merged(c, o, en) == c[o := Entry(en.coin, true, false)]
    ensures en.dirty && !en.isFresh && o !in c ==> Merged(c, o, en) == c[o := Entry(en.coin, true, false)]
  {
  }

  lemma MergeEntries(p: Utxos, c: CoinsMap, o: OutPoint, en: Entry)
    requires EntriesOk(p, c) && EntryOk(Overlay(p, c), o, en)
    ensures EntriesOk(p, Merged(c, o, en))
  {
    var d := Merged(c, o, en);
    assert o in c ==> EntryOk(p, o, c[o]);
    forall x | x in d ensures EntryOk(p, x, d[x]) {
      if x != o {
        assert x in c && d[x] == c[x];
      }
    }
  }

  lemma MergeView(p: Utxos, c: CoinsMap, o: OutPoint, en: Entry)
    requires EntriesOk(p, c) && EntryOk(Overlay(p, c), o, en)
    ensures Overlay(p, Merged(c, o, en)) == Overlay(Overlay(p, c), map[o := en])
  {
    var d, v := Merged(c, o, en), Overlay(p, c);
    assert o in c ==> EntryOk(p, o, c[o]);
    hide EntriesOk, Overlay;
    forall x ensures At(Overlay(p, d), x) == At(Overlay(v, map[o := en]), x) {
      OverlayAt(p, d, x);
      OverlayAt(p, c, x);
      OverlayAt(v, map[o := en], x);
    }
    SameAt(Overlay(p, d), Overlay(v, map[o := en]));
  }

  /** A child entry that keeps its promises about the parent never makes BatchWrite throw, leaves a valid parent
      layer, and changes what the parent shows at `o` to what the child showed. */
  lemma MergeKeeps(p: Utxos, c: CoinsMap, o: OutPoint, en: Entry)
    requires EntriesOk(p, c) && EntryOk(Overlay(p, c), o, en)
    ensures !(en.isFresh && o in c && !IsSpent(c[o].coin))
    ensures EntriesOk(p, Merged(c, o, en))
    ensures Overlay(p, Merged(c, o, en)) == Overlay(Overlay(p, c), map[o := en])
  {
    MergeEntries(p, c, o, en);
    MergeView(p, c, o, en);
  }

  lemma OverlayOther(v: Utxos, o: OutPoint, en: Entry, o2: OutPoint, en2: Entry)
    requires EntryOk(v, o2, en2) && o2 != o
    ensures EntryOk(Overlay(v, map[o := en]), o2, en2)
  {}

  /** What a database holds after writing the child's entry `en` for `o`. */
  function Written(v: Utxos, o: OutPoint, en: Entry): Utxos {
    if !en.dirty then v else if IsSpent(en.coin) then v - {o} else v[o := en.coin]
  }

  /** Entries of `c` whose turn has not come, seen from the end: the others are laid over `v`. */
  function Visited(c: CoinsMap, rest: CoinsMap): CoinsMap {
    c - rest.Keys
  }

  lemma VisitedStep(c: CoinsMap, rest: CoinsMap, o: OutPoint)
    requires o in rest && o in c
    ensures o !in Visited(c, rest)
    ensures Visited(c, rest - {o}) == Visited(c, rest)[o := c[o]]
  {}

  lemma VisitedEnds(c: CoinsMap, v: Utxos)
    ensures Visited(c, map[]) == c && Overlay(v, Visited(c, c)) == v
  {
    assert Visited(c, c) == map[];
    OverlayEmpty(v);
  }

  lemma WriteStep(v: Utxos, c: CoinsMap, rest: CoinsMap, o: OutPoint)
    requires o in rest && o in c && EntryOk(v, o, c[o])
    ensures Written(Overlay(v, Visited(c, rest)), o, c[o]) == Overlay(v, Visited(c, rest - {o}))
  {
    VisitedStep(c, rest, o);
    var d, en := Visited(c, rest), c[o];
    hide Visited, Overlay;
    forall x ensures At(Written(Overlay(v, d), o, en), x) == At(Overlay(v, d[o := en]), x) {
      OverlayAt(v, d, x);
      OverlayAt(v, d[o := en], x);
    }
    SameAt(Written(Overlay(v, d), o, en), Overlay(v, d[o := en]));
  }

  /** Entries that still wait keep their promises while others are laid over the view. */
  ghost predicate Waiting(v: Utxos, c: CoinsMap, rest: CoinsMap) {
    forall x :: x in rest ==> x in c && rest[x] == c[x] && EntryOk(v, x, c[x])
  }

  lemma OverlayStep(v: Utxos, c: CoinsMap, rest: CoinsMap, o: OutPoint)
    requires o in rest && Waiting(Overlay(v, Visited(c, rest)), c, rest)
    ensures Overlay(Overlay(v, Visited(c, rest)), map[o := c[o]]) == Overlay(v, Visited(c, rest - {o}))
    ensures Waiting(Overlay(v, Visited(c, rest - {o})), c, rest - {o})
  {
    VisitedStep(c, rest, o);
    var d, en := Visited(c, rest), c[o];
    var l, r := Overlay(Overlay(v, d), map[o := en]), Overlay(v, d[o := en]);
    hide Visited, Overlay;
    forall x ensures At(l, x) == At(r, x) {
      OverlayAt(v, d, x);
      OverlayAt(v, d[o := en], x);
      OverlayAt(Overlay(v, d), map[o := en], x);
    }
    SameAt(l, r);
    forall x | x in rest - {o} ensures EntryOk(r, x, c[x]) {
      OverlayOther(Overlay(v, d), o, en, x, c[x]);
    }
  }

  /** An untouched layer shows what the parent shows. */
  lemma OverlayEmpty(v: Utxos)
    ensures Overlay(v, map[]) == v
  {}

  // ---------------------------------------------------------------- memory accounting

  /** The summed script memory of all entries. */
  ghost function Usage(c: CoinsMap, mem: Script -> nat): int {
    if c == map[] then 0 else
    var o :| o in c;
    mem(c[o].coin.script) + Usage(c - {o}, mem)
  }

  lemma {:induction false} UsageWithout(c: CoinsMap, mem: Script -> nat, o: OutPoint)
    requires o in c
    ensures Usage(c, mem) == mem(c[o].coin.script) + Usage(c - {o}, mem)
    decreases |c|
  {
    var x :| x in c && Usage(c, mem) == mem(c[x].coin.script) + Usage(c - {x}, mem);
    if x != o {
      UsageWithout(c - {x}, mem, o);
      UsageWithout(c - {o}, mem, x);
      assert c - {x} - {o} == c - {o} - {x};
    }
  }

  lemma UsageSet(c: CoinsMap, mem: Script -> nat, o: OutPoint, en: Entry)
    ensures Usage(c[o := en], mem) ==
      Usage(c, mem) + mem(en.coin.script) - (if o in c then mem(c[o].coin.script) else 0)
  {
    UsageWithout(c[o := en], mem, o);
    if o in c {
      UsageWithout(c, mem, o);
      assert c[o := en] - {o} == c - {o};
    } else {
      assert c[o := en] - {o} == c;
    }
  }

  lemma NoEntries(p: Utxos, mem: Script -> nat)
    ensures EntriesOk(p, map[]) && Usage(map[], mem) == 0
  {}
}
