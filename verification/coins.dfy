/** The stack of coin caches of src/coins.cpp over a coin database. */
module CoinCaches {
  import opened Wrappers
  import opened CoinModel

  /** The coin database at the bottom of every stack (CCoinsViewDB). */
  class CoinsDB {
    var coins: Utxos
    var bestBlock: nat

    ghost predicate Valid()
      reads this`coins
    {
      forall o :: o in coins ==> !IsSpent(coins[o])
    }

    constructor (initial: Utxos, best: nat)
      requires forall o :: o in initial ==> !IsSpent(initial[o])
      ensures Valid() && coins == initial && bestBlock == best
    {
      coins, bestBlock := initial, best;
    }

    method BatchWrite(mapCoins: CoinsMap, hashBlock: nat)
      requires Valid() && EntriesOk(coins, mapCoins) && hashBlock != 0
      modifies this
      ensures Valid() && coins == Overlay(old(coins), mapCoins) && bestBlock == hashBlock
    {
      hide Overlay, EntryOk, Visited;
      var rest := mapCoins;
      ghost var was := coins;
      VisitedEnds(mapCoins, was);
      while rest != map[]
        invariant forall x :: x in rest ==> x in mapCoins && rest[x] == mapCoins[x]
        invariant Valid() && coins == Overlay(was, Visited(mapCoins, rest))
        decreases |rest|
      {
        var o :| o in rest;
        WriteStep(was, mapCoins, rest, o);
        if rest[o].dirty {
          if IsSpent(rest[o].coin) {
            coins := coins - {o};
          } else {
            coins := coins[o := rest[o].coin];
          }
        }
        rest := rest - {o};
      }
      bestBlock := hashBlock;
    }
  }

  /** What asking the top layer for the best block leaves: layers without one take over that of the layer below. */
  function Filled(marks: seq<nat>): (r: seq<nat>)
    requires marks != []
    ensures |r| == |marks|
  {
    var n := |marks| - 1;
    if n == 0 || marks[n] != 0 then marks else var below := Filled(marks[..n]); below + [below[n - 1]]
  }

  /** The best block the top layer shows: the first that is set on the way down. */
  function BestOf(marks: seq<nat>): nat
    requires marks != []
  {
    var n := |marks| - 1;
    if n == 0 || marks[n] != 0 then marks[n] else BestOf(marks[..n])
  }

  /** Looking up the best block changes the one that no layer shows, and gives every layer asked its own. */
  lemma {:induction false} FilledShows(marks: seq<nat>, k: nat)
    requires 0 < k <= |marks|
    ensures BestOf(Filled(marks)[..k]) == BestOf(marks[..k])
    ensures Filled(marks)[|marks| - 1] == BestOf(marks)
  {
    var n := |marks| - 1;
    if n > 0 && marks[n] == 0 {
      var below := Filled(marks[..n]);
      if k <= n {
        FilledShows(marks[..n], k);
        assert Filled(marks)[..k] == below[..k] && marks[..n][..k] == marks[..k];
      } else {
        FilledShows(marks[..n], n);
        assert Filled(marks)[..k] == below + [below[n - 1]] && marks[..k] == marks;
        assert (below + [below[n - 1]])[..n] == below && below[..n] == below && marks[..n][..n] == marks[..n];
      }
    } else {
      assert marks[..|marks|] == marks;
    }
  }

  /** The best block comes from the highest layer that has one, or else from the database; asking for it gives it to the
      layers above that one and changes no other. */
  lemma {:induction false} BestMeans(marks: seq<nat>) returns (k: nat)
    requires marks != []
    ensures k < |marks| && (k == 0 || marks[k] != 0) && forall j :: k < j < |marks| ==> marks[j] == 0
    ensures BestOf(marks) == marks[k]
    ensures forall j :: 0 <= j < |marks| ==> Filled(marks)[j] == marks[if j < k then j else k]
  {
    k := |marks| - 1;
    if k > 0 && marks[k] == 0 {
      k := BestMeans(marks[..k]);
    }
  }

  lemma FilledTop(below: seq<nat>, mark: nat)
    requires below != []
    ensures Filled(below + [mark]) == if mark != 0 then below + [mark] else Filled(below) + [BestOf(below)]
    ensures BestOf(below + [mark]) == if mark != 0 then mark else BestOf(below)
  {
    FilledShows(below, |below|);
    assert (below + [mark])[..|below|] == below;
  }

  /** Flushing hands the layer below the best block the top layer shows exactly if the top layer has one of its own
      or the layer below had none, or the same as the layers below it. */
  lemma FlushShows(marks: seq<nat>)
    requires |marks| >= 3
    ensures
      var n := |marks| - 1;
      var after := marks[n - 1 := marks[n]];
      BestOf(after) == BestOf(after[..n]) &&
      (BestOf(after[..n]) == BestOf(marks) <==>
        marks[n] != 0 || marks[n - 1] == 0 || marks[n - 1] == BestOf(marks[..n - 1]))
  {
    var n := |marks| - 1;
    var after := marks[n - 1 := marks[n]];
    assert after[..n][..n - 1] == marks[..n][..n - 1] == marks[..n - 1];
  }

  /** A cache over another cache or, when `base` is null, over the database. */
  class CoinsCache {
    const base: CoinsCache?
    const db: CoinsDB
    const depth: nat
    const mem: Script -> nat
    var cacheCoins: CoinsMap
    var cachedCoinsUsage: int
    var hashBlock: nat

    ghost predicate Linked()
      decreases depth
    {
      && mem([]) == 0
      && (base != null ==> base.depth < depth && base.db == db && base.mem == mem && base.Linked())
    }

    /** This cache and all caches below it. */
    ghost function Stack(): set<CoinsCache>
      requires Linked()
      ensures forall c :: c in Stack() ==> c.depth <= depth && c.db == db
      ensures this in Stack()
      decreases depth
    {
      {this} + if base == null then {} else base.Stack()
    }

    /** The unspent coins this cache shows. */
    ghost function View(): Utxos
      requires Linked()
      reads Stack()`cacheCoins, db`coins
      decreases depth, 1
    {
      Overlay(ParentView(), cacheCoins)
    }

    ghost function ParentView(): Utxos
      requires Linked()
      reads (Stack() - {this})`cacheCoins, db`coins
      decreases depth, 0
    {
      if base == null then db.coins else base.View()
    }

    ghost predicate ParentValid()
      requires Linked()
      reads (Stack() - {this})`cacheCoins, (Stack() - {this})`cachedCoinsUsage, db`coins
      decreases depth, 0
    {
      if base == null then db.Valid() else base.Valid()
    }

    ghost predicate Valid()
      requires Linked()
      reads Stack()`cacheCoins, Stack()`cachedCoinsUsage, db`coins
      decreases depth, 1
    {
      && ParentValid()
      && EntriesOk(ParentView(), cacheCoins)
      && cachedCoinsUsage == Usage(cacheCoins, mem)
    }

    constructor OverDatabase(database: CoinsDB, memory: Script -> nat)
      requires database.Valid() && memory([]) == 0
      ensures Linked() && base == null && db == database && mem == memory && Valid() && cacheCoins == map[]
      ensures hashBlock == 0
    {
      base, db, depth, mem := null, database, 0, memory;
      cacheCoins, cachedCoinsUsage, hashBlock := map[], 0, 0;
    }

    constructor Over(parent: CoinsCache)
      requires parent.Linked() && parent.Valid()
      ensures Linked() && base == parent && depth == parent.depth + 1 && db == parent.db && mem == parent.mem
      ensures Valid() && cacheCoins == map[] && hashBlock == 0
    {
      base, db, depth, mem := parent, parent.db, parent.depth + 1, parent.mem;
      cacheCoins, cachedCoinsUsage, hashBlock := map[], 0, 0;
    }

    /** What every layer shows, from the database up to this cache. */
    ghost function Views(): seq<Utxos>
      requires Linked()
      reads Stack()`cacheCoins, db`coins
      decreases depth, 2
    {
      LowerViews() + [View()]
    }

    ghost function LowerViews(): (s: seq<Utxos>)
      requires Linked()
      reads (Stack() - {this})`cacheCoins, db`coins
      ensures |s| > 0
      decreases depth, 0
    {
      if base == null then [db.coins] else base.Views()
    }

    /** The best block that each layer has been told or has looked up, zero if none, the database's first. */
    ghost function Marks(): (s: seq<nat>)
      requires Linked()
      reads Stack()`hashBlock, db`bestBlock
      ensures |s| >= 2
      decreases depth, 2
    {
      LowerMarks() + [hashBlock]
    }

    ghost function LowerMarks(): (s: seq<nat>)
      requires Linked()
      reads (Stack() - {this})`hashBlock, db`bestBlock
      ensures |s| > 0
      decreases depth, 0
    {
      if base == null then [db.bestBlock] else base.Marks()
    }

    /** The best block this cache shows. */
    ghost function Best(): nat
      requires Linked()
      reads Stack()`hashBlock, db`bestBlock
    {
      BestOf(Marks())
    }

    /** Stores an entry whose previous usage has been taken off the counter. */
    method Put(o: OutPoint, entry: Entry)
      requires Linked() && ParentValid() && EntriesOk(ParentView(), cacheCoins[o := entry])
      requires cachedCoinsUsage ==
        Usage(cacheCoins, mem) - (if o in cacheCoins then mem(cacheCoins[o].coin.script) else 0)
      modifies this`cacheCoins, this`cachedCoinsUsage
      ensures Valid() && View() == Overlay(ParentView(), cacheCoins)
      ensures LowerViews() == old(LowerViews())
      ensures ParentView() == old(ParentView())
      ensures cacheCoins == old(cacheCoins)[o := entry]
    {
      hide EntriesOk, Usage, Overlay;
      UsageSet(cacheCoins, mem, o, entry);
      cacheCoins := cacheCoins[o := entry];
      cachedCoinsUsage := cachedCoinsUsage + mem(entry.coin.script);
    }

    /** FetchCoin's insertion of a coin found below. */
    method Remember(o: OutPoint, coin: Coin)
      requires Linked() && Valid() && o !in cacheCoins && o in ParentView() && ParentView()[o] == coin && !IsSpent(coin)
      modifies this`cacheCoins, this`cachedCoinsUsage
      ensures Valid() && View() == old(View())
      ensures LowerViews() == old(LowerViews())
      ensures ParentView() == old(ParentView())
      ensures cacheCoins == old(cacheCoins)[o := Entry(coin, false, false)]
    {
      hide EntriesOk, Usage, Overlay;
      FetchKeeps(ParentView(), cacheCoins, o);
      Put(o, Entry(coin, false, false));
    }

    method FetchCoin(o: OutPoint) returns (found: bool)
      requires Linked() && Valid()
      modifies Stack()`cacheCoins, Stack()`cachedCoinsUsage
      ensures Valid() && View() == old(View()) && hashBlock == old(hashBlock)
      ensures LowerViews() == old(LowerViews())
      ensures ParentView() == old(ParentView())
      ensures found <==> o in cacheCoins
      ensures found <==> o in old(cacheCoins) || o in ParentView()
      ensures cacheCoins == if found && o !in old(cacheCoins) then
        old(cacheCoins)[o := Entry(ParentView()[o], false, false)] else old(cacheCoins)
      decreases depth, 1
    {
      hide EntriesOk, Usage, Overlay;
      if o in cacheCoins {
        return true;
      }
      var tmp := BaseGetCoin(o);
      if tmp.None? {
        return false;
      }
      Remember(o, tmp.value);
      found := true;
    }

    /** base->GetCoin: the database or the cache below. */
    method BaseGetCoin(o: OutPoint) returns (r: Option<Coin>)
      requires Linked() && Valid()
      modifies (Stack() - {this})`cacheCoins, (Stack() - {this})`cachedCoinsUsage
      ensures Valid() && LowerViews() == old(LowerViews())
      ensures ParentView() == old(ParentView())
      ensures r == At(ParentView(), o)
      ensures r.Some? ==> !IsSpent(r.value)
      decreases depth, 0
    {
      hide EntriesOk, Usage, Overlay;
      if base == null {
        r := if o in db.coins then Some(db.coins[o]) else None;
      } else {
        r := base.GetCoin(o);
      }
    }

    method GetCoin(o: OutPoint) returns (r: Option<Coin>)
      requires Linked() && Valid()
      modifies Stack()`cacheCoins, Stack()`cachedCoinsUsage
      ensures Valid() && Views() == old(Views())
      ensures View() == old(View())
      ensures r == At(View(), o)
      ensures r.Some? ==> !IsSpent(r.value)
      decreases depth, 2
    {
      hide EntriesOk, Usage, Overlay;
      var found := FetchCoin(o);
      OverlayAt(ParentView(), cacheCoins, o);
      if found {
        var coin := cacheCoins[o].coin;
        r := if IsSpent(coin) then None else Some(coin);
      } else {
        r := None;
      }
    }

    method HaveCoin(o: OutPoint) returns (r: bool)
      requires Linked() && Valid()
      modifies Stack()`cacheCoins, Stack()`cachedCoinsUsage
      ensures Valid() && Views() == old(Views()) && View() == old(View()) && LowerViews() == old(LowerViews())
      ensures r <==> o in View()
    {
      hide EntriesOk, Usage, Overlay;
      var found := FetchCoin(o);
      OverlayAt(ParentView(), cacheCoins, o);
      r := found && !IsSpent(cacheCoins[o].coin);
    }

    /** Throws when told that there is nothing to overwrite and this cache holds the coin unspent; the caller must not
        say so when a lower layer has the coin. */
    method AddCoin(o: OutPoint, coin: Coin, possibleOverwrite: bool) returns (thrown: bool)
      requires Linked() && Valid() && !IsSpent(coin)
      requires !IsUnspendable(coin.script) && !possibleOverwrite && o !in cacheCoins ==> o !in ParentView()
      modifies this`cacheCoins, this`cachedCoinsUsage
      ensures thrown <==>
        && !IsUnspendable(coin.script) && !possibleOverwrite
        && o in old(cacheCoins) && !IsSpent(old(cacheCoins)[o].coin)
      ensures !thrown ==> Valid()
      ensures !thrown ==> View() == if IsUnspendable(coin.script) then old(View()) else old(View())[o := coin]
      ensures !thrown && !IsUnspendable(coin.script) ==>
        cacheCoins == old(cacheCoins)[o := Added(old(cacheCoins), o, coin, possibleOverwrite)]
      ensures thrown ==>
        && cacheCoins == old(cacheCoins)
        && cachedCoinsUsage == old(cachedCoinsUsage) - mem(old(cacheCoins)[o].coin.script)
      ensures LowerViews() == old(LowerViews())
    {
      hide EntriesOk, Usage, Overlay;
      if IsUnspendable(coin.script) {
        return false;
      }
      var inserted := o !in cacheCoins;
      var entry := if inserted then Entry(EmptyCoin, false, false) else cacheCoins[o];
      var isFresh := false;
      if !inserted {
        cachedCoinsUsage := cachedCoinsUsage - mem(entry.coin.script);
      }
      if !possibleOverwrite {
        if !IsSpent(entry.coin) {
          return true;
        }
        isFresh := !entry.dirty;
      }
      AddKeeps(ParentView(), cacheCoins, o, coin, possibleOverwrite);
      entry := Entry(coin, true, entry.isFresh || isFresh);
      Put(o, entry);
      thrown := false;
    }

    /** Returns whether the outpoint was known here or below; `moveout` is the coin it held. */
    method SpendCoin(o: OutPoint) returns (known: bool, moveout: Coin)
      requires Linked() && Valid()
      modifies Stack()`cacheCoins, Stack()`cachedCoinsUsage
      ensures Valid() && View() == old(View()) - {o}
      ensures o in old(View()) ==> known && moveout == old(View())[o]
      ensures known && o !in old(View()) ==> o in old(cacheCoins) && IsSpent(moveout)
      ensures LowerViews() == old(LowerViews()) && hashBlock == old(hashBlock)
    {
      hide EntriesOk, Usage, Overlay, EntryOk;
      known := FetchCoin(o);
      OverlayAt(ParentView(), cacheCoins, o);
      moveout := EmptyCoin;
      if !known {
        assert View() - {o} == View();
        return;
      }
      moveout := cacheCoins[o].coin;
      SpendHere(o);
    }

    /** SpendCoin once the entry is in this cache. */
    method SpendHere(o: OutPoint)
      requires Linked() && Valid() && o in cacheCoins
      modifies this`cacheCoins, this`cachedCoinsUsage
      ensures Valid() && View() == old(View()) - {o} && cacheCoins == Spent(old(cacheCoins), o)
      ensures LowerViews() == old(LowerViews())
    {
      hide EntriesOk, Usage, Overlay;
      SpendKeeps(ParentView(), cacheCoins, o);
      UsageWithout(cacheCoins, mem, o);
      UsageSet(cacheCoins, mem, o, Entry(EmptyCoin, true, false));
      var entry := cacheCoins[o];
      cachedCoinsUsage := cachedCoinsUsage - mem(entry.coin.script);
      if entry.isFresh {
        cacheCoins := cacheCoins - {o};
      } else {
        cacheCoins := cacheCoins[o := Entry(EmptyCoin, true, entry.isFresh)];
      }
    }

    method Uncache(o: OutPoint)
      requires Linked() && Valid()
      modifies this`cacheCoins, this`cachedCoinsUsage
      ensures Valid() && View() == old(View())
      ensures cacheCoins == if o in old(cacheCoins) && !old(cacheCoins)[o].dirty && !old(cacheCoins)[o].isFresh
                            then old(cacheCoins) - {o} else old(cacheCoins)
      ensures LowerViews() == old(LowerViews())
    {
      hide EntriesOk, Usage, Overlay;
      if o in cacheCoins && !cacheCoins[o].dirty && !cacheCoins[o].isFresh {
        UncacheKeeps(ParentView(), cacheCoins, o);
        UsageWithout(cacheCoins, mem, o);
        cachedCoinsUsage := cachedCoinsUsage - mem(cacheCoins[o].coin.script);
        cacheCoins := cacheCoins - {o};
      }
    }

    /** One round of BatchWrite's loop. */
    method MergeOne(o: OutPoint, en: Entry)
      requires Linked() && Valid() && EntryOk(View(), o, en)
      modifies this`cacheCoins, this`cachedCoinsUsage
      ensures Valid() && View() == Overlay(old(View()), map[o := en]) && cacheCoins == Merged(old(cacheCoins), o, en)
      ensures LowerViews() == old(LowerViews())
    {
      hide EntriesOk, Usage, Overlay, EntryOk;
      MergeKeeps(ParentView(), cacheCoins, o, en);
      if !en.dirty {
        return;
      }
      if o !in cacheCoins {
        if !(en.isFresh && IsSpent(en.coin)) {
          Put(o, Entry(en.coin, true, en.isFresh));
        }
      } else {
        var entry := cacheCoins[o];
        // FRESH in the child means this cache does not hold the coin unspent.
        assert !(en.isFresh && !IsSpent(entry.coin));
        UsageWithout(cacheCoins, mem, o);
        cachedCoinsUsage := cachedCoinsUsage - mem(entry.coin.script);
        if entry.isFresh && IsSpent(en.coin) {
          cacheCoins := cacheCoins - {o};
        } else {
          Put(o, Entry(en.coin, true, entry.isFresh));
        }
      }
    }

    /** BatchWrite's loop. */
    method MergeAll(mapCoins: CoinsMap)
      requires Linked() && Valid() && EntriesOk(View(), mapCoins)
      modifies this`cacheCoins, this`cachedCoinsUsage
      ensures Valid() && View() == Overlay(old(View()), mapCoins)
      ensures LowerViews() == old(LowerViews())
    {
      hide Usage, Overlay, EntryOk, Visited, Valid, View, LowerViews, Linked;
      var rest := mapCoins;
      ghost var was := View();
      VisitedEnds(mapCoins, was);
      while rest != map[]
        invariant Valid() && View() == Overlay(was, Visited(mapCoins, rest)) && Waiting(View(), mapCoins, rest)
        invariant LowerViews() == old(LowerViews())
        decreases |rest|
      {
        var o :| o in rest;
        OverlayStep(was, mapCoins, rest, o);
        MergeOne(o, rest[o]);
        rest := rest - {o};
      }
    }

    method BatchWrite(mapCoins: CoinsMap, hashBlockIn: nat)
      requires Linked() && Valid() && EntriesOk(View(), mapCoins)
      modifies this
      ensures Valid() && View() == Overlay(old(View()), mapCoins) && hashBlock == hashBlockIn
      ensures LowerViews() == old(LowerViews())
    {
      hide EntriesOk, Usage, Overlay, EntryOk;
      LastLayer();
      MergeAll(mapCoins);
      LastLayer();
      hashBlock := hashBlockIn;
    }

    lemma LastLayer()
      requires Linked()
      ensures |LowerViews()| == |LowerMarks()| > 0
      ensures ParentView() == LowerViews()[|LowerViews()| - 1]
      decreases depth
    {
      if base != null {
        base.LastLayer();
      }
    }

    lemma Absent(o: OutPoint)
      requires Linked()
      ensures o !in View() ==> if o in cacheCoins then IsSpent(cacheCoins[o].coin) else o !in ParentView()
    {
      OverlayAt(ParentView(), cacheCoins, o);
    }

    /** Everything below an existing cache exists. */
    lemma StackExists()
      requires Linked()
      ensures forall c :: c in Stack() ==> allocated(c)
      decreases depth
    {
      if base != null {
        base.StackExists();
      }
    }

    lemma TopLayer()
      requires Linked()
      ensures |Views()| >= 2 && Views()[..|Views()| - 1] == LowerViews() && Views()[|Views()| - 1] == View()
      ensures |Marks()| == |Views()| && Marks()[..|Marks()| - 1] == LowerMarks()
      ensures base == null <==> |Views()| == 2
    {
      LastLayer();
      if base != null {
        base.LastLayer();
      }
    }

    lemma DropLayer()
      requires Linked() && Valid() && base != null
      ensures base.Valid() && base.Views() == LowerViews() && base.Marks() == LowerMarks()
    {}

    /** base->BatchWrite: the database or the cache below. The database refuses a null best block. */
    method WriteBelow()
      requires Linked() && Valid() && (base == null ==> hashBlock != 0)
      modifies base, db
      ensures ParentValid() && ParentView() == old(View()) && cacheCoins == old(cacheCoins)
      ensures hashBlock == old(hashBlock)
      ensures LowerViews() == old(LowerViews())[|old(LowerViews())| - 1 := old(View())]
      ensures LowerMarks() == old(LowerMarks())[|old(LowerMarks())| - 1 := hashBlock]
    {
      hide EntriesOk, Usage, Overlay, EntryOk;
      StackExists();
      if base == null {
        db.BatchWrite(cacheCoins, hashBlock);
      } else {
        base.BatchWrite(cacheCoins, hashBlock);
      }
    }

    /** Pushes every change of this cache down one layer. */
    method Flush()
      requires Linked() && Valid() && (base == null ==> hashBlock != 0)
      modifies this, base, db
      ensures Valid() && cacheCoins == map[] && cachedCoinsUsage == 0 && hashBlock == old(hashBlock)
      ensures View() == old(View()) && ParentView() == old(View())
      ensures LowerViews() == old(LowerViews())[|old(LowerViews())| - 1 := old(View())]
      ensures LowerMarks() == old(LowerMarks())[|old(LowerMarks())| - 1 := hashBlock]
    {
      hide EntriesOk, Usage, Overlay, EntryOk;
      WriteBelow();
      cacheCoins := map[];
      cachedCoinsUsage := 0;
      OverlayEmpty(ParentView());
      NoEntries(ParentView(), mem);
    }

    /** base->GetBestBlock: the database or the cache below. */
    method BaseBestBlock() returns (b: nat)
      requires Linked()
      modifies (Stack() - {this})`hashBlock
      ensures LowerMarks() == Filled(old(LowerMarks())) && b == BestOf(old(LowerMarks()))
      decreases depth, 0
    {
      if base == null {
        b := db.bestBlock;
      } else {
        b := base.GetBestBlock();
      }
    }

    method GetBestBlock() returns (best: nat)
      requires Linked()
      modifies Stack()`hashBlock
      ensures Marks() == Filled(old(Marks())) && best == old(Best())
      decreases depth, 1
    {
      StackExists();
      FilledTop(LowerMarks(), hashBlock);
      hide Filled, BestOf;
      if hashBlock == 0 {
        hashBlock := BaseBestBlock();
      }
      best := hashBlock;
    }

    method SetBestBlock(hashBlockIn: nat)
      requires Linked() && Valid()
      modifies this`hashBlock
      ensures Valid() && View() == old(View()) && hashBlock == hashBlockIn
      ensures LowerViews() == old(LowerViews())
    {
      hide EntriesOk, Usage, Overlay;
      hashBlock := hashBlockIn;
    }
  }

  // ---------------------------------------------------------------- whole transactions

  datatype TxOut = TxOut(nValue: int, script: Script)
  datatype Tx = Tx(hash: nat, vout: seq<TxOut>, coinBase: bool)

  function OutputCoin(tx: Tx, i: nat, height: nat): Coin
    requires i < |tx.vout|
  {
    Coin(tx.vout[i].nValue, tx.vout[i].script, height, tx.coinBase)
  }

  /** What the caller of AddCoins has to see to, for the first `k` outputs: no amount stands for a spent coin, and
      without a check no output is there already, unless coinbase outputs may be overwritten. */
  predicate Addable(v: Utxos, tx: Tx, check: bool, k: nat)
    requires k <= |tx.vout|
  {
    forall i | 0 <= i < k ::
      && tx.vout[i].nValue != -1
      && (check || tx.coinBase || IsUnspendable(tx.vout[i].script) || OutPoint(tx.hash, i) !in v)
  }

  /** The view with the first `k` outputs of a transaction added, as far as they can be spent. */
  function WithOutputs(v: Utxos, tx: Tx, height: nat, k: nat): (w: Utxos)
    requires k <= |tx.vout|
    ensures forall o :: o in w <==> o in v || (o.hash == tx.hash && o.n < k && !IsUnspendable(tx.vout[o.n].script))
    ensures forall o :: o in w ==>
      w[o] == if o.hash == tx.hash && o.n < k && !IsUnspendable(tx.vout[o.n].script) then OutputCoin(tx, o.n, height)
          else v[o]
  {
    if k == 0 then v
    else
      var w := WithOutputs(v, tx, height, k - 1);
      if IsUnspendable(tx.vout[k - 1].script) then w
      else w[OutPoint(tx.hash, k - 1) := OutputCoin(tx, k - 1, height)]
  }

  /** After AddCoins an outpoint of the transaction shows its output, with the block's height, unless that can never be
      spent; every other outpoint shows what it showed. */
  lemma OutputsMean(v: Utxos, tx: Tx, height: nat, o: OutPoint)
    ensures
      var w := WithOutputs(v, tx, height, |tx.vout|);
      if o.hash == tx.hash && o.n < |tx.vout| && !([0x6a] <= tx.vout[o.n].script || |tx.vout[o.n].script| > 10000) then
        && o in w && w[o].nValue == tx.vout[o.n].nValue && w[o].script == tx.vout[o.n].script
        && w[o].nHeight == height && w[o].fCoinBase == tx.coinBase
      else At(w, o) == At(v, o)
  {
    hide WithOutputs;
    if o.n < |tx.vout| {
      UnspendableMeans(tx.vout[o.n].script);
    }
  }

  lemma NextOutput(v: Utxos, tx: Tx, height: nat, check: bool, i: nat)
    requires i < |tx.vout| && Addable(v, tx, check, |tx.vout|)
    ensures
      var w, o := WithOutputs(v, tx, height, i), OutPoint(tx.hash, i);
      && tx.vout[i].nValue != -1
      && (check || tx.coinBase || IsUnspendable(tx.vout[i].script) || o !in w)
      && WithOutputs(v, tx, height, i + 1) ==
         if IsUnspendable(tx.vout[i].script) then w else w[o := OutputCoin(tx, i, height)]
  {
    hide IsUnspendable;
  }

  /** AddCoins: adds every output that can be spent, and AddCoin never throws. */
  method AddCoins(cache: CoinsCache, tx: Tx, height: nat, check: bool)
    requires cache.Linked() && cache.Valid() && Addable(cache.View(), tx, check, |tx.vout|)
    modifies cache.Stack()`cacheCoins, cache.Stack()`cachedCoinsUsage
    ensures cache.Valid() && cache.LowerViews() == old(cache.LowerViews())
    ensures cache.View() == WithOutputs(old(cache.View()), tx, height, |tx.vout|)
  {
    hide IsUnspendable, CoinsCache.Valid, CoinsCache.View, CoinsCache.LowerViews, Addable;
    ghost var was := cache.View();
    assert WithOutputs(was, tx, height, 0) == was;
    hide WithOutputs;
    for i := 0 to |tx.vout|
      invariant cache.Valid() && cache.LowerViews() == old(cache.LowerViews())
      invariant cache.View() == WithOutputs(was, tx, height, i)
    {
      NextOutput(was, tx, height, check, i);
      var o := OutPoint(tx.hash, i);
      var overwrite := tx.coinBase;
      if check {
        overwrite := cache.HaveCoin(o);
      }
      AddTop(cache, o, OutputCoin(tx, i, height), overwrite);
    }
  }

  /** AddCoin where the caller keeps the promise about overwriting. */
  method AddTop(top: CoinsCache, o: OutPoint, coin: Coin, overwrite: bool)
    requires top.Linked() && top.Valid() && !IsSpent(coin)
    requires overwrite || IsUnspendable(coin.script) || o !in top.View()
    modifies top`cacheCoins, top`cachedCoinsUsage
    ensures top.Valid() && top.LowerViews() == old(top.LowerViews())
    ensures top.View() == if IsUnspendable(coin.script) then old(top.View()) else old(top.View())[o := coin]
  {
    hide Overlay, EntriesOk, Usage, IsUnspendable, CoinsCache.Valid, CoinsCache.View;
    top.Absent(o);
    var thrown := top.AddCoin(o, coin, overwrite);
    assert !thrown;
  }

  // ---------------------------------------------------------------- runs

  datatype Op =
    | Push                                              // a new cache over the top one
    | Drop                                              // the top cache is thrown away
    | Flush                                             // the top cache is written to the layer below
    | SetBest(block: nat)
    | GetBest
    | Add(o: OutPoint, coin: Coin, overwrite: bool)     // AddCoin
    | AddTx(tx: Tx, height: nat, check: bool)           // AddCoins
    | Spend(o: OutPoint)
    | Get(o: OutPoint)
    | Have(o: OutPoint)
    | Uncache(o: OutPoint)

  /** What the source asks of the caller of an operation, on plain maps: coins to be added are unspent and overwrite
      no coin without saying so, and the database is not flushed to without a best block. */
  predicate Allowed(s: seq<Utxos>, marks: seq<nat>, op: Op)
    requires |s| == |marks| >= 2
  {
    var n := |s| - 1;
    match op
    case Flush => n > 1 || marks[n] != 0
    case Add(o, coin, overwrite) => !IsSpent(coin) && (overwrite || IsUnspendable(coin.script) || o !in s[n])
    case AddTx(tx, _, check) => Addable(s[n], tx, check, |tx.vout|)
    case _ => true
  }

  /** A cache over a cache may always be flushed, one over the database exactly if it has a best block. */
  lemma FlushAllowed(s: seq<Utxos>, marks: seq<nat>)
    requires |s| == |marks| >= 2
    ensures Allowed(s, marks, Flush) <==> |s| > 2 || marks[1] != 0
  {
  }

  /** The same operation on a stack of plain maps, the database first. */
  function Plain(s: seq<Utxos>, op: Op): (t: seq<Utxos>)
    requires |s| >= 2
    ensures |t| >= 2
  {
    var n := |s| - 1;
    match op
    case Push => s + [s[n]]
    case Drop => if n > 1 then s[..n] else s
    case Flush => s[n - 1 := s[n]]
    case Add(o, coin, _) => if IsUnspendable(coin.script) then s else s[n := s[n][o := coin]]
    case AddTx(tx, height, _) => s[n := WithOutputs(s[n], tx, height, |tx.vout|)]
    case Spend(o) => s[n := s[n] - {o}]
    case _ => s
  }

  /** What an operation does to the best blocks the layers hold. */
  function Marked(marks: seq<nat>, op: Op): (m: seq<nat>)
    requires |marks| >= 2
    ensures |m| >= 2
  {
    var n := |marks| - 1;
    match op
    case Push => marks + [0]
    case Drop => if n > 1 then marks[..n] else marks
    case Flush => marks[n - 1 := marks[n]]
    case SetBest(block) => marks[n := block]
    case GetBest => Filled(marks)
    case _ => marks
  }

  function PlainRun(s: seq<Utxos>, ops: seq<Op>): (t: seq<Utxos>)
    requires |s| >= 2
    ensures |t| >= 2
  {
    if ops == [] then s else Plain(PlainRun(s, ops[..|ops| - 1]), ops[|ops| - 1])
  }

  function MarkedRun(marks: seq<nat>, ops: seq<Op>): (m: seq<nat>)
    requires |marks| >= 2
    ensures |m| >= 2
  {
    if ops == [] then marks else Marked(MarkedRun(marks, ops[..|ops| - 1]), ops[|ops| - 1])
  }

  lemma {:induction false} SameLayers(s: seq<Utxos>, marks: seq<nat>, ops: seq<Op>)
    requires |s| == |marks| >= 2
    ensures |PlainRun(s, ops)| == |MarkedRun(marks, ops)|
  {
    if ops != [] {
      SameLayers(s, marks, ops[..|ops| - 1]);
    }
  }

  /** Every operation of a run is allowed where it comes. */
  ghost predicate AllowedRun(s: seq<Utxos>, marks: seq<nat>, ops: seq<Op>)
    requires |s| == |marks| >= 2
  {
    ops == [] || (
      var before, op := ops[..|ops| - 1], ops[|ops| - 1];
      SameLayers(s, marks, before);
      AllowedRun(s, marks, before) && Allowed(PlainRun(s, before), MarkedRun(marks, before), op))
  }

  lemma {:induction false} AllowedPrefix(s: seq<Utxos>, marks: seq<nat>, ops: seq<Op>, k: nat)
    requires |s| == |marks| >= 2 && k <= |ops| && AllowedRun(s, marks, ops)
    ensures AllowedRun(s, marks, ops[..k])
    decreases |ops|
  {
    if k < |ops| {
      AllowedPrefix(s, marks, ops[..|ops| - 1], k);
      assert ops[..|ops| - 1][..k] == ops[..k];
    } else {
      assert ops[..k] == ops;
    }
  }

  method PushCache(top: CoinsCache) returns (c: CoinsCache)
    requires top.Linked() && top.Valid()
    ensures fresh(c) && c.base == top && c.db == top.db && c.Linked() && c.Valid()
    ensures c.Views() == old(top.Views()) + [old(top.View())] && c.Marks() == old(top.Marks()) + [0]
  {
    ghost var v, s, m := top.View(), top.Views(), top.Marks();
    top.StackExists();
    c := new CoinsCache.Over(top);
    OverlayEmpty(v);
    hide Overlay, EntriesOk, Usage;
    assert top.View() == v && top.Views() == s && top.Marks() == m;
    assert c.ParentView() == v && c.LowerViews() == s;
    assert c.View() == v;
  }

  predicate OnCoins(op: Op) {
    op.Add? || op.AddTx? || op.Spend? || op.Get? || op.Have? || op.Uncache?
  }

  /** An operation on coins leaves every layer's best block and all lower views alone. */
  method StepCoins(top: CoinsCache, op: Op)
    requires OnCoins(op) && top.Linked() && top.Valid()
    requires |top.Views()| == |top.Marks()| >= 2 && Allowed(top.Views(), top.Marks(), op)
    modifies top.Stack()`cacheCoins, top.Stack()`cachedCoinsUsage
    ensures top.Valid() && |old(top.Views())| >= 2 && top.Views() == Plain(old(top.Views()), op)
  {
    hide Overlay, EntriesOk, Usage, IsUnspendable, Addable, CoinsCache.Valid, CoinsCache.View;
    top.TopLayer();
    match op
    case Add(o, coin, overwrite) =>
      AddTop(top, o, coin, overwrite);
    case AddTx(tx, height, check) =>
      AddCoins(top, tx, height, check);
    case Spend(o) =>
      var known, coin := top.SpendCoin(o);
    case Get(o) =>
      var r := top.GetCoin(o);
    case Have(o) =>
      var r := top.HaveCoin(o);
    case Uncache(o) =>
      top.Uncache(o);
  }

  /** A flush, or an operation on the top layer's best block. */
  method StepBest(top: CoinsCache, op: Op)
    requires (op.Flush? || op.SetBest? || op.GetBest?) && top.Linked() && top.Valid()
    requires |top.Views()| == |top.Marks()| >= 2 && Allowed(top.Views(), top.Marks(), op)
    modifies top.Stack(), top.db
    ensures top.Valid() && |old(top.Views())| >= 2 && top.Views() == Plain(old(top.Views()), op)
    ensures |old(top.Marks())| >= 2 && top.Marks() == Marked(old(top.Marks()), op)
  {
    hide Overlay, EntriesOk, Usage, Filled, CoinsCache.Valid, CoinsCache.View;
    top.TopLayer();
    top.StackExists();
    match op
    case Flush =>
      top.Flush();
    case SetBest(block) =>
      top.SetBestBlock(block);
    case GetBest =>
      var best := top.GetBestBlock();
  }

  /** One operation on the real stack does what it does on plain maps. */
  method Step(top: CoinsCache, op: Op) returns (top2: CoinsCache)
    requires top.Linked() && top.Valid() && |top.Views()| == |top.Marks()| >= 2 && Allowed(top.Views(), top.Marks(), op)
    modifies top.Stack(), top.db
    ensures top2.Linked() && top2.Valid() && top2.db == top.db
    ensures fresh(top2.Stack() - top.Stack())
    ensures |old(top.Views())| >= 2 && top2.Views() == Plain(old(top.Views()), op)
    ensures |old(top.Marks())| >= 2 && top2.Marks() == Marked(old(top.Marks()), op)
  {
    hide Allowed, WithOutputs, IsUnspendable, Filled, CoinsCache.Valid, CoinsCache.View, CoinsCache.Marks;
    top2 := top;
    top.TopLayer();
    top.StackExists();
    match op
    case Push =>
      top2 := PushCache(top);
    case Drop =>
      if top.base != null {
        top.DropLayer();
        top2 := top.base;
      }
    case Flush =>
      StepBest(top, op);
    case SetBest(_) =>
      StepBest(top, op);
    case GetBest =>
      StepBest(top, op);
    case _ =>
      StepCoins(top, op);
  }

  method Start(initial: Utxos, best: nat, mem: Script -> nat) returns (top: CoinsCache)
    requires (forall o :: o in initial ==> !IsSpent(initial[o])) && mem([]) == 0
    ensures top.Linked() && top.Valid() && fresh(top.db) && fresh(top.Stack())
    ensures top.Views() == [initial, initial] && top.Marks() == [best, 0]
  {
    var db := new CoinsDB(initial, best);
    top := new CoinsCache.OverDatabase(db, mem);
    OverlayEmpty(initial);
  }

  lemma RunStep(s: seq<Utxos>, marks: seq<nat>, ops: seq<Op>, k: nat)
    requires |s| == |marks| >= 2 && k < |ops| && AllowedRun(s, marks, ops)
    ensures |PlainRun(s, ops[..k])| == |MarkedRun(marks, ops[..k])|
    ensures Allowed(PlainRun(s, ops[..k]), MarkedRun(marks, ops[..k]), ops[k])
    ensures PlainRun(s, ops[..k + 1]) == Plain(PlainRun(s, ops[..k]), ops[k])
    ensures MarkedRun(marks, ops[..k + 1]) == Marked(MarkedRun(marks, ops[..k]), ops[k])
  {
    hide Plain, Marked, Allowed;
    assert ops[..k + 1][..k] == ops[..k];
    AllowedPrefix(s, marks, ops, k + 1);
    SameLayers(s, marks, ops[..k]);
  }

  /** Every run leaves each layer of the real stack showing exactly what a stack of plain maps holds, and holding
      the best block that the same run leaves in a plain sequence. */
  method Run(initial: Utxos, best: nat, mem: Script -> nat, ops: seq<Op>) returns (top: CoinsCache)
    requires (forall o :: o in initial ==> !IsSpent(initial[o])) && mem([]) == 0
    requires AllowedRun([initial, initial], [best, 0], ops)
    ensures top.Linked() && top.Valid()
    ensures top.Views() == PlainRun([initial, initial], ops) && top.Marks() == MarkedRun([best, 0], ops)
  {
    hide Plain, Marked, Allowed, AllowedRun, CoinsCache.Valid, CoinsCache.Views, CoinsCache.Marks, CoinsCache.Linked;
    top := Start(initial, best, mem);
    ghost var s, m := [initial, initial], [best, 0];
    assert ops[..0] == [];
    for k := 0 to |ops|
      invariant top.Linked() && top.Valid() && fresh(top.db) && fresh(top.Stack())
      invariant top.Views() == PlainRun(s, ops[..k]) && top.Marks() == MarkedRun(m, ops[..k])
    {
      hide PlainRun, MarkedRun;
      RunStep(s, m, ops, k);
      top := Step(top, ops[k]);
    }
    assert ops[..|ops|] == ops;
  }

  /** Every entry of every layer of a valid stack is in a documented state and keeps its promises. */
  lemma EveryEntryOk(top: CoinsCache, c: CoinsCache, o: OutPoint)
    requires top.Linked() && top.Valid() && c in top.Stack() && o in c.cacheCoins
    ensures c.Linked() && Documented(c.cacheCoins[o]) && !(IsSpent(c.cacheCoins[o].coin) && c.cacheCoins[o].isFresh)
    ensures c.cacheCoins[o].isFresh ==> o !in c.ParentView()
    ensures !c.cacheCoins[o].dirty ==> o in c.ParentView() && c.ParentView()[o] == c.cacheCoins[o].coin
    ensures c.cachedCoinsUsage == Usage(c.cacheCoins, c.mem)
    decreases top.depth
  {
    if c == top {
      assert EntryOk(c.ParentView(), o, c.cacheCoins[o]);
    } else {
      EveryEntryOk(top.base, c, o);
    }
  }
}
