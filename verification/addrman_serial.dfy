/** Serialize and Unserialize of src/addrman.h, over records: how an entry, a key or a hash becomes
    bytes is not modelled. */
module AddrSerial {
  import N = Numbers
  import opened Wrappers
  import opened AddrModel
  import opened AddrSteps
  import opened AddrManager
  import opened AddrRuns

  /** The fields of an entry that are stored. */
  datatype Persisted = Persisted(
    addr: Service,
    nTime: int,
    nServices: set<nat>,
    source: NetAddr,
    nLastSuccess: int,
    nAttempts: int)

  /** The record of an entry: address, time, services, source, last success and failed attempts. */
  ghost predicate Stores(p: Persisted, i: AddrInfo) {
    && p.addr == i.addr && p.nTime == i.nTime && p.nServices == i.nServices
    && p.source == i.source && p.nLastSuccess == i.nLastSuccess && p.nAttempts == i.nAttempts
  }

  /** Two entries agree in all of these. */
  ghost predicate SameStored(i: AddrInfo, j: AddrInfo) {
    && i.addr == j.addr && i.nTime == j.nTime && i.nServices == j.nServices
    && i.source == j.source && i.nLastSuccess == j.nLastSuccess && i.nAttempts == j.nAttempts
  }

  function Restore(p: Persisted, randomPos: int): AddrInfo {
    AddrInfo(p.addr, p.nTime, p.nServices, p.source, p.nLastSuccess, p.nAttempts, 0, 0, 0, false, randomPos)
  }

  const V3_BIP155 := 3
  const NEW_BUCKET_FLAG := 0x4000_0000

  datatype Stream = Stream(
    format: nat,
    keySize: nat,
    key: nat,
    nNew: int,
    nTried: int,
    nUBuckets: int,
    newEntries: seq<Persisted>,
    triedEntries: seq<Persisted>,
    buckets: seq<seq<int>>,
    checksum: nat)

  // ---------------------------------------------------------------- writing

  /** `ns` lists in order the entries among `ks` that the flag selects. */
  ghost predicate Selects(info: map<int, AddrInfo>, ks: seq<int>, ns: seq<int>, inTried: bool) {
    && Ascending(ns)
    && (forall x :: x in ns ==> x in ks && x in info && info[x].fInTried == inTried)
    && (forall x :: x in ks && x in info && info[x].fInTried == inTried ==> x in ns)
  }

  ghost predicate Records(info: map<int, AddrInfo>, ns: seq<int>, out: seq<Persisted>) {
    |ns| == |out| && forall i :: 0 <= i < |ns| ==> ns[i] in info && Stores(out[i], info[ns[i]])
  }

  ghost predicate Numbers(ns: seq<int>, unk: map<int, int>) {
    forall i :: 0 <= i < |ns| ==> ns[i] in unk && unk[ns[i]] == i
  }

  lemma SelectsNext(info: map<int, AddrInfo>, ks: seq<int>, j: nat, ns: seq<int>, inTried: bool)
    requires Ascending(ks) && j < |ks| && ks[j] in info && Selects(info, ks[..j], ns, inTried)
    ensures ks[j] !in ns && ks[j] !in ks[..j]
    ensures Selects(info, ks[..j + 1], if info[ks[j]].fInTried == inTried then ns + [ks[j]] else ns, inTried)
  {
    assert ks[..j + 1] == ks[..j] + [ks[j]];
    forall x | x in ks[..j] ensures x < ks[j] {
      var i :| 0 <= i < j && ks[i] == x;
    }
    hide Ascending;
    SelectsMore(info, ks[..j], ks[j], ns, inTried);
  }

  lemma SelectsMore(info: map<int, AddrInfo>, ks: seq<int>, k: int, ns: seq<int>, inTried: bool)
    requires k in info && Selects(info, ks, ns, inTried) && forall x :: x in ks ==> x < k
    ensures k !in ns && Selects(info, ks + [k], if info[k].fInTried == inTried then ns + [k] else ns, inTried)
  {
    forall x | x in ns
      ensures x < k
    {
      assert x in ks;
    }
    AscendingMore(ns, k);
    hide Ascending;
  }

  lemma AscendingMore(ns: seq<int>, k: int)
    requires Ascending(ns) && forall x :: x in ns ==> x < k
    ensures Ascending(ns + [k])
  {
    forall i | 0 <= i < |ns|
      ensures ns[i] < k
    {
      assert ns[i] in ns;
    }
  }

  lemma FewerThan(s: seq<int>, all: set<int>, extra: int)
    requires Ascending(s) && (forall x :: x in s ==> x in all) && extra in all && extra !in s
    ensures |s| < |all|
  {
    DistinctLength(s);
    var inS := set x | x in s;
    assert inS < all;
    ProperSubset(inS, all);
  }

  lemma {:induction false} ProperSubset(a: set<int>, b: set<int>)
    requires a < b
    ensures |a| < |b|
  {
    var x := PickOne(b - a);
    assert a <= b - {x};
    SubsetSize(a, b - {x});
  }

  lemma {:induction false} SubsetSize(a: set<int>, b: set<int>)
    requires a <= b
    ensures |a| <= |b|
    decreases a
  {
    if a != {} {
      var x := PickOne(a);
      SubsetSize(a - {x}, b - {x});
    }
  }

  lemma SelectedAll(info: map<int, AddrInfo>, ks: seq<int>, ns: seq<int>, inTried: bool, all: set<int>)
    requires Selects(info, ks, ns, inTried) && (forall x :: x in ks <==> x in info)
    requires all == if inTried then TriedIds(info) else NewIds(info)
    ensures (forall x :: x in ns <==> x in all) && |ns| == |all|
  {
    DistinctLength(ns);
    forall x
      ensures x in ns <==> x in all
    {
    }
    var s := set x | x in ns;
    assert forall x :: x in s <==> x in all;
    assert s == all;
  }

  lemma EmitStep(info: map<int, AddrInfo>, ns: seq<int>, out: seq<Persisted>, unk: map<int, int>, id: int,
      p: Persisted, all: set<int>)
    requires Records(info, ns, out) && Numbers(ns, unk) && id !in ns && id in info && Stores(p, info[id])
    requires Ascending(ns) && (forall x :: x in ns ==> x in all)
    ensures Numbers(ns, unk[id := |ns|]) && Numbers(ns + [id], unk[id := |ns|])
    ensures Records(info, ns + [id], out + [p])
    ensures id in all ==> |ns| < |all|
  {
    EmitNext(info, ns, out, id, p, all);
  }

  lemma EmitNext(info: map<int, AddrInfo>, ns: seq<int>, out: seq<Persisted>, id: int, p: Persisted, all: set<int>)
    requires Records(info, ns, out) && id !in ns && id in info && Stores(p, info[id])
    requires Ascending(ns) && (forall x :: x in ns ==> x in all)
    ensures Records(info, ns + [id], out + [p])
    ensures id in all ==> |ns| < |all|
  {
    if id in all {
      FewerThan(ns, all, id);
    }
  }

  lemma SelectedIn(info: map<int, AddrInfo>, ks: seq<int>, ns: seq<int>, inTried: bool)
    requires Selects(info, ks, ns, inTried)
    ensures Ascending(ns) && forall x :: x in ns ==> x in (if inTried then TriedIds(info) else NewIds(info))
  {}

  /** Serialize's first loop. */
  method EmitNew(m: AddrMan, ks: seq<int>) returns (out: seq<Persisted>, mapUnkIds: map<int, int>, ghost ns: seq<int>)
    requires m.Sound() && Ascending(ks) && (forall x :: x in ks <==> x in m.mapInfo)
    ensures Selects(m.mapInfo, ks, ns, false) && Records(m.mapInfo, ns, out) && Numbers(ns, mapUnkIds)
  {
    out, mapUnkIds, ns := [], map[], [];
    var nIds := 0;
    assert Selects(m.mapInfo, ks[..0], ns, false) && Records(m.mapInfo, ns, out) && Numbers(ns, mapUnkIds);
    hide Mirrors, OrderOk, AddrOk, NewTabOk, TriedOk, IdsOk, RefOk, CollisionsOk, Selects, Records, Numbers, Ascending;
    for j := 0 to |ks|
      invariant nIds == |ns| && Selects(m.mapInfo, ks[..j], ns, false)
      invariant Records(m.mapInfo, ns, out) && Numbers(ns, mapUnkIds)
    {
      assert ks[j] in ks;
      SelectsNext(m.mapInfo, ks, j, ns, false);
      SelectedIn(m.mapInfo, ks[..j], ns, false);
      var info := m.mapInfo[ks[j]];
      var record := Persisted(info.addr, info.nTime, info.nServices, info.source, info.nLastSuccess, info.nAttempts);
      EmitStep(m.mapInfo, ns, out, mapUnkIds, ks[j], record, NewIds(m.mapInfo));
      mapUnkIds := mapUnkIds[ks[j] := nIds];
      RefCounted(m.mapInfo, m.newTab, ks[j]);
      if info.nRefCount != 0 {
        assert nIds != m.nNew;
        out := out + [record];
        ns := ns + [ks[j]];
        nIds := nIds + 1;
      }
    }
    assert ks[..|ks|] == ks;
  }

  lemma RefCounted(m: map<int, AddrInfo>, vvNew: map<Slot, int>, id: int)
    requires RefOk(m, vvNew, {}) && id in m
    ensures m[id].nRefCount != 0 <==> !m[id].fInTried
  {}

  /** Serialize's second loop. */
  method EmitTried(m: AddrMan, ks: seq<int>) returns (out: seq<Persisted>, ghost ts: seq<int>)
    requires m.Sound() && Ascending(ks) && (forall x :: x in ks <==> x in m.mapInfo)
    ensures Selects(m.mapInfo, ks, ts, true) && Records(m.mapInfo, ts, out)
  {
    out, ts := [], [];
    var nIds := 0;
    assert Selects(m.mapInfo, ks[..0], ts, true) && Records(m.mapInfo, ts, out);
    hide Mirrors, OrderOk, AddrOk, NewTabOk, TriedOk, IdsOk, RefOk, CollisionsOk, Selects, Records, Ascending;
    for j := 0 to |ks|
      invariant nIds == |ts| && Selects(m.mapInfo, ks[..j], ts, true) && Records(m.mapInfo, ts, out)
    {
      assert ks[j] in ks;
      SelectsNext(m.mapInfo, ks, j, ts, true);
      SelectedIn(m.mapInfo, ks[..j], ts, true);
      var info := m.mapInfo[ks[j]];
      var record := Persisted(info.addr, info.nTime, info.nServices, info.source, info.nLastSuccess, info.nAttempts);
      EmitNext(m.mapInfo, ts, out, ks[j], record, TriedIds(m.mapInfo));
      if info.fInTried {
        assert nIds != m.nTried;
        out := out + [record];
        ts := ts + [ks[j]];
        nIds := nIds + 1;
      }
    }
    assert ks[..|ks|] == ks;
  }

  /** The filled slots of bucket `b` at positions below `n`, in order. */
  function BucketSlots(vvNew: map<Slot, int>, b: nat, n: nat): seq<Slot> {
    if n == 0 then [] else
    BucketSlots(vvNew, b, n - 1) + (if Slot(b, n - 1) in vvNew then [Slot(b, n - 1)] else [])
  }

  function Index(vvNew: map<Slot, int>, unk: map<int, int>, sl: Slot): int {
    if sl in vvNew && vvNew[sl] in unk then unk[vvNew[sl]] else 0
  }

  ghost predicate BucketRecord(vvNew: map<Slot, int>, unk: map<int, int>, slots: seq<Slot>, rec: seq<int>) {
    |rec| == |slots| && forall i :: 0 <= i < |slots| ==> rec[i] == Index(vvNew, unk, slots[i])
  }

  /** Serialize's loop over one bucket. */
  method EmitBucket(m: AddrMan, bucket: nat, mapUnkIds: map<int, int>, ghost ns: seq<int>) returns (rec: seq<int>)
    requires m.Sound() && bucket < NEW_BUCKET_COUNT && Numbers(ns, mapUnkIds)
    requires forall x :: x in NewIds(m.mapInfo) ==> x in ns
    ensures BucketRecord(m.newTab, mapUnkIds, BucketSlots(m.newTab, bucket, BUCKET_SIZE), rec)
  {
    hide Mirrors, OrderOk, AddrOk, NewTabOk, TriedOk, IdsOk, RefOk, CollisionsOk;
    var nSize := 0;
    for i := 0 to BUCKET_SIZE
      invariant nSize == |BucketSlots(m.newTab, bucket, i)|
    {
      var id := m.GetNew(bucket, i);
      if id != -1 {
        nSize := nSize + 1;
      }
    }
    rec := [];
    for i := 0 to BUCKET_SIZE
      invariant BucketRecord(m.newTab, mapUnkIds, BucketSlots(m.newTab, bucket, i), rec)
    {
      var id := m.GetNew(bucket, i);
      if id != -1 {
        NewLive(m.env, m.mapInfo, m.newTab, Slot(bucket, i));
        assert id in NewIds(m.mapInfo) && id in ns && id in mapUnkIds;
        var nIndex := mapUnkIds[id];
        rec := rec + [nIndex];
      }
    }
    assert nSize == |rec|;
  }

  function Checksum(asmap: seq<bool>, asmapHash: seq<bool> -> nat): nat {
    if asmap != [] then asmapHash(asmap) else 0
  }

  /** `st` is what a manager with these fields writes; `ns` and `ts` are its new and tried ids in order. */
  ghost predicate Encodes(e: Env, info: map<int, AddrInfo>, vvNew: map<Slot, int>, sum: nat, st: Stream,
                          ns: seq<int>, ts: seq<int>, unk: map<int, int>)
  {
    && st.format == 3 && st.keySize == 32 && st.key == e.key && st.checksum == sum
    && st.nUBuckets == 0x4000_0400
    && Ascending(ns) && (forall x :: x in ns <==> x in NewIds(info)) && st.nNew == |ns| &&
      Records(info, ns, st.newEntries)
    && Ascending(ts) && (forall x :: x in ts <==> x in TriedIds(info)) && st.nTried == |ts| &&
      Records(info, ts, st.triedEntries)
    && Numbers(ns, unk)
    && |st.buckets| == NEW_BUCKET_COUNT
    && (forall b :: 0 <= b < NEW_BUCKET_COUNT ==>
      BucketRecord(vvNew, unk, BucketSlots(vvNew, b, BUCKET_SIZE), st.buckets[b]))
  }

  lemma Counters(m: AddrMan)
    requires m.Sound()
    ensures m.nNew == |NewIds(m.mapInfo)| && m.nTried == |TriedIds(m.mapInfo)|
  {}

  /** Serialize's loop over the buckets. */
  method EmitBuckets(m: AddrMan, mapUnkIds: map<int, int>, ghost ns: seq<int>) returns (buckets: seq<seq<int>>)
    requires m.Sound() && Numbers(ns, mapUnkIds)
    requires forall x :: x in NewIds(m.mapInfo) ==> x in ns
    ensures |buckets| == NEW_BUCKET_COUNT
    ensures forall b :: 0 <= b < NEW_BUCKET_COUNT ==>
      BucketRecord(m.newTab, mapUnkIds, BucketSlots(m.newTab, b, BUCKET_SIZE), buckets[b])
  {
    hide AddrMan.Sound, Numbers, BucketRecord, NewIds;
    buckets := [];
    for bucket := 0 to NEW_BUCKET_COUNT
      invariant |buckets| == bucket
      invariant forall b :: 0 <= b < bucket ==>
        BucketRecord(m.newTab, mapUnkIds, BucketSlots(m.newTab, b, BUCKET_SIZE), buckets[b])
    {
      var rec := EmitBucket(m, bucket, mapUnkIds, ns);
      buckets := buckets + [rec];
    }
  }

  method Serialize(m: AddrMan, asmapHash: seq<bool> -> nat)
    returns (st: Stream, ghost ns: seq<int>, ghost ts: seq<int>, ghost unk: map<int, int>)
    requires m.Sound()
    ensures st.nNew == m.nNew && st.nTried == m.nTried
    ensures Encodes(m.env, m.mapInfo, m.newTab, Checksum(m.env.asmap, asmapHash), st, ns, ts, unk)
  {
    hide AddrMan.Sound, Selects, Records, Numbers, Ascending, BucketRecord, NewIds, TriedIds;
    Counters(m);
    var ks := AscendingKeys(m.mapInfo.Keys);
    var newEntries, mapUnkIds, newIds := EmitNew(m, ks);
    var triedEntries, triedIds := EmitTried(m, ks);
    ns, ts, unk := newIds, triedIds, mapUnkIds;
    SelectedAll(m.mapInfo, ks, ns, false, NewIds(m.mapInfo));
    SelectedAll(m.mapInfo, ks, ts, true, TriedIds(m.mapInfo));
    SelectedIn(m.mapInfo, ks, ns, false);
    SelectedIn(m.mapInfo, ks, ts, true);
    var buckets := EmitBuckets(m, mapUnkIds, ns);
    st := Stream(V3_BIP155, 32, m.env.key, m.nNew, m.nTried, NEW_BUCKET_COUNT + NEW_BUCKET_FLAG,
                 newEntries, triedEntries, buckets, Checksum(m.env.asmap, asmapHash));
  }

  // ---------------------------------------------------------------- reading

  /** Ids on neither table. */
  function Zero(info: map<int, AddrInfo>): set<int> {
    set id | id in info && !info[id].fInTried && info[id].nRefCount == 0
  }

  /** Every address is filed, port and all, under the last entry that has it. */
  ghost predicate Filed(info: map<int, AddrInfo>, byAddr: map<Service, int>) {
    && (forall id :: id in info ==> info[id].addr in byAddr && byAddr[info[id].addr] >= id)
    && (forall a :: a in byAddr ==> byAddr[a] in info && info[byAddr[a]].addr == a)
  }

  lemma FiledNext(info: map<int, AddrInfo>, byAddr: map<Service, int>, n: int, i: AddrInfo)
    requires Filed(info, byAddr) && IdsOk(info, n)
    ensures Filed(info[n := i], byAddr[i.addr := n])
  {
    var info1, byAddr1 := info[n := i], byAddr[i.addr := n];
    forall id | id in info1 ensures info1[id].addr in byAddr1 && byAddr1[info1[id].addr] >= id {
      assert id != n ==> id in info && id < n;
    }
    forall a | a in byAddr1 ensures byAddr1[a] in info1 && info1[byAddr1[a]].addr == a {
      assert a != i.addr ==> byAddr[a] in info && byAddr[a] != n;
    }
  }

  function Loaded(news: seq<Persisted>, n: nat): map<int, AddrInfo>
    requires n <= |news|
  {
    map k | 0 <= k < n :: Restore(news[k], k)
  }

  ghost predicate CountsUp(s: seq<int>, n: int) {
    |s| == n && forall i :: 0 <= i < n ==> s[i] == i
  }

  lemma CountsMore(s: seq<int>, n: int)
    requires CountsUp(s, n)
    ensures |s| == n && CountsUp(s + [n], n + 1)
  {}

  lemma LoadNewStep(e: Env, news: seq<Persisted>, n: nat, byAddr: map<Service, int>, order: seq<int>)
    requires n < |news| && CountsUp(order, n) && Filed(Loaded(news, n), byAddr)
    requires FrameOk(e, n, Loaded(news, n), order, map[], map[], Zero(Loaded(news, n)))
    ensures FrameOk(e, n + 1, Loaded(news, n + 1), order + [n], map[], map[], Zero(Loaded(news, n + 1)))
    ensures Filed(Loaded(news, n + 1), byAddr[news[n].addr := n])
  {
    hide OrderOk, RefOk, NewTabOk, TriedOk, IdsOk, Filed;
    var info := Loaded(news, n);
    var i := Restore(news[n], n);
    CreateFrame(e, n, info, order, map[], map[], Zero(info), i);
    FiledNext(info, byAddr, n, i);
    assert info[n := i] == Loaded(news, n + 1);
    assert Zero(info) + {n} == Zero(Loaded(news, n + 1));
  }

  /** Where Unserialize stands after `n` new records. */
  ghost predicate LoadingNew(m: AddrMan, news: seq<Persisted>, n: int)
    reads m
  {
    && 0 <= n <= |news| && m.newTab == map[] && m.triedTab == map[]
    && m.mapInfo == Loaded(news, n) && CountsUp(m.vRandom, n) && Filed(m.mapInfo, m.mapAddr)
    && FrameOk(m.env, n, m.mapInfo, m.vRandom, map[], map[], Zero(m.mapInfo))
  }

  /** One round of Unserialize's loop over the new entries. */
  method LoadNewOne(m: AddrMan, news: seq<Persisted>, n: nat)
    requires n < |news| && LoadingNew(m, news, n)
    modifies m`mapInfo, m`mapAddr, m`vRandom
    ensures LoadingNew(m, news, n + 1)
  {
    hide OrderOk, RefOk, NewTabOk, TriedOk, IdsOk, Zero, CountsUp, FrameOk, Filed;
    LoadNewStep(m.env, news, n, m.mapAddr, m.vRandom);
    CountsMore(m.vRandom, n);
    var info := Restore(news[n], |m.vRandom|);
    m.mapInfo := m.mapInfo[n := info];
    m.mapAddr := m.mapAddr[news[n].addr := n];
    m.vRandom := m.vRandom + [n];
    assert m.mapInfo == Loaded(news, n + 1);
  }

  /** Unserialize's loop over the new entries. */
  method LoadNew(m: AddrMan, news: seq<Persisted>)
    requires m.Frame({}) && m.mapInfo == map[] && m.mapAddr == map[] && m.vRandom == [] && m.newTab == map[]
    requires m.triedTab == map[] && m.nIdCount == 0
    modifies m`mapInfo, m`mapAddr, m`vRandom, m`nIdCount
    ensures m.mapInfo == Loaded(news, |news|) && CountsUp(m.vRandom, |news|) && m.nIdCount == |news|
    ensures m.Frame(Zero(m.mapInfo)) && Filed(m.mapInfo, m.mapAddr)
  {
    hide LoadingNew, FrameOk, Filed, CountsUp, Zero, Loaded;
    LoadingNone(m, news);
    for n := 0 to |news|
      invariant LoadingNew(m, news, n)
    {
      LoadNewOne(m, news, n);
    }
    LoadedNew(m, news);
    m.nIdCount := |news|;
  }

  lemma LoadingNone(m: AddrMan, news: seq<Persisted>)
    requires m.Frame({}) && m.mapInfo == map[] && m.mapAddr == map[] && m.vRandom == [] && m.newTab == map[]
    requires m.triedTab == map[] && m.nIdCount == 0
    ensures LoadingNew(m, news, 0)
  {
    assert Loaded(news, 0) == map[] && Zero(map[]) == {};
    hide FrameOk;
  }

  lemma LoadedNew(m: AddrMan, news: seq<Persisted>)
    requires LoadingNew(m, news, |news|)
    ensures m.mapInfo == Loaded(news, |news|) && CountsUp(m.vRandom, |news|) && Filed(m.mapInfo, m.mapAddr)
    ensures FrameOk(m.env, |news|, m.mapInfo, m.vRandom, m.newTab, m.triedTab, Zero(m.mapInfo))
  {}

  ghost predicate AccBelow(acc: seq<int>, k: int) {
    forall i :: 0 <= i < |acc| ==> 0 <= acc[i] < k
  }

  function LoadedEntry(news: seq<Persisted>, trieds: seq<Persisted>, acc: seq<int>, k: int): AddrInfo
    requires AccBelow(acc, |trieds|) && 0 <= k < |news| + |acc|
  {
    if k < |news| then Restore(news[k], k) else Restore(trieds[acc[k - |news|]], k).(fInTried := true)
  }

  /** The entries once the tried records `acc` were accepted, in that order. */
  function LoadedAll(news: seq<Persisted>, trieds: seq<Persisted>, acc: seq<int>): (r: map<int, AddrInfo>)
    requires AccBelow(acc, |trieds|)
    ensures forall k :: k in r <==> 0 <= k < |news| + |acc|
    ensures forall k :: k in r ==> r[k] == LoadedEntry(news, trieds, acc, k)
  {
    map k | 0 <= k < |news| + |acc| :: LoadedEntry(news, trieds, acc, k)
  }

  ghost predicate DistinctSlots(e: Env, trieds: seq<Persisted>) {
    forall i, j :: 0 <= i < j < |trieds| ==> TriedSlot(e, trieds[i].addr) != TriedSlot(e, trieds[j].addr)
  }

  /** An accepted record has the tried slot of record `k`. */
  ghost predicate Taken(e: Env, trieds: seq<Persisted>, acc: seq<int>, k: int)
    requires AccBelow(acc, |trieds|) && 0 <= k < |trieds|
  {
    exists i :: 0 <= i < |acc| && acc[i] < k && TriedSlot(e, trieds[acc[i]].addr) == TriedSlot(e, trieds[k].addr)
  }

  /** Of the first `n` tried records exactly those are accepted whose slot no accepted one before has. */
  ghost predicate Greedy(e: Env, trieds: seq<Persisted>, acc: seq<int>, n: int) {
    && 0 <= n <= |trieds| && AccBelow(acc, n)
    && (forall i, j :: 0 <= i < j < |acc| ==> acc[i] < acc[j])
    && (forall k :: 0 <= k < n ==> (k in acc <==> !Taken(e, trieds, acc, k)))
  }

  lemma TakenMore(e: Env, trieds: seq<Persisted>, acc: seq<int>, n: int, k: int)
    requires AccBelow(acc, n) && AccBelow(acc, |trieds|) && AccBelow(acc + [n], |trieds|) && 0 <= k <= n < |trieds|
    ensures Taken(e, trieds, acc + [n], k) <==> Taken(e, trieds, acc, k)
  {
    hide TriedSlot;
    var more := acc + [n];
    if Taken(e, trieds, acc, k) {
      var i :| 0 <= i < |acc| && acc[i] < k && TriedSlot(e, trieds[acc[i]].addr) == TriedSlot(e, trieds[k].addr);
      assert more[i] == acc[i];
    }
    if Taken(e, trieds, more, k) {
      var i :| 0 <= i < |more| && more[i] < k && TriedSlot(e, trieds[more[i]].addr) == TriedSlot(e, trieds[k].addr);
      assert more[i] == acc[i];
    }
  }

  lemma GreedyNext(e: Env, trieds: seq<Persisted>, acc: seq<int>, n: int)
    requires Greedy(e, trieds, acc, n) && n < |trieds|
    ensures AccBelow(acc, |trieds|) && Greedy(e, trieds, if Taken(e, trieds, acc, n) then acc else acc + [n], n + 1)
  {
    hide Taken;
    var more := acc + [n];
    assert forall k :: k in more <==> k in acc || k == n;
    forall k | 0 <= k <= n ensures Taken(e, trieds, more, k) <==> Taken(e, trieds, acc, k) {
      TakenMore(e, trieds, acc, n, k);
    }
  }

  /** If no two tried records share a slot, all are accepted. */
  lemma {:induction false} AllTaken(e: Env, trieds: seq<Persisted>, acc: seq<int>)
    requires Greedy(e, trieds, acc, |trieds|) && DistinctSlots(e, trieds)
    ensures CountsUp(acc, |trieds|)
  {
    hide TriedSlot;
    forall k | 0 <= k < |trieds| ensures k in acc {
      assert !Taken(e, trieds, acc, k);
    }
    Everything(acc, |trieds|);
  }

  lemma Largest(acc: seq<int>, i: nat)
    requires i < |acc| && forall i, j :: 0 <= i < j < |acc| ==> acc[i] < acc[j]
    ensures acc[i] <= acc[|acc| - 1] && (acc[i] == acc[|acc| - 1] ==> i == |acc| - 1)
  {}

  lemma {:induction false} Everything(acc: seq<int>, n: nat)
    requires AccBelow(acc, n) && (forall i, j :: 0 <= i < j < |acc| ==> acc[i] < acc[j])
    requires (forall k :: 0 <= k < n ==> k in acc)
    ensures CountsUp(acc, n)
  {
    assert |acc| > 0 ==> 0 <= acc[0] < n;
    if n > 0 {
      var last := n - 1;
      assert last in acc;
      var i :| 0 <= i < |acc| && acc[i] == last;
      Largest(acc, i);
      forall k | 0 <= k < last ensures k in acc[..i] {
        assert k in acc;
        var j :| 0 <= j < |acc| && acc[j] == k;
        assert acc[..i][j] == k;
      }
      Everything(acc[..i], last);
    }
  }

  /** The slot of the next tried record is filled exactly if an accepted record has it. */
  lemma SlotTaken(e: Env, news: seq<Persisted>, trieds: seq<Persisted>, acc: seq<int>, k: nat, vvTried: map<Slot, int>)
    requires k < |trieds| && AccBelow(acc, k) && AccBelow(acc, |trieds|)
    requires TriedOk(e, LoadedAll(news, trieds, acc), vvTried)
    ensures TriedSlot(e, trieds[k].addr) in vvTried <==> Taken(e, trieds, acc, k)
  {
    var info, sl := LoadedAll(news, trieds, acc), TriedSlot(e, trieds[k].addr);
    hide TriedSlot;
    if sl in vvTried {
      TriedLive(e, info, vvTried, sl);
      var id := vvTried[sl];
      assert id in info && info[id].fInTried;
      var i := id - |news|;
      assert info[id].addr == trieds[acc[i]].addr;
    }
    if Taken(e, trieds, acc, k) {
      var i :| 0 <= i < |acc| && acc[i] < k && TriedSlot(e, trieds[acc[i]].addr) == sl;
      var id := |news| + i;
      assert id in info && info[id].fInTried && info[id].addr == trieds[acc[i]].addr;
    }
  }

  lemma LoadTriedStep(e: Env, news: seq<Persisted>, trieds: seq<Persisted>, acc: seq<int>, k: nat,
                      byAddr: map<Service, int>, order: seq<int>, vvTried: map<Slot, int>)
    requires k < |trieds| && AccBelow(acc, k) && CountsUp(order, |news| + |acc|)
    requires Filed(LoadedAll(news, trieds, acc), byAddr)
    requires FrameOk(e, |news| + |acc|, LoadedAll(news, trieds, acc), order, map[], vvTried,
      Zero(LoadedAll(news, trieds, acc)))
    requires TriedSlot(e, trieds[k].addr) !in vvTried
    ensures var n, info := |news| + |acc|, LoadedAll(news, trieds, acc + [k]);
      && FrameOk(e, n + 1, info, order + [n], map[], vvTried[TriedSlot(e, trieds[k].addr) := n], Zero(info))
      && Filed(info, byAddr[trieds[k].addr := n])
  {
    hide OrderOk, RefOk, NewTabOk, TriedOk, IdsOk, TriedSlot, Filed;
    var n, info := |news| + |acc|, LoadedAll(news, trieds, acc);
    var l := Zero(info);
    var i := Restore(trieds[k], n);
    assert i.nRandomPos == |order|;
    hide CountsUp, Zero;
    CreateFrame(e, n, info, order, map[], vvTried, l, i);
    FiledNext(info, byAddr, n, i.(fInTried := true));
    TryFrame(e, n + 1, info[n := i], info[n := i][n := i.(fInTried := true)], order + [n], map[], vvTried, l + {n}, n);
    LoadTriedShape(news, trieds, acc, k);
  }

  lemma LoadTriedShape(news: seq<Persisted>, trieds: seq<Persisted>, acc: seq<int>, k: nat)
    requires k < |trieds| && AccBelow(acc, |trieds|)
    ensures var n, info, i := |news| + |acc|, LoadedAll(news, trieds, acc), Restore(trieds[k], |news| + |acc|);
      && info[n := i][n := i.(fInTried := true)] == LoadedAll(news, trieds, acc + [k])
      && info[n := i.(fInTried := true)] == LoadedAll(news, trieds, acc + [k])
      && Zero(info) + {n} - {n} == Zero(LoadedAll(news, trieds, acc + [k]))
  {
    var n, info, i := |news| + |acc|, LoadedAll(news, trieds, acc), Restore(trieds[k], |news| + |acc|);
    var next := LoadedAll(news, trieds, acc + [k]);
    forall x | x in next
      ensures x in info[n := i.(fInTried := true)] && info[n := i.(fInTried := true)][x] == next[x]
    {
    }
    assert info[n := i][n := i.(fInTried := true)] == next;
  }

  lemma LoadedNone(e: Env, news: seq<Persisted>, trieds: seq<Persisted>)
    ensures AccBelow([], |trieds|) && Greedy(e, trieds, [], 0)
    ensures LoadedAll(news, trieds, []) == Loaded(news, |news|)
  {}

  /** Where Unserialize stands after `n` tried records, of which it took `acc`. */
  ghost predicate Loading(m: AddrMan, news: seq<Persisted>, trieds: seq<Persisted>, acc: seq<int>, n: int)
    reads m, m.vvNew, m.vvTried
  {
    && m.Tables() && m.newTab == map[]
    && Greedy(m.env, trieds, acc, n) && AccBelow(acc, |trieds|) && m.mapInfo == LoadedAll(news, trieds, acc)
    && CountsUp(m.vRandom, |news| + |acc|) && m.nIdCount == |news| + |acc|
    && m.Frame(Zero(m.mapInfo)) && Filed(m.mapInfo, m.mapAddr)
  }

  /** One round of Unserialize's loop over the tried entries. */
  method LoadTriedOne(m: AddrMan, news: seq<Persisted>, trieds: seq<Persisted>, n: nat, ghost acc: seq<int>)
    returns (taken: bool)
    requires n < |trieds| && Loading(m, news, trieds, acc, n)
    modifies m`mapInfo, m`mapAddr, m`vRandom, m`nIdCount, m`triedTab, m.vvTried
    ensures Loading(m, news, trieds, if taken then acc + [n] else acc, n + 1)
  {
    hide Mirrors, OrderOk, RefOk, NewTabOk, TriedOk, IdsOk, Zero, CountsUp, AccBelow, LoadedAll, TriedSlot, Greedy,
         Taken, Filed;
    GreedyNext(m.env, trieds, acc, n);
    GreedyBelow(m.env, trieds, acc, n);
    SlotTaken(m.env, news, trieds, acc, n, m.triedTab);
    hide FrameOk;
    var nKBucket := TriedBucket(m.env, trieds[n].addr);
    var nKBucketPos := BucketPosition(m.env, trieds[n].addr, false, nKBucket);
    SlotIs(m.env, trieds[n].addr, nKBucket, nKBucketPos);
    var id := m.GetTried(nKBucket, nKBucketPos);
    taken := id == -1;
    if taken {
      TakeTried(m, news, trieds, n, acc, nKBucket, nKBucketPos);
    }
  }

  lemma GreedyBelow(e: Env, trieds: seq<Persisted>, acc: seq<int>, n: int)
    requires Greedy(e, trieds, acc, n)
    ensures AccBelow(acc, n) && AccBelow(acc, |trieds|)
  {}

  /** A tried record whose slot is free. */
  method TakeTried(m: AddrMan, news: seq<Persisted>, trieds: seq<Persisted>, n: nat, ghost acc: seq<int>,
      nKBucket: nat, nKBucketPos: nat)
    requires n < |trieds| && Loading(m, news, trieds, acc, n) && Greedy(m.env, trieds, acc + [n], n + 1)
    requires nKBucket < TRIED_BUCKET_COUNT && nKBucketPos < BUCKET_SIZE
    requires Slot(nKBucket, nKBucketPos) == TriedSlot(m.env, trieds[n].addr)
    requires Slot(nKBucket, nKBucketPos) !in m.triedTab
    modifies m`mapInfo, m`mapAddr, m`vRandom, m`nIdCount, m`triedTab, m.vvTried
    ensures Loading(m, news, trieds, acc + [n], n + 1)
  {
    hide Mirrors, OrderOk, RefOk, NewTabOk, TriedOk, IdsOk, Zero, CountsUp, AccBelow, LoadedAll, TriedSlot, Greedy,
         Taken, Filed, FrameOk;
    GreedyBelow(m.env, trieds, acc, n);
    GreedyBelow(m.env, trieds, acc + [n], n + 1);
    CountsMore(m.vRandom, |news| + |acc|);
    LoadTriedStep(m.env, news, trieds, acc, n, m.mapAddr, m.vRandom, m.triedTab);
    LoadTriedShape(news, trieds, acc, n);
    var info := Restore(trieds[n], |m.vRandom|).(fInTried := true);
    m.vRandom := m.vRandom + [m.nIdCount];
    m.mapInfo := m.mapInfo[m.nIdCount := info];
    m.mapAddr := m.mapAddr[info.addr := m.nIdCount];
    m.SetTried(nKBucket, nKBucketPos, m.nIdCount);
    m.nIdCount := m.nIdCount + 1;
  }

  lemma SlotIs(e: Env, a: Service, b: nat, p: nat)
    requires b == TriedBucket(e, a) && p == BucketPosition(e, a, false, b)
    ensures Slot(b, p) == TriedSlot(e, a)
  {}

  /** Unserialize's loop over the tried entries. */
  method LoadTried(m: AddrMan, news: seq<Persisted>, trieds: seq<Persisted>) returns (nLost: nat, ghost acc: seq<int>)
    requires m.Tables() && m.mapInfo == Loaded(news, |news|) && CountsUp(m.vRandom, |news|) && m.nIdCount == |news|
    requires m.newTab == map[] && m.triedTab == map[]
    requires m.Frame(Zero(m.mapInfo)) && Filed(m.mapInfo, m.mapAddr)
    modifies m`mapInfo, m`mapAddr, m`vRandom, m`nIdCount, m`triedTab, m.vvTried
    ensures Loading(m, news, trieds, acc, |trieds|) && |acc| + nLost == |trieds|
  {
    hide Mirrors, OrderOk, RefOk, NewTabOk, TriedOk, IdsOk, Zero, CountsUp, AccBelow, LoadedAll, TriedSlot, Greedy,
         Filed;
    nLost, acc := 0, [];
    LoadedNone(m.env, news, trieds);
    assert Loading(m, news, trieds, acc, 0);
    hide Loading;
    for n := 0 to |trieds|
      invariant Loading(m, news, trieds, acc, n) && |acc| + nLost == n
    {
      var taken := LoadTriedOne(m, news, trieds, n, acc);
      if taken {
        acc := acc + [n];
      } else {
        nLost := nLost + 1;
      }
    }
  }

  // ---------------------------------------------------------------- bucket entries

  datatype Entry = Entry(bucket: int, index: int)

  /** The usable entries among the first `n` of one bucket record. */
  function RecordEntries(b: int, rec: seq<int>, n: nat, nNew: int): seq<Entry>
    requires n <= |rec|
  {
    if n == 0 then [] else
    RecordEntries(b, rec, n - 1, nNew) + (if 0 <= rec[n - 1] < nNew then [Entry(b, rec[n - 1])] else [])
  }

  function BucketEntries(buckets: seq<seq<int>>, n: nat, nNew: int): seq<Entry>
    requires n <= |buckets|
  {
    if n == 0 then [] else
    BucketEntries(buckets, n - 1, nNew) + RecordEntries(n - 1, buckets[n - 1], |buckets[n - 1]|, nNew)
  }

  /** Unserialize's loop that remembers the bucket entries. */
  method CollectEntries(buckets: seq<seq<int>>, nUBuckets: nat, nNew: int) returns (entries: seq<Entry>)
    requires nUBuckets <= |buckets|
    ensures entries == BucketEntries(buckets, nUBuckets, nNew)
    ensures forall i :: 0 <= i < |entries| ==> 0 <= entries[i].bucket < nUBuckets && 0 <= entries[i].index < nNew
  {
    entries := [];
    for bucket := 0 to nUBuckets
      invariant entries == BucketEntries(buckets, bucket, nNew)
      invariant EntriesBelow(entries, bucket, nNew)
    {
      var more := CollectBucket(bucket, buckets[bucket], nNew);
      entries := entries + more;
    }
  }

  ghost predicate EntriesBelow(entries: seq<Entry>, n: int, nNew: int) {
    forall i :: 0 <= i < |entries| ==> 0 <= entries[i].bucket < n && 0 <= entries[i].index < nNew
  }

  method CollectBucket(bucket: nat, rec: seq<int>, nNew: int) returns (entries: seq<Entry>)
    ensures entries == RecordEntries(bucket, rec, |rec|, nNew) && EntriesBelow(entries, bucket + 1, nNew)
  {
    entries := [];
    for n := 0 to |rec|
      invariant entries == RecordEntries(bucket, rec, n, nNew) && EntriesBelow(entries, bucket + 1, nNew)
    {
      if 0 <= rec[n] < nNew {
        entries := entries + [Entry(bucket, rec[n])];
      }
    }
  }

  // ---------------------------------------------------------------- refilling the new table

  /** Where Unserialize puts a bucket entry. */
  function Target(e: Env, info: map<int, AddrInfo>, vvNew: map<Slot, int>, en: Entry, restore: bool): Option<Slot>
    requires en.index in info && en.bucket >= 0
  {
    var i := info[en.index];
    if i.nRefCount >= NEW_BUCKETS_PER_ADDRESS then None
    else if restore && NewSlot(e, i.addr, en.bucket) !in vvNew then Some(NewSlot(e, i.addr, en.bucket))
    else if HomeSlot(e, i) !in vvNew then Some(HomeSlot(e, i))
    else None
  }

  lemma ZeroPlaced(m: map<int, AddrInfo>, n: map<int, AddrInfo>, id: int)
    requires id in m && Recounted(m, n, id, m[id].nRefCount + 1) && m[id].nRefCount >= 0
    ensures Zero(n) == Zero(m) - {id}
  {}

  lemma RefNonNegative(m: map<int, AddrInfo>, vvNew: map<Slot, int>, l: set<int>, id: int)
    requires RefOk(m, vvNew, l) && id in m
    ensures m[id].nRefCount >= 0
  {}

  /** The entries and the new table while it is refilled. */
  datatype Filling = Filling(info: map<int, AddrInfo>, tab: map<Slot, int>)

  ghost predicate Fillable(info: map<int, AddrInfo>, entries: seq<Entry>) {
    forall i :: 0 <= i < |entries| ==> entries[i].index in info && entries[i].bucket >= 0
  }

  /** The refilled table is a function of the stream. */
  ghost function Filled(e: Env, b: map<int, AddrInfo>, entries: seq<Entry>, restore: bool, k: nat): (f: Filling)
    requires k <= |entries| && Fillable(b, entries)
    ensures f.info.Keys == b.Keys
  {
    if k == 0 then Filling(b, map[])
    else
      var f, en := Filled(e, b, entries, restore, k - 1), entries[k - 1];
      match Target(e, f.info, f.tab, en, restore)
      case None => f
      case Some(sl) => Filling(f.info[en.index := f.info[en.index].(nRefCount := f.info[en.index].nRefCount + 1)],
          f.tab[sl := en.index])
  }

  /** One round of Unserialize's loop over the bucket entries. */
  method PlaceOne(m: AddrMan, en: Entry, restore: bool)
    requires m.Tables() && en.index in m.mapInfo && !m.mapInfo[en.index].fInTried
    requires en.bucket >= 0 && (restore ==> en.bucket < NEW_BUCKET_COUNT) && en.index >= 0
    requires m.Frame(Zero(m.mapInfo))
    modifies m`mapInfo, m`newTab, m.vvNew
    ensures m.Tables()
    ensures m.Frame(Zero(m.mapInfo))
    ensures match Target(m.env, old(m.mapInfo), old(m.newTab), en, restore)
      case None => m.mapInfo == old(m.mapInfo) && m.newTab == old(m.newTab)
      case Some(sl) =>
        && Recounted(old(m.mapInfo), m.mapInfo, en.index, old(m.mapInfo)[en.index].nRefCount + 1)
        && m.newTab == old(m.newTab)[sl := en.index]
  {
    hide Mirrors, OrderOk, RefOk, NewTabOk, TriedOk, IdsOk, Zero;
    var info := m.mapInfo[en.index];
    if info.nRefCount >= NEW_BUCKETS_PER_ADDRESS {
      return;
    }
    var bucket := en.bucket;
    var bucketPosition := BucketPosition(m.env, info.addr, true, bucket);
    var id := 0;
    if restore {
      id := m.GetNew(bucket, bucketPosition);
    }
    if !(restore && id == -1) {
      bucket := NewBucket(m.env, info.addr, info.source);
      bucketPosition := BucketPosition(m.env, info.addr, true, bucket);
      id := m.GetNew(bucket, bucketPosition);
      if id != -1 {
        return;
      }
    }
    RefNonNegative(m.mapInfo, m.newTab, Zero(m.mapInfo), en.index);
    PlaceFrame(m.env, m.nIdCount, m.mapInfo, m.mapInfo[en.index := info.(nRefCount := info.nRefCount + 1)], m.vRandom,
               m.newTab, m.triedTab, Zero(m.mapInfo), Slot(bucket, bucketPosition), en.index);
    ZeroPlaced(m.mapInfo, m.mapInfo[en.index := info.(nRefCount := info.nRefCount + 1)], en.index);
    m.SetNew(bucket, bucketPosition, en.index);
    m.mapInfo := m.mapInfo[en.index := info.(nRefCount := info.nRefCount + 1)];
  }

  /** `n` is `m` up to reference counts. */
  ghost predicate RecountOnly(m: map<int, AddrInfo>, n: map<int, AddrInfo>) {
    m.Keys == n.Keys && forall id :: id in m ==> n[id] == m[id].(nRefCount := n[id].nRefCount)
  }

  /** The entries name, one by one, the slots of a table `f`. */
  ghost predicate Aligned(e: Env, info: map<int, AddrInfo>, entries: seq<Entry>, slots: seq<Slot>, f: map<Slot, int>) {
    && |entries| == |slots|
    && (forall k :: 0 <= k < |slots| ==> slots[k] in f && f[slots[k]] == entries[k].index)
    && (forall k :: 0 <= k < |slots| ==> entries[k].index in info && entries[k].bucket >= 0)
    && (forall k :: 0 <= k < |slots| ==> slots[k] == NewSlot(e, info[entries[k].index].addr, entries[k].bucket))
    && (forall j, k :: 0 <= j < k < |slots| ==> slots[j] != slots[k])
    && (forall sl :: sl in f ==> sl in slots)
    && (forall id :: |SlotsOf(f, id)| <= NEW_BUCKETS_PER_ADDRESS)
  }

  /** `f` restricted to the first `k` slots. */
  function TabAt(f: map<Slot, int>, slots: seq<Slot>, k: nat): map<Slot, int>
    requires k <= |slots|
  {
    map sl | sl in f && sl in slots[..k] :: f[sl]
  }

  lemma TabAtNext(e: Env, info: map<int, AddrInfo>, entries: seq<Entry>, slots: seq<Slot>, f: map<Slot, int>, k: nat)
    requires Aligned(e, info, entries, slots, f) && k < |slots|
    ensures slots[k] !in TabAt(f, slots, k)
    ensures TabAt(f, slots, k)[slots[k] := entries[k].index] == TabAt(f, slots, k + 1)
    ensures |SlotsOf(TabAt(f, slots, k), entries[k].index)| < NEW_BUCKETS_PER_ADDRESS
  {
    var sl, id := slots[k], entries[k].index;
    assert sl !in slots[..k];
    assert sl in f && f[sl] == id && |SlotsOf(f, id)| <= NEW_BUCKETS_PER_ADDRESS;
    hide Aligned;
    TabAtRoom(slots, f, k, id);
    assert slots[..k + 1] == slots[..k] + [sl];
  }

  lemma TabAtRoom(slots: seq<Slot>, f: map<Slot, int>, k: nat, id: int)
    requires k < |slots| && slots[k] in f && f[slots[k]] == id && slots[k] !in slots[..k]
    ensures |SlotsOf(TabAt(f, slots, k), id)| < |SlotsOf(f, id)|
  {
    var part := SlotsOf(TabAt(f, slots, k), id);
    assert part + {slots[k]} <= SlotsOf(f, id);
    SlotSubset(part + {slots[k]}, SlotsOf(f, id));
  }

  lemma {:induction false} SlotSubset(a: set<Slot>, b: set<Slot>)
    requires a <= b
    ensures |a| <= |b|
    decreases a
  {
    if a != {} {
      var x := PickOne(a);
      SlotSubset(a - {x}, b - {x});
    }
  }

  lemma TabAtEnds(e: Env, info: map<int, AddrInfo>, entries: seq<Entry>, slots: seq<Slot>, f: map<Slot, int>)
    requires Aligned(e, info, entries, slots, f)
    ensures TabAt(f, slots, 0) == map[] && TabAt(f, slots, |slots|) == f
  {
    assert slots[..|slots|] == slots;
  }

  lemma AlignedTarget(e: Env, b: map<int, AddrInfo>, info: map<int, AddrInfo>, entries: seq<Entry>, slots: seq<Slot>,
      f: map<Slot, int>,
                      k: nat, l: set<int>)
    requires Aligned(e, b, entries, slots, f) && k < |slots| && RecountOnly(b, info)
    requires !b[entries[k].index].fInTried && RefOk(info, TabAt(f, slots, k), l)
    ensures Target(e, info, TabAt(f, slots, k), entries[k], true) == Some(slots[k])
    ensures TabAt(f, slots, k)[slots[k] := entries[k].index] == TabAt(f, slots, k + 1)
  {
    TabAtNext(e, b, entries, slots, f, k);
    var id := entries[k].index;
    assert info[id] == b[id].(nRefCount := info[id].nRefCount);
    hide TabAt, SlotsOf, BucketPosition, NewBucket;
    assert slots[k] == NewSlot(e, info[id].addr, entries[k].bucket);
    assert info[id].nRefCount == |SlotsOf(TabAt(f, slots, k), id)|;
  }

  lemma RecountStep(b: map<int, AddrInfo>, m: map<int, AddrInfo>, n: map<int, AddrInfo>, id: int, c: int)
    requires RecountOnly(b, m) && id in m && Recounted(m, n, id, c)
    ensures RecountOnly(b, n)
  {}

  ghost predicate Usable(info: map<int, AddrInfo>, entries: seq<Entry>, restore: bool) {
    forall i :: 0 <= i < |entries| ==>
      && 0 <= entries[i].index && entries[i].index in info && !info[entries[i].index].fInTried
      && 0 <= entries[i].bucket && (restore ==> entries[i].bucket < NEW_BUCKET_COUNT)
  }

  /** Where Unserialize stands after `k` bucket entries; `b` are the entries as they were before. */
  ghost predicate Placing(m: AddrMan, b: map<int, AddrInfo>, entries: seq<Entry>, restore: bool,
                          slots: seq<Slot>, f: map<Slot, int>, k: nat)
    reads m, m.vvNew, m.vvTried
  {
    && m.Tables() && RecountOnly(b, m.mapInfo)
    && m.Frame(Zero(m.mapInfo))
    && k <= |entries| && Fillable(b, entries) && Filling(m.mapInfo, m.newTab) == Filled(m.env, b, entries, restore, k)
    && (restore && Aligned(m.env, b, entries, slots, f) && k <= |slots| ==> m.newTab == TabAt(f, slots, k))
  }

  method PlaceRound(m: AddrMan, ghost b: map<int, AddrInfo>, entries: seq<Entry>, restore: bool,
                    ghost slots: seq<Slot>, ghost f: map<Slot, int>, k: nat)
    requires k < |entries| && Usable(b, entries, restore) && Placing(m, b, entries, restore, slots, f, k)
    modifies m`mapInfo, m`newTab, m.vvNew
    ensures Placing(m, b, entries, restore, slots, f, k + 1)
  {
    hide Mirrors, OrderOk, RefOk, NewTabOk, TriedOk, IdsOk, Zero, TabAt, Target;
    var en := entries[k];
    assert m.mapInfo[en.index] == b[en.index].(nRefCount := m.mapInfo[en.index].nRefCount);
    ghost var m0 := m.mapInfo;
    if restore && Aligned(m.env, b, entries, slots, f) {
      AlignedTarget(m.env, b, m.mapInfo, entries, slots, f, k, Zero(m.mapInfo));
    }
    hide Aligned, RecountOnly;
    PlaceOne(m, en, restore);
    if m.mapInfo != m0 {
      RecountStep(b, m0, m.mapInfo, en.index, m0[en.index].nRefCount + 1);
    }
  }

  /** Every filled slot is the one its entry's own source chooses, and an entry has one reference or none. */
  ghost predicate AtHome(e: Env, b: map<int, AddrInfo>, f: Filling) {
    && RecountOnly(b, f.info)
    && (forall sl :: sl in f.tab ==> f.tab[sl] in b && sl == HomeSlot(e, b[f.tab[sl]]))
    && (forall id :: id in b ==> 0 <= f.info[id].nRefCount <= 1)
    && (forall id :: id in b && f.info[id].nRefCount == 1 ==> HomeSlot(e, b[id]) in f.tab)
  }

  lemma SameHome(e: Env, i: AddrInfo, count: int)
    ensures HomeSlot(e, i.(nRefCount := count)) == HomeSlot(e, i)
  {
  }

  lemma HomeNext(e: Env, b: map<int, AddrInfo>, entries: seq<Entry>, k: nat)
    requires k < |entries| && Fillable(b, entries) && AtHome(e, b, Filled(e, b, entries, false, k))
    ensures
      var f, g, id := Filled(e, b, entries, false, k), Filled(e, b, entries, false, k + 1), entries[k].index;
      if HomeSlot(e, b[id]) in f.tab then g == f else
        && Recounted(f.info, g.info, id, f.info[id].nRefCount + 1)
        && g.tab == f.tab[HomeSlot(e, b[id]) := id]
  {
    hide HomeSlot, NewSlot;
    var f, en := Filled(e, b, entries, false, k), entries[k];
    SameHome(e, b[en.index], f.info[en.index].nRefCount);
    assert f.info[en.index] == b[en.index].(nRefCount := f.info[en.index].nRefCount);
  }

  lemma HomeNone(e: Env, b: map<int, AddrInfo>)
    requires forall id :: id in b ==> b[id].nRefCount == 0
    ensures AtHome(e, b, Filling(b, map[]))
  {
  }

  lemma HomeKept(e: Env, b: map<int, AddrInfo>, f: Filling, g: Filling, id: int)
    requires AtHome(e, b, f) && id in b && HomeSlot(e, b[id]) !in f.tab
    requires Recounted(f.info, g.info, id, f.info[id].nRefCount + 1) && g.tab == f.tab[HomeSlot(e, b[id]) := id]
    ensures AtHome(e, b, g)
  {
    hide HomeSlot, NewSlot;
    assert f.info[id].nRefCount == 0;
  }

  /** Refilling without the old slots: an entry lies nowhere but in the slot its own source chooses. */
  lemma {:induction false} RefilledHome(e: Env, b: map<int, AddrInfo>, entries: seq<Entry>, k: nat)
    requires k <= |entries| && Fillable(b, entries) && forall id :: id in b ==> b[id].nRefCount == 0
    ensures AtHome(e, b, Filled(e, b, entries, false, k))
  {
    hide AtHome, HomeSlot, NewSlot;
    if k == 0 {
      HomeNone(e, b);
    } else {
      hide *;
      RefilledHome(e, b, entries, k - 1);
      HomeNext(e, b, entries, k - 1);
      var f, g, id := Filled(e, b, entries, false, k - 1), Filled(e, b, entries, false, k), entries[k - 1].index;
      if HomeSlot(e, b[id]) !in f.tab {
        HomeKept(e, b, f, g, id);
      }
    }
  }

  /** And that slot is filled for every entry a bucket lists. */
  lemma {:induction false} RefilledListed(e: Env, b: map<int, AddrInfo>, entries: seq<Entry>, k: nat, j: nat)
    requires j < k <= |entries| && Fillable(b, entries) && forall id :: id in b ==> b[id].nRefCount == 0
    ensures HomeSlot(e, b[entries[j].index]) in Filled(e, b, entries, false, k).tab
  {
    hide *;
    RefilledHome(e, b, entries, k - 1);
    HomeNext(e, b, entries, k - 1);
    if j < k - 1 {
      RefilledListed(e, b, entries, k - 1, j);
    }
  }

  /** Refilling with the old slots: the slot of every bucket entry is filled unless it has its eight references. */
  lemma {:induction false} RefilledOld(e: Env, b: map<int, AddrInfo>, entries: seq<Entry>, k: nat)
    requires k <= |entries| && Fillable(b, entries)
    ensures
      var f := Filled(e, b, entries, true, k);
      && RecountOnly(b, f.info)
      && (forall j :: 0 <= j < k ==>
            || NewSlot(e, b[entries[j].index].addr, entries[j].bucket) in f.tab
            || f.info[entries[j].index].nRefCount >= 8)
  {
    hide HomeSlot, NewSlot;
    if k > 0 {
      RefilledOld(e, b, entries, k - 1);
      var f, en := Filled(e, b, entries, true, k - 1), entries[k - 1];
      assert f.info[en.index] == b[en.index].(nRefCount := f.info[en.index].nRefCount);
    }
  }

  lemma UsableFillable(info: map<int, AddrInfo>, entries: seq<Entry>, restore: bool)
    requires Usable(info, entries, restore)
    ensures Fillable(info, entries)
  {}

  lemma RecountNone(info: map<int, AddrInfo>)
    ensures RecountOnly(info, info)
  {}

  /** Unserialize's loop over the bucket entries. */
  method PlaceEntries(m: AddrMan, entries: seq<Entry>, restore: bool, ghost slots: seq<Slot>, ghost f: map<Slot, int>)
    requires m.Tables() && m.newTab == map[] && Usable(m.mapInfo, entries, restore)
    requires m.Frame(Zero(m.mapInfo))
    modifies m`mapInfo, m`newTab, m.vvNew
    ensures m.Tables() && RecountOnly(old(m.mapInfo), m.mapInfo)
    ensures Fillable(old(m.mapInfo), entries)
    ensures Filling(m.mapInfo, m.newTab) == Filled(m.env, old(m.mapInfo), entries, restore, |entries|)
    ensures m.Frame(Zero(m.mapInfo))
    ensures restore && Aligned(m.env, old(m.mapInfo), entries, slots, f) ==> m.newTab == f
  {
    hide Mirrors, OrderOk, RefOk, NewTabOk, TriedOk, IdsOk, Zero, TabAt, Usable;
    ghost var b := m.mapInfo;
    if Aligned(m.env, b, entries, slots, f) {
      TabAtEnds(m.env, b, entries, slots, f);
    }
    UsableFillable(b, entries, restore);
    RecountNone(b);
    assert Placing(m, b, entries, restore, slots, f, 0);
    hide Placing;
    for k := 0 to |entries|
      invariant Placing(m, b, entries, restore, slots, f, k)
    {
      PlaceRound(m, b, entries, restore, slots, f, k);
    }
    PlacingEnd(m, b, entries, restore, slots, f);
  }

  lemma PlacingEnd(m: AddrMan, b: map<int, AddrInfo>, entries: seq<Entry>, restore: bool, slots: seq<Slot>,
      f: map<Slot, int>)
    requires Placing(m, b, entries, restore, slots, f, |entries|)
    ensures m.Tables() && RecountOnly(b, m.mapInfo)
    ensures Fillable(b, entries) && Filling(m.mapInfo, m.newTab) == Filled(m.env, b, entries, restore, |entries|)
    ensures m.Frame(Zero(m.mapInfo))
    ensures restore && Aligned(m.env, b, entries, slots, f) ==> m.newTab == f
  {
    hide Mirrors, OrderOk, RefOk, NewTabOk, TriedOk, IdsOk, Zero, TabAt;
    if Aligned(m.env, b, entries, slots, f) {
      TabAtEnds(m.env, b, entries, slots, f);
    }
  }

  // ---------------------------------------------------------------- pruning

  lemma ZeroRemoved(m: map<int, AddrInfo>, n: map<int, AddrInfo>, id: int)
    requires SameEntries(m - {id}, n)
    ensures Zero(n) == Zero(m) - {id} && n.Keys == m.Keys - {id}
  {
    forall k | k in n ensures k in m && SameEntry(m[k], n[k]) {
      assert SameEntry((m - {id})[k], n[k]);
    }
  }

  /** After visiting the first `j` keys, none of them is on neither table, and the others are still there. */
  ghost predicate Pruned(keys: seq<int>, j: int, info: map<int, AddrInfo>) {
    && 0 <= j <= |keys|
    && (forall i :: 0 <= i < j ==> keys[i] !in Zero(info))
    && (forall i :: j <= i < |keys| ==> keys[i] in info)
    && (forall x :: x in info ==> x in keys)
  }

  lemma PrunedStep(keys: seq<int>, j: int, info: map<int, AddrInfo>, n: map<int, AddrInfo>)
    requires Pruned(keys, j, info) && j < |keys| && Ascending(keys)
    requires if keys[j] in Zero(info) then Zero(n) == Zero(info) - {keys[j]} && n.Keys == info.Keys - {keys[j]}
      else n == info
    ensures Pruned(keys, j + 1, n)
  {}

  lemma PrunedAll(keys: seq<int>, info: map<int, AddrInfo>)
    requires Pruned(keys, |keys|, info)
    ensures Zero(info) == {}
  {
    forall x | x in info ensures x !in Zero(info) {
      assert x in keys;
    }
  }

  lemma PrunedNone(keys: seq<int>, info: map<int, AddrInfo>)
    requires forall x :: x in keys <==> x in info
    ensures Pruned(keys, 0, info)
  {
    forall i | 0 <= i < |keys| ensures keys[i] in info {
      var x := keys[i];
      assert x in keys;
    }
  }

  /** The keys under which dropped entries would be looked up. */
  function Struck(e: Env, base: map<int, AddrInfo>, info: map<int, AddrInfo>): set<Service> {
    set id | id in base && id !in info :: Norm(e, base[id].addr)
  }

  /** What is left of the entries read: some are gone, none has changed in what is stored. */
  ghost predicate Kept(base: map<int, AddrInfo>, info: map<int, AddrInfo>) {
    forall id :: id in info ==>
        id in base && SameStored(info[id], base[id]) && info[id].fInTried == base[id].fInTried
  }

  lemma KeptLess(e: Env, base: map<int, AddrInfo>, info: map<int, AddrInfo>, n: map<int, AddrInfo>, id: int)
    requires Kept(base, info) && id in info && SameEntries(info - {id}, n)
    ensures Kept(base, n) && Struck(e, base, n) == Struck(e, base, info) + {Norm(e, info[id].addr)}
  {
    forall k | k in n ensures k in base && SameStored(n[k], base[k]) && n[k].fInTried == base[k].fInTried {
      assert SameEntry((info - {id})[k], n[k]);
    }
    assert SameStored(info[id], base[id]);
    forall k | k in base && k !in n ensures k == id || k !in info {}
  }

  lemma KeptAll(e: Env, info: map<int, AddrInfo>)
    ensures Kept(info, info) && Struck(e, info, info) == {}
  {}

  /** Unserialize's last loop: entries on neither table are deleted. */
  method Prune(m: AddrMan) returns (nLostUnk: nat)
    requires m.Frame(Zero(m.mapInfo)) && m.nNew == |NewIds(m.mapInfo)|
    modifies m`mapInfo, m`vRandom, m`mapAddr, m`nNew
    ensures m.Frame({}) && m.nNew == |NewIds(m.mapInfo)|
    ensures m.mapInfo.Keys == old(m.mapInfo.Keys) - old(Zero(m.mapInfo))
    ensures TriedIds(m.mapInfo) == old(TriedIds(m.mapInfo))
    ensures Kept(old(m.mapInfo), m.mapInfo) && m.mapAddr == old(m.mapAddr) - Struck(m.env, old(m.mapInfo), m.mapInfo)
    ensures old(Zero(m.mapInfo)) == {} ==> unchanged(m) && nLostUnk == 0
  {
    var keys := AscendingKeys(m.mapInfo.Keys);
    PrunedNone(keys, m.mapInfo);
    KeptAll(m.env, m.mapInfo);
    nLostUnk := 0;
    hide RefOk, NewTabOk, TriedOk, IdsOk, Zero, NewIds, TriedIds, Pruned, Ascending, OrderOk, FrameOk, Kept, Struck;
    for j := 0 to |keys|
      invariant Pruned(keys, j, m.mapInfo)
      invariant m.mapInfo.Keys - Zero(m.mapInfo) == old(m.mapInfo.Keys) - old(Zero(m.mapInfo))
      invariant m.Frame(Zero(m.mapInfo)) && m.nNew == |NewIds(m.mapInfo)|
      invariant TriedIds(m.mapInfo) == old(TriedIds(m.mapInfo))
      invariant Kept(old(m.mapInfo), m.mapInfo)
      invariant m.mapAddr == old(m.mapAddr) - Struck(m.env, old(m.mapInfo), m.mapInfo)
      invariant old(Zero(m.mapInfo)) == {} ==> unchanged(m) && nLostUnk == 0
    {
      var lost := PruneAt(m, keys, j, old(m.mapInfo), old(m.mapAddr));
      if lost {
        nLostUnk := nLostUnk + 1;
      }
    }
    PrunedAll(keys, m.mapInfo);
  }

  /** One round of that loop. */
  method PruneAt(m: AddrMan, keys: seq<int>, j: nat, ghost base: map<int, AddrInfo>, ghost byAddr: map<Service, int>)
    returns (lost: bool)
    requires j < |keys| && Ascending(keys) && Pruned(keys, j, m.mapInfo)
    requires m.Frame(Zero(m.mapInfo)) && m.nNew == |NewIds(m.mapInfo)|
    requires Kept(base, m.mapInfo) && m.mapAddr == byAddr - Struck(m.env, base, m.mapInfo)
    modifies m`mapInfo, m`vRandom, m`mapAddr, m`nNew
    ensures Pruned(keys, j + 1, m.mapInfo)
    ensures m.mapInfo.Keys - Zero(m.mapInfo) == old(m.mapInfo.Keys) - old(Zero(m.mapInfo))
    ensures m.Frame(Zero(m.mapInfo)) && m.nNew == |NewIds(m.mapInfo)|
    ensures TriedIds(m.mapInfo) == old(TriedIds(m.mapInfo))
    ensures Kept(base, m.mapInfo) && m.mapAddr == byAddr - Struck(m.env, base, m.mapInfo)
    ensures if lost then old(Zero(m.mapInfo)) != {} else unchanged(m)
  {
    assert OrderOk(m.mapInfo, m.vRandom);
    hide RefOk, NewTabOk, TriedOk, IdsOk, Zero, NewIds, TriedIds, Pruned, Ascending, OrderOk, FrameOk, Kept, Struck,
         AddrOk;
    PruneOne(keys, j, m.mapInfo);
    ghost var m0 := m.mapInfo;
    var info := m.mapInfo[keys[j]];
    lost := !info.fInTried && info.nRefCount == 0;
    if lost {
      m.Delete(keys[j], Zero(m.mapInfo));
      ZeroRemoved(m0, m.mapInfo, keys[j]);
      KeptLess(m.env, base, m0, m.mapInfo, keys[j]);
    }
    PrunedStep(keys, j, m0, m.mapInfo);
  }

  lemma PruneOne(keys: seq<int>, j: int, info: map<int, AddrInfo>)
    requires Pruned(keys, j, info) && j < |keys|
    ensures keys[j] in info
    ensures keys[j] in Zero(info) <==> !info[keys[j]].fInTried && info[keys[j]].nRefCount == 0
    ensures keys[j] in Zero(info) ==> keys[j] in NewIds(info) && Zero(info) != {}
  {}

  // ---------------------------------------------------------------- the whole reader

  /** The conditions under which Unserialize throws: an unknown format, a wrong key size, a counter out
      of range, or a stream that ends early. */
  predicate Rejected(st: Stream) {
    || st.format > V3_BIP155
    || st.keySize != 32
    || st.nNew > NEW_BUCKET_COUNT * BUCKET_SIZE || st.nNew < 0
    || st.nTried > TRIED_BUCKET_COUNT * BUCKET_SIZE || st.nTried < 0
    || st.nNew > |st.newEntries| || st.nTried > |st.triedEntries| || Buckets(st) > |st.buckets|
  }

  /** The number of buckets the stream announces: formats after the first store it with bit 30 flipped. */
  function Buckets(st: Stream): int {
    if st.format >= 1 then (if (st.nUBuckets / NEW_BUCKET_FLAG) % 2 == 0 then st.nUBuckets + NEW_BUCKET_FLAG
        else st.nUBuckets - NEW_BUCKET_FLAG)
    else st.nUBuckets
  }

  predicate Restoring(st: Stream, sum: nat) {
    Buckets(st) == NEW_BUCKET_COUNT && (if st.format >= 2 then st.checksum else 0) == sum
  }

  /** A stream is accepted exactly if it is of one of the four formats, has a key of 32 bytes, announces as many entries
      as the tables can hold and no more than it has, and no more buckets than it has. */
  lemma RejectedMeans(st: Stream)
    ensures Rejected(st) <==>
      !(&& st.format <= 3 && st.keySize == 32
        && 0 <= st.nNew <= 65536 && st.nNew <= |st.newEntries|
        && 0 <= st.nTried <= 16384 && st.nTried <= |st.triedEntries|
        && Buckets(st) <= |st.buckets|)
  {
  }

  /** The first format stores the number of buckets as it is, the others with bit 30 flipped, which flips back. */
  lemma BucketsMeans(st: Stream)
    ensures st.format == 0 ==> Buckets(st) == st.nUBuckets
    ensures st.format > 0 ==> Buckets(st) == st.nUBuckets + 0x4000_0000 || Buckets(st) == st.nUBuckets - 0x4000_0000
    ensures st.format > 0 && 0 <= st.nUBuckets < 0x4000_0000 ==> Buckets(st) == st.nUBuckets + 0x4000_0000
    ensures st.format > 0 ==> Buckets(st.(nUBuckets := Buckets(st))) == st.nUBuckets
  {
    var n, flag := st.nUBuckets, 0x4000_0000;
    N.DivUnique(n, flag, n / flag, n % flag);
    N.DivUnique(n + flag, flag, n / flag + 1, n % flag);
    N.DivUnique(n - flag, flag, n / flag - 1, n % flag);
  }

  /** Old slots are given back exactly if the stream has 1024 buckets and was written under the same AS map; a format
      without a checksum counts as written without a map. */
  lemma RestoringMeans(st: Stream, sum: nat)
    ensures Restoring(st, sum) <==> Buckets(st) == 1024 && (if st.format < 2 then sum == 0 else sum == st.checksum)
  {
  }

  function Range(a: int, b: int): (r: set<int>)
    requires a <= b
    ensures forall k :: k in r <==> a <= k < b
    ensures |r| == b - a
    decreases b - a
  {
    if a == b then {} else Range(a, b - 1) + {b - 1}
  }

  lemma LoadedCounts(news: seq<Persisted>, trieds: seq<Persisted>, acc: seq<int>)
    requires AccBelow(acc, |trieds|)
    ensures |NewIds(LoadedAll(news, trieds, acc))| == |news| && |TriedIds(LoadedAll(news, trieds, acc))| == |acc|
  {
    var info := LoadedAll(news, trieds, acc);
    assert NewIds(info) == Range(0, |news|);
    assert TriedIds(info) == Range(|news|, |news| + |acc|);
  }

  lemma RecountIds(m: map<int, AddrInfo>, n: map<int, AddrInfo>)
    requires RecountOnly(m, n)
    ensures NewIds(m) == NewIds(n) && TriedIds(m) == TriedIds(n)
  {
    forall id | id in m ensures m[id].fInTried == n[id].fInTried {
      assert n[id] == m[id].(nRefCount := n[id].nRefCount);
    }
  }

  lemma EntriesUsable(news: seq<Persisted>, trieds: seq<Persisted>, acc: seq<int>, entries: seq<Entry>, restore: bool)
    requires AccBelow(acc, |trieds|)
    requires forall i :: 0 <= i < |entries| ==> 0 <= entries[i].bucket && 0 <= entries[i].index < |news|
    requires restore ==> forall i :: 0 <= i < |entries| ==> entries[i].bucket < NEW_BUCKET_COUNT
    ensures Usable(LoadedAll(news, trieds, acc), entries, restore)
  {}

  /** The stream was written from a table `f` with slots `slots`, under the same bucketing. */
  ghost predicate Faithful(e: Env, st: Stream, sum: nat, slots: seq<Slot>, f: map<Slot, int>) {
    && !Rejected(st) && Restoring(st, sum)
    && var news, trieds := st.newEntries[..st.nNew], st.triedEntries[..st.nTried];
    && DistinctSlots(e, trieds)
    && Aligned(e, Loaded(news, |news|), BucketEntries(st.buckets, NEW_BUCKET_COUNT, st.nNew), slots, f)
    && (forall k :: 0 <= k < |news| ==> SlotsOf(f, k) != {})
  }

  lemma AlignedLoaded(e: Env, news: seq<Persisted>, trieds: seq<Persisted>, acc: seq<int>, entries: seq<Entry>,
      slots: seq<Slot>, f: map<Slot, int>)
    requires AccBelow(acc, |trieds|) && Aligned(e, Loaded(news, |news|), entries, slots, f)
    ensures Aligned(e, LoadedAll(news, trieds, acc), entries, slots, f)
  {
    var info := LoadedAll(news, trieds, acc);
    forall k | 0 <= k < |slots|
      ensures entries[k].index in info && slots[k] == NewSlot(e, info[entries[k].index].addr, entries[k].bucket)
    {
      assert entries[k].index in Loaded(news, |news|);
    }
  }

  lemma NothingZero(news: seq<Persisted>, trieds: seq<Persisted>, acc: seq<int>, info: map<int, AddrInfo>,
      f: map<Slot, int>)
    requires AccBelow(acc, |trieds|) && RecountOnly(LoadedAll(news, trieds, acc), info)
    requires RefOk(info, f, Zero(info)) && (forall k :: 0 <= k < |news| ==> SlotsOf(f, k) != {})
    ensures Zero(info) == {}
  {
    var base := LoadedAll(news, trieds, acc);
    forall k | k in info ensures k !in Zero(info) {
      assert info[k] == base[k].(nRefCount := info[k].nRefCount);
      if k < |news| {
        assert SlotsOf(f, k) != {} && |SlotsOf(f, k)| != 0;
      }
    }
  }

  /** Unserialize, first half: the entries, the random order and the tried table. */
  method LoadEntries(m: AddrMan, news: seq<Persisted>, trieds: seq<Persisted>) returns (ghost acc: seq<int>)
    requires m.Tables() && m.Frame({}) && m.nIdCount == 0
    requires m.mapInfo == map[] && m.mapAddr == map[] && m.vRandom == [] && m.newTab == map[] && m.triedTab == map[]
    modifies m`mapInfo, m`mapAddr, m`vRandom, m`nIdCount, m`triedTab, m`nNew, m`nTried, m.vvTried
    ensures Loading(m, news, trieds, acc, |trieds|)
    ensures m.nNew == |news| && m.nTried == |acc|
  {
    hide Mirrors, OrderOk, RefOk, NewTabOk, TriedOk, IdsOk, Zero, CountsUp, Loaded, LoadedAll, AccBelow, FrameOk,
         Filed, Greedy;
    LoadNew(m, news);
    m.nNew := |news|;
    var nLost, taken := LoadTried(m, news, trieds);
    acc := taken;
    m.nTried := |trieds| - nLost;
  }

  /** Everything about a manager but its index by address. */
  ghost predicate Framed(m: AddrMan)
    reads m, m.vvNew, m.vvTried
  {
    && m.Tables() && m.Frame({})
    && m.nNew == |NewIds(m.mapInfo)| && m.nTried == |TriedIds(m.mapInfo)|
  }

  /** Every address read is its own key, and no entry that is kept shares its address with another one read. */
  ghost predicate Consistent(e: Env, base: map<int, AddrInfo>, info: map<int, AddrInfo>) {
    && (forall id :: id in base ==> Norm(e, base[id].addr) == base[id].addr)
    && (forall i, j :: i in base && j in info && i != j ==> j in base && base[i].addr != base[j].addr)
  }

  /** Exactly then the index of the entries kept is right. */
  lemma IndexExact(e: Env, base: map<int, AddrInfo>, info: map<int, AddrInfo>, filed: map<Service, int>,
      byAddr: map<Service, int>)
    requires Filed(base, filed) && Kept(base, info) && byAddr == filed - Struck(e, base, info)
    ensures AddrOk(e, info, byAddr) <==> Consistent(e, base, info)
  {
    if AddrOk(e, info, byAddr) {
      IndexImplies(e, base, info, filed, byAddr);
    }
    if Consistent(e, base, info) {
      ConsistentIndex(e, base, info, filed, byAddr);
    }
  }

  lemma KeptAddr(base: map<int, AddrInfo>, info: map<int, AddrInfo>, id: int)
    requires Kept(base, info) && id in info
    ensures id in base && info[id].addr == base[id].addr
  {
    assert SameStored(info[id], base[id]);
  }

  lemma ConsistentIndex(e: Env, base: map<int, AddrInfo>, info: map<int, AddrInfo>, filed: map<Service, int>,
      byAddr: map<Service, int>)
    requires Filed(base, filed) && Kept(base, info) && byAddr == filed - Struck(e, base, info)
    requires Consistent(e, base, info)
    ensures AddrOk(e, info, byAddr)
  {
    forall id | id in info ensures Norm(e, info[id].addr) in byAddr && byAddr[Norm(e, info[id].addr)] == id {
      KeptAddr(base, info, id);
      var a := base[id].addr;
      assert filed[a] in base && base[filed[a]].addr == a;
      assert a !in Struck(e, base, info);
    }
    forall k | k in base && k !in info ensures base[k].addr in Struck(e, base, info) {
      assert Norm(e, base[k].addr) == base[k].addr;
    }
    forall a | a in byAddr ensures byAddr[a] in info && Norm(e, info[byAddr[a]].addr) == a {
      var k := filed[a];
      assert k in base && base[k].addr == a && k in info;
      KeptAddr(base, info, k);
    }
  }

  lemma IndexImplies(e: Env, base: map<int, AddrInfo>, info: map<int, AddrInfo>, filed: map<Service, int>,
      byAddr: map<Service, int>)
    requires Filed(base, filed) && Kept(base, info) && byAddr == filed - Struck(e, base, info)
    requires AddrOk(e, info, byAddr)
    ensures Consistent(e, base, info)
  {
    forall id | id in info
      ensures id in base && Norm(e, base[id].addr) == base[id].addr && base[id].addr in byAddr
      ensures byAddr[base[id].addr] == id
    {
      KeptAddr(base, info, id);
      var a := Norm(e, info[id].addr);
      assert byAddr[a] == id && filed[a] == id && base[id].addr == a;
    }
    forall id | id in base && id !in info ensures Norm(e, base[id].addr) == base[id].addr && base[id].addr !in byAddr {
      DroppedKey(e, base, info, filed, byAddr, id);
      assert Norm(e, base[id].addr) in Struck(e, base, info);
    }
    forall i, j | i in base && j in info && i != j ensures j in base && base[i].addr != base[j].addr {
      assert i in info ==> byAddr[base[i].addr] == i;
      assert byAddr[base[j].addr] == j;
    }
  }

  /** The key of a dropped entry is struck only if some dropped entry is looked up by it. */
  lemma DroppedKey(e: Env, base: map<int, AddrInfo>, info: map<int, AddrInfo>, filed: map<Service, int>,
      byAddr: map<Service, int>, id: int)
    requires Filed(base, filed) && Kept(base, info) && byAddr == filed - Struck(e, base, info)
    requires AddrOk(e, info, byAddr)
    requires id in base && id !in info
    ensures Norm(e, base[id].addr) == base[id].addr
  {
    var a := base[id].addr;
    if a in byAddr {
      assert byAddr[a] in info && Norm(e, info[byAddr[a]].addr) == a;
    } else {
      assert a in Struck(e, base, info);
      var d :| d in base && d !in info && Norm(e, base[d].addr) == a;
    }
  }

  lemma RecountKept(e: Env, base: map<int, AddrInfo>, mid: map<int, AddrInfo>, info: map<int, AddrInfo>)
    requires RecountOnly(base, mid) && Kept(mid, info)
    ensures Kept(base, info) && Struck(e, base, info) == Struck(e, mid, info)
  {
    forall id | id in base
      ensures id in mid && SameStored(mid[id], base[id]) && mid[id].fInTried == base[id].fInTried
    {
      assert mid[id] == base[id].(nRefCount := mid[id].nRefCount);
    }
    forall id | id in base ensures Norm(e, base[id].addr) == Norm(e, mid[id].addr) {
      assert SameStored(mid[id], base[id]);
    }
  }

  lemma FramedSound(m: AddrMan)
    requires Framed(m) && |m.triedCollisions| <= SET_TRIED_COLLISION_SIZE
    ensures m.Sound() <==> AddrOk(m.env, m.mapInfo, m.mapAddr)
  {}

  /** Unserialize, second half: the new table is refilled and entries without a slot are dropped. */
  method Rebucket(m: AddrMan, entries: seq<Entry>, restore: bool, ghost news: seq<Persisted>,
      ghost trieds: seq<Persisted>, ghost acc: seq<int>,
                  ghost slots: seq<Slot>, ghost f: map<Slot, int>)
    requires Loading(m, news, trieds, acc, |trieds|) && Usable(m.mapInfo, entries, restore)
    requires m.nNew == |news| && m.nTried == |acc|
    modifies m`mapInfo, m`vRandom, m`mapAddr, m`nNew, m`newTab, m.vvNew
    ensures Framed(m) && (AddrOk(m.env, m.mapInfo, m.mapAddr) <==> Consistent(m.env, old(m.mapInfo), m.mapInfo))
    ensures Fillable(old(m.mapInfo), entries) && Kept(old(m.mapInfo), m.mapInfo)
    ensures
      var fill := Filled(m.env, old(m.mapInfo), entries, restore, |entries|);
      m.newTab == fill.tab && m.mapInfo.Keys == old(m.mapInfo.Keys) - Zero(fill.info)
    ensures
      (&& restore && Aligned(m.env, old(m.mapInfo), entries, slots, f)
       && forall k :: 0 <= k < |news| ==> SlotsOf(f, k) != {}) ==>
      m.newTab == f && RecountOnly(old(m.mapInfo), m.mapInfo) && m.nNew == |news|
  {
    hide Mirrors, OrderOk, AddrOk, RefOk, NewTabOk, TriedOk, IdsOk, Zero, NewIds, TriedIds, CountsUp, AccBelow,
         Consistent, Filed, Greedy, Filled, Fillable,
      LoadedAll, Usable, RecountOnly, Aligned, SlotsOf, Kept, Struck, FrameOk;
    ghost var base, filed := m.mapInfo, m.mapAddr;
    LoadedCounts(news, trieds, acc);
    PlaceEntries(m, entries, restore, slots, f);
    ghost var mid := m.mapInfo;
    RecountIds(base, mid);
    if m.newTab == f && (forall k :: 0 <= k < |news| ==> SlotsOf(f, k) != {}) {
      FrameRef(m);
      NothingZero(news, trieds, acc, mid, f);
    }
    var nLostUnk := Prune(m);
    RecountKept(m.env, base, mid, m.mapInfo);
    IndexExact(m.env, base, m.mapInfo, filed, m.mapAddr);
  }

  lemma FrameRef(m: AddrMan)
    requires m.Frame(Zero(m.mapInfo))
    ensures RefOk(m.mapInfo, m.newTab, Zero(m.mapInfo))
  {}

  /** What is read from a stream: the entries before the new table is refilled, and the bucket entries it is refilled
      from. */
  ghost function EntriesRead(st: Stream, acc: seq<int>): map<int, AddrInfo>
    requires !Rejected(st) && AccBelow(acc, st.nTried)
  {
    LoadedAll(st.newEntries[..st.nNew], st.triedEntries[..st.nTried], acc)
  }

  function BucketsRead(st: Stream): seq<Entry>
    requires !Rejected(st)
  {
    BucketEntries(st.buckets, if Buckets(st) < 0 then 0 else Buckets(st), st.nNew)
  }

  /** Unserialize, in place. The manager is cleared, so the remembered collisions stay. Whatever the stream, all but
      the index by address comes out right, and the index exactly if the entries are consistent. `slots` and `f` stand
      for a new table the stream may have been written from; `acc` are the tried records taken. */
  method Unserialize(m: AddrMan, key: nat, st: Stream, asmapHash: seq<bool> -> nat, ghost slots: seq<Slot>,
      ghost f: map<Slot, int>)
    returns (ok: bool, ghost acc: seq<int>)
    requires m.Tables() && |m.triedCollisions| <= SET_TRIED_COLLISION_SIZE
    modifies m, m.vvNew, m.vvTried
    ensures ok <==> !Rejected(st)
    ensures m.triedCollisions == old(m.triedCollisions)
    ensures ok ==>
      && m.env == old(m.env).(key := st.key) && Framed(m)
      && Greedy(m.env, st.triedEntries[..st.nTried], acc, st.nTried) && AccBelow(acc, st.nTried)
      && var base := EntriesRead(st, acc);
      && Fillable(base, BucketsRead(st))
      && var fill := Filled(m.env, base, BucketsRead(st), Restoring(st, Checksum(m.env.asmap, asmapHash)),
        |BucketsRead(st)|);
      && m.newTab == fill.tab && m.mapInfo.Keys == base.Keys - Zero(fill.info) && Kept(base, m.mapInfo)
      && (m.Sound() <==> Consistent(m.env, base, m.mapInfo))
    ensures ok && Faithful(m.env, st, Checksum(m.env.asmap, asmapHash), slots, f) ==>
      && CountsUp(acc, st.nTried) && m.newTab == f && RecountOnly(EntriesRead(st, acc), m.mapInfo)
      && m.nNew == st.nNew && m.nTried == st.nTried
  {
    hide Framed, CountsUp, AccBelow, DistinctSlots, LoadedAll, Loaded, RecountOnly, Aligned, BucketEntries, SlotsOf,
         Greedy, Filled, Fillable, Kept,
      Consistent, Zero, AddrMan.Sound, AddrMan.Collided, FrameOk, Mirrors, AddrOk;
    acc := [];
    m.Clear(key);
    if Rejected(st) {
      return false, [];
    }
    SoundTables(m);
    m.env := m.env.(key := st.key);
    NothingCore(m.env);
    acc := ReadStream(m, st, asmapHash, slots, f);
    FramedSound(m);
    ok := true;
  }

  /** Unserialize, once the counters have passed. */
  method ReadStream(m: AddrMan, st: Stream, asmapHash: seq<bool> -> nat, ghost slots: seq<Slot>,
      ghost f: map<Slot, int>)
    returns (ghost acc: seq<int>)
    requires !Rejected(st) && m.Tables() && m.Frame({}) && m.nIdCount == 0
    requires m.mapInfo == map[] && m.mapAddr == map[] && m.vRandom == [] && m.newTab == map[] && m.triedTab == map[]
    modifies m`mapInfo, m`mapAddr, m`vRandom, m`nIdCount, m`triedTab, m`newTab, m`nNew, m`nTried, m.vvNew, m.vvTried
    ensures Framed(m) && Greedy(m.env, st.triedEntries[..st.nTried], acc, st.nTried) && AccBelow(acc, st.nTried)
    ensures
      var base := EntriesRead(st, acc);
      && Fillable(base, BucketsRead(st))
      && var fill := Filled(m.env, base, BucketsRead(st), Restoring(st, Checksum(m.env.asmap, asmapHash)),
        |BucketsRead(st)|);
      && m.newTab == fill.tab && m.mapInfo.Keys == base.Keys - Zero(fill.info) && Kept(base, m.mapInfo)
      && (AddrOk(m.env, m.mapInfo, m.mapAddr) <==> Consistent(m.env, base, m.mapInfo))
    ensures Faithful(m.env, st, Checksum(m.env.asmap, asmapHash), slots, f) ==>
      && CountsUp(acc, st.nTried) && m.newTab == f && RecountOnly(EntriesRead(st, acc), m.mapInfo)
      && m.nNew == st.nNew && m.nTried == st.nTried
  {
    hide Framed, CountsUp, AccBelow, DistinctSlots, LoadedAll, Loaded, RecountOnly, Aligned, BucketEntries, SlotsOf,
         Greedy, Filled, Fillable, Kept,
      Consistent, Zero, FrameOk, Mirrors, AddrOk;
    var news, trieds := st.newEntries[..st.nNew], st.triedEntries[..st.nTried];
    var entries := CollectEntries(st.buckets, if Buckets(st) < 0 then 0 else Buckets(st), st.nNew);
    acc := ReadRecords(m, news, trieds, entries, Restoring(st, Checksum(m.env.asmap, asmapHash)), slots, f);
  }

  /** Unserialize, once the records are at hand. */
  method ReadRecords(m: AddrMan, news: seq<Persisted>, trieds: seq<Persisted>, entries: seq<Entry>, restore: bool,
                     ghost slots: seq<Slot>, ghost f: map<Slot, int>) returns (ghost acc: seq<int>)
    requires m.Tables() && m.Frame({}) && m.nIdCount == 0
    requires m.mapInfo == map[] && m.mapAddr == map[] && m.vRandom == [] && m.newTab == map[] && m.triedTab == map[]
    requires forall i :: 0 <= i < |entries| ==> 0 <= entries[i].bucket && 0 <= entries[i].index < |news|
    requires restore ==> forall i :: 0 <= i < |entries| ==> entries[i].bucket < NEW_BUCKET_COUNT
    modifies m`mapInfo, m`mapAddr, m`vRandom, m`nIdCount, m`triedTab, m`newTab, m`nNew, m`nTried, m.vvNew, m.vvTried
    ensures Framed(m) && Greedy(m.env, trieds, acc, |trieds|) && AccBelow(acc, |trieds|)
    ensures
      var base := LoadedAll(news, trieds, acc);
      && Fillable(base, entries)
      && var fill := Filled(m.env, base, entries, restore, |entries|);
      && m.newTab == fill.tab && m.mapInfo.Keys == base.Keys - Zero(fill.info) && Kept(base, m.mapInfo)
      && (AddrOk(m.env, m.mapInfo, m.mapAddr) <==> Consistent(m.env, base, m.mapInfo))
    ensures restore && DistinctSlots(m.env, trieds) && Aligned(m.env, Loaded(news, |news|), entries, slots, f) &&
            (forall k :: 0 <= k < |news| ==> SlotsOf(f, k) != {}) ==>
      && CountsUp(acc, |trieds|)
      && m.newTab == f && RecountOnly(LoadedAll(news, trieds, acc), m.mapInfo)
      && m.nNew == |news| && m.nTried == |trieds|
  {
    hide Framed, CountsUp, AccBelow, DistinctSlots, LoadedAll, Loaded, Usable, RecountOnly, Aligned, SlotsOf, Loading,
         Greedy, Filled, Fillable, Kept,
      Consistent, Zero, AddrOk, FrameOk, Mirrors;
    acc := LoadEntries(m, news, trieds);
    LoadingFacts(m, news, trieds, acc);
    EntriesUsable(news, trieds, acc, entries, restore);
    if Aligned(m.env, Loaded(news, |news|), entries, slots, f) {
      AlignedLoaded(m.env, news, trieds, acc, entries, slots, f);
    }
    Rebucket(m, entries, restore, news, trieds, acc, slots, f);
  }

  lemma LoadingFacts(m: AddrMan, news: seq<Persisted>, trieds: seq<Persisted>, acc: seq<int>)
    requires Loading(m, news, trieds, acc, |trieds|)
    ensures AccBelow(acc, |trieds|) && m.mapInfo == LoadedAll(news, trieds, acc) && Greedy(m.env, trieds, acc, |trieds|)
    ensures DistinctSlots(m.env, trieds) ==> CountsUp(acc, |trieds|) && |acc| == |trieds|
  {
    if DistinctSlots(m.env, trieds) {
      AllTaken(m.env, trieds, acc);
    }
  }

  // ---------------------------------------------------------------- round trip

  /** The filled slots of the first `n` buckets, in order. */
  function AllSlots(tab: map<Slot, int>, n: nat): seq<Slot> {
    if n == 0 then [] else AllSlots(tab, n - 1) + BucketSlots(tab, n - 1, BUCKET_SIZE)
  }

  lemma {:induction false} BucketSlotsAre(tab: map<Slot, int>, b: nat, n: nat)
    ensures forall sl :: sl in BucketSlots(tab, b, n) <==> sl in tab && sl.bucket == b && sl.pos < n
    ensures forall i, j :: 0 <= i < j < |BucketSlots(tab, b, n)| ==>
      BucketSlots(tab, b, n)[i] != BucketSlots(tab, b, n)[j]
    ensures |BucketSlots(tab, b, n)| <= n
  {
    if n > 0 {
      BucketSlotsAre(tab, b, n - 1);
      assert Slot(b, n - 1) !in BucketSlots(tab, b, n - 1);
    }
  }

  lemma {:induction false} AllSlotsAre(tab: map<Slot, int>, n: nat)
    ensures forall sl :: sl in AllSlots(tab, n) <==> sl in tab && sl.bucket < n && sl.pos < BUCKET_SIZE
    ensures forall i, j :: 0 <= i < j < |AllSlots(tab, n)| ==> AllSlots(tab, n)[i] != AllSlots(tab, n)[j]
    ensures |AllSlots(tab, n)| <= n * BUCKET_SIZE
  {
    if n > 0 {
      AllSlotsAre(tab, n - 1);
      BucketSlotsAre(tab, n - 1, BUCKET_SIZE);
      var s, t := AllSlots(tab, n - 1), BucketSlots(tab, n - 1, BUCKET_SIZE);
      forall i, j | 0 <= i < j < |s + t| ensures (s + t)[i] != (s + t)[j] {
        if i < |s| <= j {
          assert s[i] in s && t[j - |s|] in t;
        }
      }
    }
  }

  lemma {:induction false} RecordAll(b: int, rec: seq<int>, n: nat, nNew: int)
    requires n <= |rec| && (forall i :: 0 <= i < n ==> 0 <= rec[i] < nNew)
    ensures |RecordEntries(b, rec, n, nNew)| == n
    ensures forall i :: 0 <= i < n ==> RecordEntries(b, rec, n, nNew)[i] == Entry(b, rec[i])
  {
    if n > 0 {
      RecordAll(b, rec, n - 1, nNew);
    }
  }

  /** The entries are those of the slots, in the same order. */
  ghost predicate Matching(tab: map<Slot, int>, unk: map<int, int>, s: seq<Slot>, en: seq<Entry>) {
    |en| == |s| && forall k :: 0 <= k < |s| ==> en[k] == Entry(s[k].bucket, Index(tab, unk, s[k]))
  }

  lemma MatchingJoin(tab: map<Slot, int>, unk: map<int, int>, s: seq<Slot>, en: seq<Entry>, t: seq<Slot>,
      more: seq<Entry>)
    requires Matching(tab, unk, s, en) && Matching(tab, unk, t, more)
    ensures Matching(tab, unk, s + t, en + more)
  {
    hide Index;
  }

  lemma BucketMatch(tab: map<Slot, int>, unk: map<int, int>, b: nat, rec: seq<int>, nNew: int)
    requires BucketRecord(tab, unk, BucketSlots(tab, b, BUCKET_SIZE), rec)
    requires forall sl :: sl in tab ==> 0 <= Index(tab, unk, sl) < nNew
    ensures Matching(tab, unk, BucketSlots(tab, b, BUCKET_SIZE), RecordEntries(b, rec, |rec|, nNew))
  {
    var t := BucketSlots(tab, b, BUCKET_SIZE);
    BucketSlotsAre(tab, b, BUCKET_SIZE);
    forall i | 0 <= i < |rec|
      ensures 0 <= rec[i] < nNew && t[i].bucket == b
    {
      assert t[i] in t;
    }
    RecordAll(b, rec, |rec|, nNew);
  }

  lemma {:induction false} EntriesMatch(tab: map<Slot, int>, unk: map<int, int>, buckets: seq<seq<int>>, n: nat,
      nNew: int)
    requires n <= |buckets|
    requires forall b :: 0 <= b < n ==> BucketRecord(tab, unk, BucketSlots(tab, b, BUCKET_SIZE), buckets[b])
    requires forall sl :: sl in tab ==> 0 <= Index(tab, unk, sl) < nNew
    ensures Matching(tab, unk, AllSlots(tab, n), BucketEntries(buckets, n, nNew))
  {
    hide Matching, BucketRecord, Index;
    if n == 0 {
      MatchingNone(tab, unk);
    } else {
      EntriesMatch(tab, unk, buckets, n - 1, nNew);
      BucketMatch(tab, unk, n - 1, buckets[n - 1], nNew);
      MatchingJoin(tab, unk, AllSlots(tab, n - 1), BucketEntries(buckets, n - 1, nNew),
                   BucketSlots(tab, n - 1, BUCKET_SIZE), RecordEntries(n - 1, buckets[n - 1], |buckets[n - 1]|, nNew));
    }
  }

  lemma MatchingNone(tab: map<Slot, int>, unk: map<int, int>)
    ensures Matching(tab, unk, [], [])
  {
  }

  lemma {:induction false} SeqSetSize(s: seq<int>)
    ensures |set x | x in s| <= |s|
  {
    if s != [] {
      var n := |s| - 1;
      SeqSetSize(s[..n]);
      assert (set x | x in s) == (set x | x in s[..n]) + {s[n]};
    } else {
      assert (set x | x in s) == {};
    }
  }

  /** A table of `n` buckets has room for at most 64 `n` different ids. */
  lemma TableRoom(tab: map<Slot, int>, n: nat, ids: set<int>)
    requires forall sl :: sl in tab ==> sl.bucket < n && sl.pos < BUCKET_SIZE
    requires forall id :: id in ids ==> exists sl :: sl in tab && tab[sl] == id
    ensures |ids| <= n * BUCKET_SIZE
  {
    AllSlotsAre(tab, n);
    var s := AllSlots(tab, n);
    var vals := seq(|s|, i requires 0 <= i < |s| => if s[i] in tab then tab[s[i]] else 0);
    forall id | id in ids ensures id in (set x | x in vals) {
      var sl :| sl in tab && tab[sl] == id;
      assert sl in s;
      var i :| 0 <= i < |s| && s[i] == sl;
      assert vals[i] == id;
    }
    SeqSetSize(vals);
    SubsetSize(ids, set x | x in vals);
  }

  lemma RecordsDistinctSlots(e: Env, info: map<int, AddrInfo>, vvTried: map<Slot, int>, ts: seq<int>,
      trieds: seq<Persisted>)
    requires TriedOk(e, info, vvTried) && Ascending(ts) && (forall x :: x in ts ==> x in TriedIds(info))
    requires Records(info, ts, trieds)
    ensures DistinctSlots(e, trieds)
  {
    forall i, j | 0 <= i < j < |trieds| ensures TriedSlot(e, trieds[i].addr) != TriedSlot(e, trieds[j].addr) {
      var x, y := ts[i], ts[j];
      assert x in ts && y in ts && x < y;
      assert vvTried[TriedSlot(e, info[x].addr)] == x && vvTried[TriedSlot(e, info[y].addr)] == y;
    }
  }

  /** The new table with every id replaced by its index among the stored new entries. */
  function Renumbered(vvNew: map<Slot, int>, unk: map<int, int>): map<Slot, int> {
    map sl | sl in vvNew :: Index(vvNew, unk, sl)
  }

  lemma IndexIs(e: Env, info: map<int, AddrInfo>, vvNew: map<Slot, int>, ns: seq<int>, unk: map<int, int>, sl: Slot)
    requires NewTabOk(e, info, vvNew) && Numbers(ns, unk) && (forall x :: x in NewIds(info) ==> x in ns) && sl in vvNew
    ensures var k := Index(vvNew, unk, sl); 0 <= k < |ns| && ns[k] == vvNew[sl]
  {
    var id := vvNew[sl];
    NewLive(e, info, vvNew, sl);
    assert id in NewIds(info) && id in ns;
    var i :| 0 <= i < |ns| && ns[i] == id;
    assert unk[ns[i]] == i;
  }

  lemma RenumberedSlots(e: Env, info: map<int, AddrInfo>, vvNew: map<Slot, int>, ns: seq<int>, unk: map<int, int>,
      k: int)
    requires NewTabOk(e, info, vvNew) && Numbers(ns, unk) && (forall x :: x in NewIds(info) ==> x in ns)
    ensures 0 <= k < |ns| ==> SlotsOf(Renumbered(vvNew, unk), k) == SlotsOf(vvNew, ns[k])
    ensures !(0 <= k < |ns|) ==> SlotsOf(Renumbered(vvNew, unk), k) == {}
  {
    var f := Renumbered(vvNew, unk);
    forall sl | sl in vvNew ensures f[sl] == k <==> 0 <= k < |ns| && vvNew[sl] == ns[k] {
      IndexIs(e, info, vvNew, ns, unk, sl);
      assert 0 <= k < |ns| ==> unk[ns[k]] == k;
    }
  }

  lemma EncodedAligned(e: Env, info: map<int, AddrInfo>, vvNew: map<Slot, int>, ns: seq<int>, unk: map<int, int>,
                       news: seq<Persisted>, buckets: seq<seq<int>>)
    requires NewTabOk(e, info, vvNew) && RefOk(info, vvNew, {}) && Numbers(ns, unk) && Records(info, ns, news)
    requires forall x :: x in NewIds(info) <==> x in ns
    requires |buckets| == NEW_BUCKET_COUNT
    requires forall b :: 0 <= b < NEW_BUCKET_COUNT ==>
      BucketRecord(vvNew, unk, BucketSlots(vvNew, b, BUCKET_SIZE), buckets[b])
    ensures Aligned(e, Loaded(news, |news|), BucketEntries(buckets, NEW_BUCKET_COUNT, |news|),
      AllSlots(vvNew, NEW_BUCKET_COUNT), Renumbered(vvNew, unk))
    ensures forall k :: 0 <= k < |news| ==> SlotsOf(Renumbered(vvNew, unk), k) != {}
  {
    hide BucketRecord, BucketEntries, AllSlots, BucketSlots, RefOk, NewTabOk, Numbers, Records, Index, SlotsOf,
         Loaded, Renumbered;
    var slots, f := AllSlots(vvNew, NEW_BUCKET_COUNT), Renumbered(vvNew, unk);
    var entries := BucketEntries(buckets, NEW_BUCKET_COUNT, |news|);
    AllSlotsAre(vvNew, NEW_BUCKET_COUNT);
    SlotsCover(e, info, vvNew, unk);
    forall sl | sl in vvNew ensures 0 <= Index(vvNew, unk, sl) < |news| {
      IndexIs(e, info, vvNew, ns, unk, sl);
      RecordsLength(info, ns, news);
    }
    EntriesMatch(vvNew, unk, buckets, NEW_BUCKET_COUNT, |news|);
    EncodedPlaces(e, info, vvNew, ns, unk, news, entries, slots);
    forall id ensures |SlotsOf(f, id)| <= NEW_BUCKETS_PER_ADDRESS {
      RenumberedSlots(e, info, vvNew, ns, unk, id);
      if 0 <= id < |ns| { NewRefs(info, vvNew, ns, id); }
    }
    forall k | 0 <= k < |news| ensures SlotsOf(f, k) != {} {
      RecordsLength(info, ns, news);
      RenumberedSlots(e, info, vvNew, ns, unk, k);
      NewRefs(info, vvNew, ns, k);
    }
  }

  lemma RecordsLength(info: map<int, AddrInfo>, ns: seq<int>, out: seq<Persisted>)
    requires Records(info, ns, out)
    ensures |ns| == |out|
  {}

  lemma SlotsCover(e: Env, info: map<int, AddrInfo>, vvNew: map<Slot, int>, unk: map<int, int>)
    requires NewTabOk(e, info, vvNew)
    ensures forall sl :: sl in vvNew ==> sl in AllSlots(vvNew, NEW_BUCKET_COUNT)
    ensures Renumbered(vvNew, unk).Keys == vvNew.Keys
  {
    AllSlotsAre(vvNew, NEW_BUCKET_COUNT);
  }

  lemma NewRefs(info: map<int, AddrInfo>, vvNew: map<Slot, int>, ns: seq<int>, k: nat)
    requires RefOk(info, vvNew, {}) && k < |ns| && (forall x :: x in NewIds(info) <==> x in ns)
    ensures 1 <= |SlotsOf(vvNew, ns[k])| <= NEW_BUCKETS_PER_ADDRESS && SlotsOf(vvNew, ns[k]) != {}
  {
    var id := ns[k];
    assert id in ns && id in NewIds(info);
  }

  lemma EncodedPlaces(e: Env, info: map<int, AddrInfo>, vvNew: map<Slot, int>, ns: seq<int>, unk: map<int, int>,
                      news: seq<Persisted>, entries: seq<Entry>, slots: seq<Slot>)
    requires NewTabOk(e, info, vvNew) && Numbers(ns, unk) && Records(info, ns, news)
    requires (forall x :: x in NewIds(info) ==> x in ns)
    requires |entries| == |slots| && (forall k :: 0 <= k < |slots| ==> slots[k] in vvNew)
    requires forall k :: 0 <= k < |slots| ==> entries[k] == Entry(slots[k].bucket, Index(vvNew, unk, slots[k]))
    ensures forall k :: 0 <= k < |slots| ==>
      && entries[k].index in Loaded(news, |news|)
      && slots[k] == NewSlot(e, Loaded(news, |news|)[entries[k].index].addr, entries[k].bucket)
      && Renumbered(vvNew, unk)[slots[k]] == entries[k].index
  {
    forall k | 0 <= k < |slots|
      ensures
        && entries[k].index in Loaded(news, |news|)
        && slots[k] == NewSlot(e, Loaded(news, |news|)[entries[k].index].addr, entries[k].bucket)
        && Renumbered(vvNew, unk)[slots[k]] == entries[k].index
    {
      IndexIs(e, info, vvNew, ns, unk, slots[k]);
      var i := entries[k].index;
      assert news[i].addr == info[ns[i]].addr;
    }
  }

  /** What a manager writes is never rejected, and is read back slot by slot. */
  lemma EncodedFaithful(e: Env, info: map<int, AddrInfo>, vvNew: map<Slot, int>, vvTried: map<Slot, int>,
                        sum: nat, st: Stream, ns: seq<int>, ts: seq<int>, unk: map<int, int>)
    requires NewTabOk(e, info, vvNew) && RefOk(info, vvNew, {}) && TriedOk(e, info, vvTried)
    requires Encodes(e, info, vvNew, sum, st, ns, ts, unk)
    requires |NewIds(info)| <= NEW_BUCKET_COUNT * BUCKET_SIZE && |TriedIds(info)| <= TRIED_BUCKET_COUNT * BUCKET_SIZE
    requires |ns| == |NewIds(info)| && |ts| == |TriedIds(info)|
    ensures Faithful(e, st, sum, AllSlots(vvNew, NEW_BUCKET_COUNT), Renumbered(vvNew, unk))
  {
    hide NewTabOk, RefOk, TriedOk, Numbers, Records, DistinctSlots, Aligned, BucketRecord, BucketEntries, AllSlots,
         BucketSlots,
      Renumbered, NewIds, TriedIds, Ascending, Loaded, SlotsOf;
    RecordsLength(info, ns, st.newEntries);
    RecordsLength(info, ts, st.triedEntries);
    assert st.newEntries[..st.nNew] == st.newEntries && st.triedEntries[..st.nTried] == st.triedEntries;
    assert Buckets(st) == NEW_BUCKET_COUNT;
    RecordsDistinctSlots(e, info, vvTried, ts, st.triedEntries);
    EncodedAligned(e, info, vvNew, ns, unk, st.newEntries, st.buckets);
  }

  /** How many entries the tables can hold. */
  lemma Capacity(m: AddrMan)
    requires m.Sound()
    ensures |NewIds(m.mapInfo)| <= NEW_BUCKET_COUNT * BUCKET_SIZE
    ensures |TriedIds(m.mapInfo)| <= TRIED_BUCKET_COUNT * BUCKET_SIZE
  {
    hide OrderOk, AddrOk, IdsOk, CollisionsOk;
    var info := m.mapInfo;
    forall id | id in NewIds(info) ensures exists sl :: sl in m.newTab && m.newTab[sl] == id {
      var b := HasSlot(m.env, info, m.newTab, id);
      var sl := NewSlot(m.env, info[id].addr, b);
      assert sl in m.newTab && m.newTab[sl] == id;
    }
    forall id | id in TriedIds(info) ensures exists sl :: sl in m.triedTab && m.triedTab[sl] == id {
      var sl := TriedSlot(m.env, info[id].addr);
      assert sl in m.triedTab && m.triedTab[sl] == id;
    }
    TableRoom(m.newTab, NEW_BUCKET_COUNT, NewIds(info));
    TableRoom(m.triedTab, TRIED_BUCKET_COUNT, TriedIds(info));
  }

  /** The second manager is the first with its ids renumbered: `all[k]` is the old id of entry `k`. Only the
      fields that are not stored may differ. */
  ghost predicate Copies(info: map<int, AddrInfo>, vvNew: map<Slot, int>, vvTried: map<Slot, int>,
                         info2: map<int, AddrInfo>, vvNew2: map<Slot, int>, vvTried2: map<Slot, int>, all: seq<int>)
  {
    && (forall id :: id in info <==> id in all)
    && (forall k :: k in info2 <==> 0 <= k < |all|)
    && (forall j, k :: 0 <= j < k < |all| ==> all[j] != all[k])
    && (forall k :: 0 <= k < |all| ==>
      SameStored(info[all[k]], info2[k]) && info2[k].nLastTry == 0 && info2[k].nLastCountAttempt == 0)
    && (forall k :: 0 <= k < |all| ==>
      info[all[k]].fInTried == info2[k].fInTried && info[all[k]].nRefCount == info2[k].nRefCount)
    && vvNew2.Keys == vvNew.Keys &&
      (forall sl :: sl in vvNew2 ==> 0 <= vvNew2[sl] < |all| && all[vvNew2[sl]] == vvNew[sl])
    && vvTried2.Keys == vvTried.Keys &&
      (forall sl :: sl in vvTried2 ==> 0 <= vvTried2[sl] < |all| && all[vvTried2[sl]] == vvTried[sl])
  }

  /** Entry `k` of `info2` stands for entry `id` of `info`, on the same table. */
  ghost predicate CopyOf(info: map<int, AddrInfo>, info2: map<int, AddrInfo>, id: int, k: int, inTried: bool) {
    && id in info && k in info2
    && SameStored(info2[k], info[id]) && info2[k].nLastTry == 0 && info2[k].nLastCountAttempt == 0
    && info2[k].fInTried == info[id].fInTried == inTried
  }

  ghost predicate Copied(info: map<int, AddrInfo>, info2: map<int, AddrInfo>, ids: seq<int>, from: int, inTried: bool) {
    forall k :: 0 <= k < |ids| ==> CopyOf(info, info2, ids[k], from + k, inTried)
  }

  lemma NewCopied(info: map<int, AddrInfo>, info2: map<int, AddrInfo>, ns: seq<int>, news: seq<Persisted>,
      trieds: seq<Persisted>, acc: seq<int>)
    requires AccBelow(acc, |trieds|) && RecountOnly(LoadedAll(news, trieds, acc), info2)
    requires Records(info, ns, news) && (forall x :: x in ns <==> x in NewIds(info))
    ensures Copied(info, info2, ns, 0, false)
  {
    forall k | 0 <= k < |ns| ensures CopyOf(info, info2, ns[k], 0 + k, false) {
      var id, base := ns[k], LoadedAll(news, trieds, acc);
      assert id in ns && k in base;
      assert info2[k] == base[k].(nRefCount := info2[k].nRefCount);
    }
  }

  lemma TriedCopied(info: map<int, AddrInfo>, info2: map<int, AddrInfo>, ts: seq<int>, news: seq<Persisted>,
      trieds: seq<Persisted>, acc: seq<int>)
    requires AccBelow(acc, |trieds|) && CountsUp(acc, |trieds|) && RecountOnly(LoadedAll(news, trieds, acc), info2)
    requires Records(info, ts, trieds) && (forall x :: x in ts <==> x in TriedIds(info))
    ensures Copied(info, info2, ts, |news|, true)
  {
    forall k | 0 <= k < |ts| ensures CopyOf(info, info2, ts[k], |news| + k, true) {
      var id, base := ts[k], LoadedAll(news, trieds, acc);
      assert id in ts && |news| + k in base && acc[k] == k;
      assert info2[|news| + k] == base[|news| + k].(nRefCount := info2[|news| + k].nRefCount);
    }
  }

  lemma TriedTablesMatch(e: Env, info: map<int, AddrInfo>, info2: map<int, AddrInfo>, vvTried: map<Slot, int>,
      vvTried2: map<Slot, int>,
                         ns: seq<int>, ts: seq<int>)
    requires TriedOk(e, info, vvTried) && TriedOk(e, info2, vvTried2)
    requires Copied(info, info2, ns, 0, false) && Copied(info, info2, ts, |ns|, true)
    requires (forall x :: x in ts <==> x in TriedIds(info)) && (forall k :: k in info2 <==> 0 <= k < |ns| + |ts|)
    ensures vvTried2.Keys == vvTried.Keys
    ensures forall sl :: sl in vvTried2 ==> 0 <= vvTried2[sl] < |ns| + |ts| && (ns + ts)[vvTried2[sl]] == vvTried[sl]
  {
    forall k | 0 <= k < |ns| ensures k in info2 && !info2[k].fInTried {
      assert CopyOf(info, info2, ns[k], 0 + k, false);
    }
    forall sl | sl in vvTried2
      ensures sl in vvTried && |ns| <= vvTried2[sl] < |ns| + |ts| && ts[vvTried2[sl] - |ns|] == vvTried[sl]
    {
      TriedLive(e, info2, vvTried2, sl);
      var k := vvTried2[sl];
      var id := ts[k - |ns|];
      assert CopyOf(info, info2, id, k, true);
      assert info[id].fInTried && TriedSlot(e, info[id].addr) == sl;
    }
    forall sl | sl in vvTried ensures sl in vvTried2 {
      TriedLive(e, info, vvTried, sl);
      var id := vvTried[sl];
      assert id in TriedIds(info) && id in ts;
      var k :| 0 <= k < |ts| && ts[k] == id;
      assert CopyOf(info, info2, ts[k], |ns| + k, true);
      assert TriedSlot(e, info2[|ns| + k].addr) == sl;
    }
  }

  lemma RefsMatch(e: Env, info: map<int, AddrInfo>, info2: map<int, AddrInfo>, vvNew: map<Slot, int>, ns: seq<int>,
      ts: seq<int>, unk: map<int, int>)
    requires NewTabOk(e, info, vvNew) && Numbers(ns, unk) && (forall x :: x in ns <==> x in NewIds(info))
    requires RefOk(info, vvNew, {}) && RefOk(info2, Renumbered(vvNew, unk), {})
    requires Copied(info, info2, ns, 0, false) && Copied(info, info2, ts, |ns|, true)
    ensures forall k :: 0 <= k < |ns| ==> SameRefs(info, info2, ns[k], k)
    ensures forall k :: 0 <= k < |ts| ==> SameRefs(info, info2, ts[k], |ns| + k)
  {
    hide Renumbered, NewTabOk, Numbers, SlotsOf;
    forall k | 0 <= k < |ns| ensures SameRefs(info, info2, ns[k], k) {
      RenumberedSlots(e, info, vvNew, ns, unk, k);
      assert CopyOf(info, info2, ns[k], 0 + k, false);
    }
    forall k | 0 <= k < |ts| ensures SameRefs(info, info2, ts[k], |ns| + k) {
      assert CopyOf(info, info2, ts[k], |ns| + k, true);
    }
  }

  ghost predicate SameRefs(info: map<int, AddrInfo>, info2: map<int, AddrInfo>, id: int, k: int) {
    id in info && k in info2 && info2[k].nRefCount == info[id].nRefCount
  }

  lemma CopiesHold(e: Env, info: map<int, AddrInfo>, vvNew: map<Slot, int>, vvTried: map<Slot, int>,
      info2: map<int, AddrInfo>,
                   vvTried2: map<Slot, int>, ns: seq<int>, ts: seq<int>, unk: map<int, int>)
    requires NewTabOk(e, info, vvNew) && RefOk(info, vvNew, {}) && TriedOk(e, info, vvTried)
    requires RefOk(info2, Renumbered(vvNew, unk), {}) && TriedOk(e, info2, vvTried2)
    requires Numbers(ns, unk) && Ascending(ns) && Ascending(ts)
    requires (forall x :: x in ns <==> x in NewIds(info)) && (forall x :: x in ts <==> x in TriedIds(info))
    requires Copied(info, info2, ns, 0, false) && Copied(info, info2, ts, |ns|, true)
    requires (forall k :: k in info2 <==> 0 <= k < |ns| + |ts|)
    ensures Copies(info, vvNew, vvTried, info2, Renumbered(vvNew, unk), vvTried2, ns + ts)
  {
    hide RefOk, TriedOk, Numbers, Renumbered, SlotsOf, NewTabOk;
    var all := ns + ts;
    TriedTablesMatch(e, info, info2, vvTried, vvTried2, ns, ts);
    RefsMatch(e, info, info2, vvNew, ns, ts, unk);
    NewTablesMatch(e, info, vvNew, ns, unk);
    forall k | 0 <= k < |all|
      ensures all[k] in info && k in info2 && SameStored(info[all[k]], info2[k])
      ensures info2[k].nLastTry == 0 && info2[k].nLastCountAttempt == 0
      ensures info[all[k]].fInTried == info2[k].fInTried && info[all[k]].nRefCount == info2[k].nRefCount
    {
      if k < |ns| {
        assert CopyOf(info, info2, ns[k], 0 + k, false) && SameRefs(info, info2, ns[k], k);
      } else {
        var j := k - |ns|;
        assert CopyOf(info, info2, ts[j], |ns| + j, true) && SameRefs(info, info2, ts[j], |ns| + j);
      }
    }
    hide SameStored, Copied;
    forall j, k | 0 <= j < k < |all| ensures all[j] != all[k] {
      if j < |ns| <= k {
        assert ns[j] in ns && ts[k - |ns|] in ts;
      }
    }
  }

  lemma NewTablesMatch(e: Env, info: map<int, AddrInfo>, vvNew: map<Slot, int>, ns: seq<int>, unk: map<int, int>)
    requires NewTabOk(e, info, vvNew) && Numbers(ns, unk) && (forall x :: x in ns <==> x in NewIds(info))
    ensures var f := Renumbered(vvNew, unk);
      f.Keys == vvNew.Keys && forall sl :: sl in f ==> 0 <= f[sl] < |ns| && ns[f[sl]] == vvNew[sl]
  {
    forall sl | sl in vvNew ensures var k := Index(vvNew, unk, sl); 0 <= k < |ns| && ns[k] == vvNew[sl] {
      IndexIs(e, info, vvNew, ns, unk, sl);
    }
  }

  lemma WrittenFaithful(m: AddrMan, st: Stream, sum: nat, ns: seq<int>, ts: seq<int>, unk: map<int, int>)
    requires m.Sound() && Encodes(m.env, m.mapInfo, m.newTab, sum, st, ns, ts, unk)
    requires st.nNew == m.nNew && st.nTried == m.nTried
    ensures Faithful(m.env, st, sum, AllSlots(m.newTab, NEW_BUCKET_COUNT), Renumbered(m.newTab, unk))
    ensures st.newEntries[..st.nNew] == st.newEntries && st.triedEntries[..st.nTried] == st.triedEntries
    ensures !Rejected(st) && st.key == m.env.key
  {
    Capacity(m);
    Counters(m);
    hide OrderOk, AddrOk, NewTabOk, RefOk, TriedOk, IdsOk, CollisionsOk, Mirrors, Numbers, Records, DistinctSlots,
         Aligned, BucketRecord,
      BucketEntries, AllSlots, BucketSlots, Renumbered, NewIds, TriedIds, Ascending, Loaded, SlotsOf;
    EncodedFaithful(m.env, m.mapInfo, m.newTab, m.triedTab, sum, st, ns, ts, unk);
    RecordsLength(m.mapInfo, ns, st.newEntries);
    RecordsLength(m.mapInfo, ts, st.triedEntries);
  }

  lemma ReadBack(m: AddrMan, m2: AddrMan, st: Stream, sum: nat, ns: seq<int>, ts: seq<int>, unk: map<int, int>,
      acc: seq<int>)
    requires m.Sound() && Framed(m2) && m2.env == m.env && Encodes(m.env, m.mapInfo, m.newTab, sum, st, ns, ts, unk)
    requires AccBelow(acc, |st.triedEntries|) && CountsUp(acc, |st.triedEntries|)
    requires m2.newTab == Renumbered(m.newTab, unk)
    requires RecountOnly(LoadedAll(st.newEntries, st.triedEntries, acc), m2.mapInfo)
    ensures Copies(m.mapInfo, m.newTab, m.triedTab, m2.mapInfo, m2.newTab, m2.triedTab, ns + ts)
  {
    hide OrderOk, AddrOk, NewTabOk, RefOk, TriedOk, IdsOk, CollisionsOk, Mirrors, Numbers, BucketRecord, BucketSlots,
         Renumbered, NewIds, TriedIds,
      Ascending, Copied, Copies;
    NewCopied(m.mapInfo, m2.mapInfo, ns, st.newEntries, st.triedEntries, acc);
    TriedCopied(m.mapInfo, m2.mapInfo, ts, st.newEntries, st.triedEntries, acc);
    CopiesHold(m.env, m.mapInfo, m.newTab, m.triedTab, m2.mapInfo, m2.triedTab, ns, ts, unk);
  }

  ghost predicate InOrder(info: map<int, AddrInfo>, x: int, y: int) {
    x in info && y in info && (info[x].fInTried == info[y].fInTried ==> x < y)
  }

  /** Within each table the renumbering keeps the order of ids. */
  ghost predicate OrderKept(info: map<int, AddrInfo>, all: seq<int>) {
    forall j, k :: 0 <= j < k < |all| ==> InOrder(info, all[j], all[k])
  }

  lemma KeepsOrder(info: map<int, AddrInfo>, ns: seq<int>, ts: seq<int>)
    requires Ascending(ns) && Ascending(ts) && (forall x :: x in ns <==> x in NewIds(info))
    requires (forall x :: x in ts <==> x in TriedIds(info))
    ensures OrderKept(info, ns + ts)
  {
    var all := ns + ts;
    forall j, k | 0 <= j < k < |all| ensures InOrder(info, all[j], all[k]) {
      var x, y := all[j], all[k];
      assert if j < |ns| then x in ns else x in ts;
      assert if k < |ns| then y in ns else y in ts;
    }
  }

  /** No two entries share an address, so what was read back is consistent exactly if every address is its own key. */
  lemma CopiedConsistent(e: Env, info: map<int, AddrInfo>, byAddr: map<Service, int>, vvNew: map<Slot, int>,
      vvTried: map<Slot, int>,
                         base: map<int, AddrInfo>, info2: map<int, AddrInfo>, vvNew2: map<Slot, int>,
                             vvTried2: map<Slot, int>, all: seq<int>)
    requires AddrOk(e, info, byAddr) && Copies(info, vvNew, vvTried, info2, vvNew2, vvTried2, all)
    requires RecountOnly(base, info2)
    ensures Consistent(e, base, info2) <==> forall id :: id in info ==> Norm(e, info[id].addr) == info[id].addr
  {
    forall k | 0 <= k < |all| ensures all[k] in info && k in base && k in info2 && info[all[k]].addr == base[k].addr {
      var id := all[k];
      assert id in all && id in info && k in info2;
      assert SameStored(info[id], info2[k]);
      assert info2[k] == base[k].(nRefCount := info2[k].nRefCount);
    }
    forall id | id in info
      ensures exists k :: 0 <= k < |all| && all[k] == id && k in base && base[k].addr == info[id].addr
    {
      assert id in all;
      var k :| 0 <= k < |all| && all[k] == id;
      assert k in base;
    }
    forall i, j | i in base && j in info2 && i != j ensures j in base && base[i].addr != base[j].addr {
      var x, y := all[i], all[j];
      assert byAddr[Norm(e, info[x].addr)] == x && byAddr[Norm(e, info[y].addr)] == y;
    }
  }

  /** Writing a manager and reading it back under the same AS map gives the same manager up to renumbering. It can
      find its entries again if and only if every address is its own key: under a rule that ignores ports, if every
      port is zero. */
  method RoundTrip(m: AddrMan, asmapHash: seq<bool> -> nat) returns (m2: AddrMan, ghost all: seq<int>)
    requires m.Sound()
    ensures Framed(m2) && m2.env == m.env && m2.triedCollisions == {}
    ensures m2.nNew == m.nNew && m2.nTried == m.nTried
    ensures Copies(m.mapInfo, m.newTab, m.triedTab, m2.mapInfo, m2.newTab, m2.triedTab, all)
    ensures OrderKept(m.mapInfo, all)
    ensures m2.Valid() <==> forall id :: id in m.mapInfo ==> Norm(m.env, m.mapInfo[id].addr) == m.mapInfo[id].addr
  {
    hide AddrMan.Sound, Faithful, AllSlots, Renumbered, Rejected, Copies, LoadedAll, RecountOnly, AccBelow, CountsUp,
         AddrOk,
      BucketRecord, BucketSlots, Records, Numbers, Ascending, NewIds, TriedIds, Framed, Norm, Consistent, Greedy,
          Filled, Fillable, Kept, Zero, BucketEntries;
    var st, ns, ts, unk := Serialize(m, asmapHash);
    all := ns + ts;
    ghost var sum := Checksum(m.env.asmap, asmapHash);
    WrittenFaithful(m, st, sum, ns, ts, unk);
    RecordsLength(m.mapInfo, ts, st.triedEntries);
    m2 := new AddrMan(m.env);
    SoundTables(m2);
    var ok, acc := Unserialize(m2, m.env.key, st, asmapHash, AllSlots(m.newTab, NEW_BUCKET_COUNT),
        Renumbered(m.newTab, unk));
    ReadBack(m, m2, st, sum, ns, ts, unk, acc);
    KeepsOrder(m.mapInfo, ns, ts);
    SoundIndex(m);
    CopiedConsistent(m.env, m.mapInfo, m.mapAddr, m.newTab, m.triedTab, EntriesRead(st, acc), m2.mapInfo, m2.newTab,
        m2.triedTab, all);
  }

  lemma SoundIndex(m: AddrMan)
    requires m.Sound()
    ensures AddrOk(m.env, m.mapInfo, m.mapAddr)
  {}

  /** Under a rule that ignores ports, an entry read back with a port is not found by its own address. */
  lemma LostKey(e: Env, i: AddrInfo)
    requires !e.ports && i.addr.port != 0
    ensures Filed(map[0 := i], map[i.addr := 0])
    ensures Norm(e, i.addr) !in map[i.addr := 0] && !AddrOk(e, map[0 := i], map[i.addr := 0])
  {
    assert 0 in map[0 := i];
  }
}
