/** What each building block of the address manager keeps. */
module AddrSteps {
  import opened Numbers
  import opened Wrappers
  import opened AddrModel

  /** Same entry up to its position in the random order. */
  predicate SameEntry(i: AddrInfo, j: AddrInfo) {
    i.(nRandomPos := j.nRandomPos) == j
  }

  ghost predicate SameEntries(m: map<int, AddrInfo>, n: map<int, AddrInfo>) {
    m.Keys == n.Keys && forall id :: id in m ==> SameEntry(m[id], n[id])
  }

  // Reordering touches no other clause.

  lemma ReorderAddr(e: Env, m: map<int, AddrInfo>, n: map<int, AddrInfo>, byAddr: map<Service, int>)
    requires AddrOk(e, m, byAddr) && SameEntries(m, n)
    ensures AddrOk(e, n, byAddr)
  {}

  lemma ReorderNewTab(e: Env, m: map<int, AddrInfo>, n: map<int, AddrInfo>, vvNew: map<Slot, int>)
    requires NewTabOk(e, m, vvNew) && SameEntries(m, n)
    ensures NewTabOk(e, n, vvNew)
  {
    forall sl | sl in vvNew
      ensures vvNew[sl] in n && !n[vvNew[sl]].fInTried && sl == NewSlot(e, n[vvNew[sl]].addr, sl.bucket)
    {
      var id := vvNew[sl];
      assert id in m && SameEntry(m[id], n[id]);
    }
  }

  lemma ReorderRef(m: map<int, AddrInfo>, n: map<int, AddrInfo>, vvNew: map<Slot, int>, l: set<int>)
    requires RefOk(m, vvNew, l) && SameEntries(m, n)
    ensures RefOk(n, vvNew, l)
  {}

  lemma ReorderTried(e: Env, m: map<int, AddrInfo>, n: map<int, AddrInfo>, vvTried: map<Slot, int>)
    requires TriedOk(e, m, vvTried) && SameEntries(m, n)
    ensures TriedOk(e, n, vvTried)
  {
    forall sl | sl in vvTried
      ensures vvTried[sl] in n && n[vvTried[sl]].fInTried && sl == TriedSlot(e, n[vvTried[sl]].addr)
    {
      var id := vvTried[sl];
      assert id in m && SameEntry(m[id], n[id]);
    }
  }

  lemma ReorderIds(m: map<int, AddrInfo>, n: map<int, AddrInfo>)
    requires SameEntries(m, n)
    ensures NewIds(m) == NewIds(n) && TriedIds(m) == TriedIds(n)
  {
    forall id | id in m ensures m[id].fInTried == n[id].fInTried {
      assert SameEntry(m[id], n[id]);
    }
  }

  function Swapped(m: map<int, AddrInfo>, id1: int, p1: int, id2: int, p2: int): map<int, AddrInfo>
    requires id1 in m && id2 in m
  {
    m[id1 := m[id1].(nRandomPos := p2)][id2 := m[id2].(nRandomPos := p1)]
  }

  lemma SwapOrder(m: map<int, AddrInfo>, order: seq<int>, i: nat, j: nat)
    requires OrderOk(m, order) && i < |order| && j < |order| && i != j
    ensures var n := Swapped(m, order[i], i, order[j], j);
      SameEntries(m, n) && OrderOk(n, order[i := order[j]][j := order[i]])
  {
    var id1, id2 := order[i], order[j];
    var n := Swapped(m, id1, i, id2, j);
    var out := order[i := id2][j := id1];
    assert id1 != id2;
    forall id | id in n
      ensures 0 <= n[id].nRandomPos < |out| && out[n[id].nRandomPos] == id
    {
      assert id in m;
    }
    forall k | 0 <= k < |out|
      ensures out[k] in n && n[out[k]].nRandomPos == k
    {
      assert order[k] in m;
    }
  }

  // Deleting an entry that is on no table.

  lemma RemoveOrder(m: map<int, AddrInfo>, order: seq<int>, id: int)
    requires OrderOk(m, order) && id in m && order != [] && order[|order| - 1] == id
    ensures OrderOk(m - {id}, order[..|order| - 1])
  {
    var n, shorter := m - {id}, order[..|order| - 1];
    forall k | k in n
      ensures 0 <= n[k].nRandomPos < |shorter| && shorter[n[k].nRandomPos] == k
    {
      assert k in m;
    }
    forall i | 0 <= i < |shorter|
      ensures shorter[i] in n && n[shorter[i]].nRandomPos == i
    {
      assert order[i] in m;
    }
  }

  lemma RemoveAddr(e: Env, m: map<int, AddrInfo>, byAddr: map<Service, int>, id: int)
    requires AddrOk(e, m, byAddr) && id in m
    ensures AddrOk(e, m - {id}, byAddr - {Norm(e, m[id].addr)})
  {}

  lemma RemoveNewTab(e: Env, m: map<int, AddrInfo>, vvNew: map<Slot, int>, id: int)
    requires NewTabOk(e, m, vvNew) && SlotsOf(vvNew, id) == {}
    ensures NewTabOk(e, m - {id}, vvNew)
  {
    forall sl | sl in vvNew ensures vvNew[sl] != id {
      assert vvNew[sl] == id ==> sl in SlotsOf(vvNew, id);
    }
  }

  lemma RemoveRef(m: map<int, AddrInfo>, vvNew: map<Slot, int>, l: set<int>, id: int)
    requires RefOk(m, vvNew, l) && id in l
    ensures RefOk(m - {id}, vvNew, l - {id})
    ensures SlotsOf(vvNew, id) == {}
  {
    assert |SlotsOf(vvNew, id)| == 0;
  }

  lemma RemoveTried(e: Env, m: map<int, AddrInfo>, vvTried: map<Slot, int>, id: int)
    requires TriedOk(e, m, vvTried) && id in m && !m[id].fInTried
    ensures TriedOk(e, m - {id}, vvTried)
  {
    forall sl | sl in vvTried ensures vvTried[sl] in m - {id} {
      var k := vvTried[sl];
      assert k in m && m[k].fInTried;
    }
  }

  lemma RemoveIds(m: map<int, AddrInfo>, id: int)
    requires id in m && !m[id].fInTried
    ensures NewIds(m - {id}) == NewIds(m) - {id} && TriedIds(m - {id}) == TriedIds(m)
  {}

  lemma RemoveSame(m: map<int, AddrInfo>, m1: map<int, AddrInfo>, id: int)
    requires SameEntries(m, m1) && id in m && !m[id].fInTried
    ensures SameEntries(m - {id}, m1 - {id}) && id in m1 && !m1[id].fInTried
    ensures NewIds(m1 - {id}) == NewIds(m) - {id} && TriedIds(m1 - {id}) == TriedIds(m)
  {
    ReorderIds(m, m1);
    assert SameEntry(m[id], m1[id]);
    RemoveIds(m1, id);
  }

  lemma DeleteFrame(e: Env, idCount: int, m: map<int, AddrInfo>, m1: map<int, AddrInfo>, order: seq<int>,
      order1: seq<int>,
                    vvNew: map<Slot, int>, vvTried: map<Slot, int>, l: set<int>, id: int)
    requires FrameOk(e, idCount, m, order, vvNew, vvTried, l) && id in l && id in m && id in m1
    requires SameEntries(m, m1) && OrderOk(m1, order1) && order1 != [] && order1[|order1| - 1] == id
    ensures FrameOk(e, idCount, m1 - {id}, order1[..|order1| - 1], vvNew, vvTried, l - {id})
  {
    ReorderNewTab(e, m, m1, vvNew);
    ReorderRef(m, m1, vvNew, l);
    ReorderTried(e, m, m1, vvTried);
    ReorderIds(m, m1);
    RemoveOrder(m1, order1, id);
    RemoveRef(m1, vvNew, l, id);
    RemoveNewTab(e, m1, vvNew, id);
    RemoveTried(e, m1, vvTried, id);
    RemoveIds(m1, id);
  }

  /** What taking the last entry of the order out leaves behind. */
  lemma DeleteRest(m: map<int, AddrInfo>, m1: map<int, AddrInfo>, order1: seq<int>, id: int)
    requires SameEntries(m, m1) && id in m && !m[id].fInTried
    requires OrderOk(m1, order1) && order1 != [] && order1[|order1| - 1] == id
    ensures id in m1 && OrderOk(m1 - {id}, order1[..|order1| - 1]) && SameEntries(m - {id}, m1 - {id})
    ensures NewIds(m1 - {id}) == NewIds(m) - {id} && TriedIds(m1 - {id}) == TriedIds(m)
  {
    RemoveSame(m, m1, id);
    RemoveOrder(m1, order1, id);
  }

  lemma PlaceInOrder(m: map<int, AddrInfo>, order: seq<int>, id: int)
    requires OrderOk(m, order) && id in m
    ensures 0 <= m[id].nRandomPos < |order|
  {}

  /** The entry whose place is `pos` comes last once the two places are exchanged. */
  lemma SwappedLast(m: map<int, AddrInfo>, order: seq<int>, id: int, order1: seq<int>)
    requires OrderOk(m, order) && id in m
    requires
      var pos, last := m[id].nRandomPos, |order| - 1;
      order1 == order[pos := order[last]][last := order[pos]]
    ensures order1 != [] && order1[|order1| - 1] == id
  {}

  lemma DeleteAddr(e: Env, m: map<int, AddrInfo>, m1: map<int, AddrInfo>, byAddr: map<Service, int>, id: int)
    requires AddrOk(e, m, byAddr) && SameEntries(m, m1) && id in m
    ensures AddrOk(e, m1 - {id}, byAddr - {Norm(e, m[id].addr)})
  {
    ReorderAddr(e, m, m1, byAddr);
    RemoveAddr(e, m1, byAddr, id);
    assert SameEntry(m[id], m1[id]);
  }

  // Changing an entry in place.

  ghost predicate Retouched(m: map<int, AddrInfo>, n: map<int, AddrInfo>, id: int) {
    && id in m && id in n && n == m[id := n[id]]
    && n[id].addr == m[id].addr && n[id].nRandomPos == m[id].nRandomPos
  }

  lemma RetouchOrder(m: map<int, AddrInfo>, n: map<int, AddrInfo>, id: int, order: seq<int>)
    requires OrderOk(m, order) && Retouched(m, n, id)
    ensures OrderOk(n, order)
  {}

  lemma RetouchAddr(e: Env, m: map<int, AddrInfo>, n: map<int, AddrInfo>, id: int, byAddr: map<Service, int>)
    requires AddrOk(e, m, byAddr) && Retouched(m, n, id)
    ensures AddrOk(e, n, byAddr)
  {}

  lemma RetouchNewTab(e: Env, m: map<int, AddrInfo>, n: map<int, AddrInfo>, id: int, vvNew: map<Slot, int>)
    requires NewTabOk(e, m, vvNew) && Retouched(m, n, id)
    requires n[id].fInTried ==> m[id].fInTried || SlotsOf(vvNew, id) == {}
    ensures NewTabOk(e, n, vvNew)
  {
    forall sl | sl in vvNew
      ensures vvNew[sl] in n && !n[vvNew[sl]].fInTried && sl == NewSlot(e, n[vvNew[sl]].addr, sl.bucket)
    {
      var k := vvNew[sl];
      assert k in m && !m[k].fInTried;
      assert k == id ==> sl in SlotsOf(vvNew, id);
    }
  }

  lemma RetouchTried(e: Env, m: map<int, AddrInfo>, n: map<int, AddrInfo>, id: int, vvTried: map<Slot, int>)
    requires TriedOk(e, m, vvTried) && Retouched(m, n, id) && m[id].fInTried == n[id].fInTried
    ensures TriedOk(e, n, vvTried)
  {
    forall sl | sl in vvTried
      ensures vvTried[sl] in n && n[vvTried[sl]].fInTried && sl == TriedSlot(e, n[vvTried[sl]].addr)
    {
      var k := vvTried[sl];
      assert k in m && m[k].fInTried;
    }
  }

  lemma RetouchIds(m: map<int, AddrInfo>, n: map<int, AddrInfo>, id: int)
    requires Retouched(m, n, id) && m[id].fInTried == n[id].fInTried
    ensures NewIds(n) == NewIds(m) && TriedIds(n) == TriedIds(m)
  {}

  lemma RetouchRef(m: map<int, AddrInfo>, n: map<int, AddrInfo>, id: int, vvNew: map<Slot, int>, l: set<int>)
    requires RefOk(m, vvNew, l) && Retouched(m, n, id)
    requires m[id].fInTried == n[id].fInTried && m[id].nRefCount == n[id].nRefCount
    ensures RefOk(n, vvNew, l)
  {}

  // One slot of the new table emptied or filled.

  lemma EmptySlotRef(m: map<int, AddrInfo>, n: map<int, AddrInfo>, vvNew: map<Slot, int>, l: set<int>, sl: Slot)
    requires RefOk(m, vvNew, l) && sl in vvNew && Retouched(m, n, vvNew[sl])
    requires !m[vvNew[sl]].fInTried && !n[vvNew[sl]].fInTried
    requires n[vvNew[sl]].nRefCount == m[vvNew[sl]].nRefCount - 1
    ensures vvNew[sl] !in l && n[vvNew[sl]].nRefCount >= 0
    ensures RefOk(n, vvNew - {sl}, if n[vvNew[sl]].nRefCount == 0 then l + {vvNew[sl]} else l)
  {
    var id := vvNew[sl];
    assert sl in SlotsOf(vvNew, id);
    assert SlotsOf(vvNew - {sl}, id) == SlotsOf(vvNew, id) - {sl};
    forall k | k != id ensures SlotsOf(vvNew - {sl}, k) == SlotsOf(vvNew, k) {}
  }

  lemma FillSlotRef(m: map<int, AddrInfo>, n: map<int, AddrInfo>, vvNew: map<Slot, int>, l: set<int>, sl: Slot, id: int)
    requires RefOk(m, vvNew, l) && sl !in vvNew && Retouched(m, n, id)
    requires !m[id].fInTried && !n[id].fInTried
    requires n[id].nRefCount == m[id].nRefCount + 1 <= NEW_BUCKETS_PER_ADDRESS
    ensures RefOk(n, vvNew[sl := id], l - {id})
  {
    assert SlotsOf(vvNew[sl := id], id) == SlotsOf(vvNew, id) + {sl};
    forall k | k != id ensures SlotsOf(vvNew[sl := id], k) == SlotsOf(vvNew, k) {}
  }

  lemma FillSlotTab(e: Env, m: map<int, AddrInfo>, vvNew: map<Slot, int>, sl: Slot, id: int)
    requires NewTabOk(e, m, vvNew) && id in m && !m[id].fInTried
    requires sl.bucket < NEW_BUCKET_COUNT && sl == NewSlot(e, m[id].addr, sl.bucket)
    ensures NewTabOk(e, m, vvNew[sl := id])
  {}

  lemma EmptySlotTab(e: Env, m: map<int, AddrInfo>, vvNew: map<Slot, int>, gone: set<Slot>)
    requires NewTabOk(e, m, vvNew)
    ensures NewTabOk(e, m, vvNew - gone)
  {}

  /** From `m` to `n`, the entry in slot `sl` lost one reference, and is gone if that was its last. */
  ghost predicate Cleared(m: map<int, AddrInfo>, n: map<int, AddrInfo>, vvNew: map<Slot, int>, sl: Slot) {
    if sl in vvNew && vvNew[sl] in m then
      var v := vvNew[sl];
      if m[v].nRefCount == 1 then SameEntries(m - {v}, n)
      else n == m[v := m[v].(nRefCount := m[v].nRefCount - 1)]
    else n == m
  }

  /** `n` differs from `m` in the reference count of `id` only. */
  ghost predicate Recounted(m: map<int, AddrInfo>, n: map<int, AddrInfo>, id: int, count: int) {
    id in m && n == m[id := m[id].(nRefCount := count)]
  }

  lemma DropRefKeeps(e: Env, idCount: int, m: map<int, AddrInfo>, n: map<int, AddrInfo>, byAddr: map<Service, int>,
                     order: seq<int>, vvNew: map<Slot, int>, vvTried: map<Slot, int>, l: set<int>, sl: Slot)
    requires CoreOk(e, idCount, m, byAddr, order, vvNew, vvTried, l) && sl in vvNew && vvNew[sl] in m
    requires Recounted(m, n, vvNew[sl], m[vvNew[sl]].nRefCount - 1)
    ensures CoreOk(e, idCount, n, byAddr, order, vvNew - {sl}, vvTried,
                   if n[vvNew[sl]].nRefCount == 0 then l + {vvNew[sl]} else l)
    ensures vvNew[sl] !in l && m[vvNew[sl]].nRefCount > 0 && !m[vvNew[sl]].fInTried
    ensures NewIds(n) == NewIds(m) && TriedIds(n) == TriedIds(m)
  {
    var id := vvNew[sl];
    RetouchOrder(m, n, id, order);
    RetouchAddr(e, m, n, id, byAddr);
    RetouchNewTab(e, m, n, id, vvNew);
    EmptySlotTab(e, n, vvNew, {sl});
    EmptySlotRef(m, n, vvNew, l, sl);
    RetouchTried(e, m, n, id, vvTried);
    RetouchIds(m, n, id);
  }

  lemma PlaceFrame(e: Env, idCount: int, m: map<int, AddrInfo>, n: map<int, AddrInfo>, order: seq<int>,
                   vvNew: map<Slot, int>, vvTried: map<Slot, int>, l: set<int>, sl: Slot, id: int)
    requires FrameOk(e, idCount, m, order, vvNew, vvTried, l) && sl !in vvNew && id in m
    requires Recounted(m, n, id, m[id].nRefCount + 1)
    requires !m[id].fInTried && m[id].nRefCount < NEW_BUCKETS_PER_ADDRESS
    requires sl.bucket < NEW_BUCKET_COUNT && sl == NewSlot(e, m[id].addr, sl.bucket)
    ensures FrameOk(e, idCount, n, order, vvNew[sl := id], vvTried, l - {id})
    ensures NewIds(n) == NewIds(m) && TriedIds(n) == TriedIds(m)
  {
    RetouchOrder(m, n, id, order);
    RetouchNewTab(e, m, n, id, vvNew);
    FillSlotTab(e, n, vvNew, sl, id);
    FillSlotRef(m, n, vvNew, l, sl, id);
    RetouchTried(e, m, n, id, vvTried);
    RetouchIds(m, n, id);
  }

  lemma PlaceKeeps(e: Env, idCount: int, m: map<int, AddrInfo>, n: map<int, AddrInfo>, byAddr: map<Service, int>,
                   order: seq<int>, vvNew: map<Slot, int>, vvTried: map<Slot, int>, l: set<int>, sl: Slot, id: int)
    requires CoreOk(e, idCount, m, byAddr, order, vvNew, vvTried, l) && sl !in vvNew && id in m
    requires Recounted(m, n, id, m[id].nRefCount + 1)
    requires !m[id].fInTried && m[id].nRefCount < NEW_BUCKETS_PER_ADDRESS
    requires sl.bucket < NEW_BUCKET_COUNT && sl == NewSlot(e, m[id].addr, sl.bucket)
    ensures CoreOk(e, idCount, n, byAddr, order, vvNew[sl := id], vvTried, l - {id})
    ensures NewIds(n) == NewIds(m) && TriedIds(n) == TriedIds(m)
  {
    PlaceFrame(e, idCount, m, n, order, vvNew, vvTried, l, sl, id);
    RetouchAddr(e, m, n, id, byAddr);
  }

  // Adding an entry.

  lemma CreateFrame(e: Env, idCount: int, m: map<int, AddrInfo>, order: seq<int>,
                    vvNew: map<Slot, int>, vvTried: map<Slot, int>, l: set<int>, i: AddrInfo)
    requires FrameOk(e, idCount, m, order, vvNew, vvTried, l)
    requires !i.fInTried && i.nRefCount == 0 && i.nRandomPos == |order|
    ensures FrameOk(e, idCount + 1, m[idCount := i], order + [idCount], vvNew, vvTried, l + {idCount})
    ensures idCount !in m && NewIds(m[idCount := i]) == NewIds(m) + {idCount}
    ensures TriedIds(m[idCount := i]) == TriedIds(m)
  {
    CreateOrder(idCount, m, order, i);
    CreateRef(idCount, m, vvNew, l, i, e);
    CreateTried(e, idCount, m, vvTried, i);
  }

  lemma CreateKeeps(e: Env, idCount: int, m: map<int, AddrInfo>, byAddr: map<Service, int>, order: seq<int>,
                    vvNew: map<Slot, int>, vvTried: map<Slot, int>, l: set<int>, i: AddrInfo)
    requires CoreOk(e, idCount, m, byAddr, order, vvNew, vvTried, l) && Norm(e, i.addr) !in byAddr
    requires !i.fInTried && i.nRefCount == 0 && i.nRandomPos == |order|
    ensures CoreOk(e, idCount + 1, m[idCount := i], byAddr[Norm(e, i.addr) := idCount], order + [idCount], vvNew,
      vvTried, l + {idCount})
    ensures idCount !in m && NewIds(m[idCount := i]) == NewIds(m) + {idCount}
    ensures TriedIds(m[idCount := i]) == TriedIds(m)
  {
    CreateFrame(e, idCount, m, order, vvNew, vvTried, l, i);
  }

  lemma CreateOrder(id: int, m: map<int, AddrInfo>, order: seq<int>, i: AddrInfo)
    requires id !in m && OrderOk(m, order) && i.nRandomPos == |order|
    ensures OrderOk(m[id := i], order + [id])
  {}

  lemma CreateRef(id: int, m: map<int, AddrInfo>, vvNew: map<Slot, int>, l: set<int>, i: AddrInfo, e: Env)
    requires id !in m && RefOk(m, vvNew, l) && NewTabOk(e, m, vvNew) && !i.fInTried && i.nRefCount == 0
    ensures RefOk(m[id := i], vvNew, l + {id}) && NewTabOk(e, m[id := i], vvNew)
  {
    assert SlotsOf(vvNew, id) == {};
  }

  lemma CreateTried(e: Env, id: int, m: map<int, AddrInfo>, vvTried: map<Slot, int>, i: AddrInfo)
    requires id !in m && TriedOk(e, m, vvTried) && !i.fInTried
    ensures TriedOk(e, m[id := i], vvTried)
  {
    forall sl | sl in vvTried
      ensures vvTried[sl] in m && vvTried[sl] != id && m[vvTried[sl]].fInTried
      ensures sl == TriedSlot(e, m[vvTried[sl]].addr)
    {
      var k := vvTried[sl];
      assert k in m;
    }
  }

  // Moving an entry between the tables.

  lemma DetachKeeps(e: Env, idCount: int, m: map<int, AddrInfo>, n: map<int, AddrInfo>, byAddr: map<Service, int>,
                    order: seq<int>, vvNew: map<Slot, int>, vvTried: map<Slot, int>, id: int)
    requires CoreOk(e, idCount, m, byAddr, order, vvNew, vvTried, {}) && Recounted(m, n, id, 0) && !m[id].fInTried
    ensures CoreOk(e, idCount, n, byAddr, order, vvNew - SlotsOf(vvNew, id), vvTried, {id})
    ensures NewIds(n) == NewIds(m) && TriedIds(n) == TriedIds(m)
  {
    var mine := SlotsOf(vvNew, id);
    RetouchOrder(m, n, id, order);
    RetouchAddr(e, m, n, id, byAddr);
    RetouchNewTab(e, m, n, id, vvNew);
    EmptySlotTab(e, n, vvNew, mine);
    RetouchTried(e, m, n, id, vvTried);
    RetouchIds(m, n, id);
    DetachRef(m, n, vvNew, id);
  }

  lemma DetachRef(m: map<int, AddrInfo>, n: map<int, AddrInfo>, vvNew: map<Slot, int>, id: int)
    requires RefOk(m, vvNew, {}) && Recounted(m, n, id, 0) && !m[id].fInTried
    ensures RefOk(n, vvNew - SlotsOf(vvNew, id), {id})
  {
    assert SlotsOf(vvNew - SlotsOf(vvNew, id), id) == {};
    forall k | k != id ensures SlotsOf(vvNew - SlotsOf(vvNew, id), k) == SlotsOf(vvNew, k) {}
  }

  /** `n` differs from `m` in the table flag of `id` only. */
  ghost predicate Reflagged(m: map<int, AddrInfo>, n: map<int, AddrInfo>, id: int, inTried: bool) {
    id in m && n == m[id := m[id].(fInTried := inTried)]
  }

  lemma UntryKeeps(e: Env, idCount: int, m: map<int, AddrInfo>, n: map<int, AddrInfo>, byAddr: map<Service, int>,
                   order: seq<int>, vvNew: map<Slot, int>, vvTried: map<Slot, int>, l: set<int>, sl: Slot)
    requires CoreOk(e, idCount, m, byAddr, order, vvNew, vvTried, l) && sl in vvTried
    requires vvTried[sl] in m && Reflagged(m, n, vvTried[sl], false)
    ensures CoreOk(e, idCount, n, byAddr, order, vvNew, vvTried - {sl}, l + {vvTried[sl]})
    ensures m[vvTried[sl]].fInTried && m[vvTried[sl]].nRefCount == 0 && vvTried[sl] !in l
    ensures NewIds(n) == NewIds(m) + {vvTried[sl]} && TriedIds(n) == TriedIds(m) - {vvTried[sl]}
    ensures vvTried[sl] !in NewIds(m) && vvTried[sl] in TriedIds(m)
  {
    var id := vvTried[sl];
    RetouchOrder(m, n, id, order);
    RetouchAddr(e, m, n, id, byAddr);
    RetouchNewTab(e, m, n, id, vvNew);
    UntryRef(e, m, n, vvNew, l, id);
    UntryTried(e, m, n, vvTried, sl);
  }

  lemma UntryRef(e: Env, m: map<int, AddrInfo>, n: map<int, AddrInfo>, vvNew: map<Slot, int>, l: set<int>, id: int)
    requires RefOk(m, vvNew, l) && NewTabOk(e, m, vvNew) && Reflagged(m, n, id, false) && m[id].fInTried
    ensures RefOk(n, vvNew, l + {id})
  {
    assert SlotsOf(vvNew, id) == {};
  }

  lemma UntryTried(e: Env, m: map<int, AddrInfo>, n: map<int, AddrInfo>, vvTried: map<Slot, int>, sl: Slot)
    requires TriedOk(e, m, vvTried) && sl in vvTried && Reflagged(m, n, vvTried[sl], false)
    ensures TriedOk(e, n, vvTried - {sl})
  {
    var id := vvTried[sl];
    var rest := vvTried - {sl};
    forall q | q in rest
      ensures rest[q] in n && n[rest[q]].fInTried && q == TriedSlot(e, n[rest[q]].addr)
    {
      var k := vvTried[q];
      assert k in m && q == TriedSlot(e, m[k].addr);
      assert k != id;
    }
    forall k | k in n && n[k].fInTried
      ensures TriedSlot(e, n[k].addr) in rest && rest[TriedSlot(e, n[k].addr)] == k
    {
      assert k in m && k != id;
      assert vvTried[TriedSlot(e, m[k].addr)] == k;
    }
  }

  lemma TryFrame(e: Env, idCount: int, m: map<int, AddrInfo>, n: map<int, AddrInfo>, order: seq<int>,
                 vvNew: map<Slot, int>, vvTried: map<Slot, int>, l: set<int>, id: int)
    requires FrameOk(e, idCount, m, order, vvNew, vvTried, l) && id in l
    requires Reflagged(m, n, id, true) && TriedSlot(e, m[id].addr) !in vvTried
    ensures FrameOk(e, idCount, n, order, vvNew, vvTried[TriedSlot(e, m[id].addr) := id], l - {id})
    ensures NewIds(n) == NewIds(m) - {id} && TriedIds(n) == TriedIds(m) + {id}
    ensures id in NewIds(m) && id !in TriedIds(m)
  {
    RetouchOrder(m, n, id, order);
    assert SlotsOf(vvNew, id) == {} by { RemoveRef(m, vvNew, l, id); }
    RetouchNewTab(e, m, n, id, vvNew);
    TryTried(e, m, n, vvTried, id);
  }

  lemma TryKeeps(e: Env, idCount: int, m: map<int, AddrInfo>, n: map<int, AddrInfo>, byAddr: map<Service, int>,
                 order: seq<int>, vvNew: map<Slot, int>, vvTried: map<Slot, int>, l: set<int>, id: int)
    requires CoreOk(e, idCount, m, byAddr, order, vvNew, vvTried, l) && id in l
    requires Reflagged(m, n, id, true) && TriedSlot(e, m[id].addr) !in vvTried
    ensures CoreOk(e, idCount, n, byAddr, order, vvNew, vvTried[TriedSlot(e, m[id].addr) := id], l - {id})
    ensures NewIds(n) == NewIds(m) - {id} && TriedIds(n) == TriedIds(m) + {id}
    ensures id in NewIds(m) && id !in TriedIds(m)
  {
    TryFrame(e, idCount, m, n, order, vvNew, vvTried, l, id);
    RetouchAddr(e, m, n, id, byAddr);
  }

  lemma TryTried(e: Env, m: map<int, AddrInfo>, n: map<int, AddrInfo>, vvTried: map<Slot, int>, id: int)
    requires TriedOk(e, m, vvTried) && id in m && !m[id].fInTried
    requires Reflagged(m, n, id, true) && TriedSlot(e, m[id].addr) !in vvTried
    ensures TriedOk(e, n, vvTried[TriedSlot(e, m[id].addr) := id])
  {
    var sl := TriedSlot(e, m[id].addr);
    var more := vvTried[sl := id];
    forall q | q in more
      ensures more[q] in n && n[more[q]].fInTried && q == TriedSlot(e, n[more[q]].addr)
    {
      if q != sl {
        var k := vvTried[q];
        assert k in m && m[k].fInTried;
      }
    }
    forall k | k in n && n[k].fInTried
      ensures TriedSlot(e, n[k].addr) in more && more[TriedSlot(e, n[k].addr)] == k
    {
      if k != id {
        assert vvTried[TriedSlot(e, m[k].addr)] == k;
      }
    }
  }

  lemma RefCountIs(m: map<int, AddrInfo>, vvNew: map<Slot, int>, l: set<int>, id: int)
    requires RefOk(m, vvNew, l) && id in m && !m[id].fInTried
    ensures m[id].nRefCount == |SlotsOf(vvNew, id)|
  {}

  /** The slots of `id` in buckets below `n`. */
  function SlotsBelow(vvNew: map<Slot, int>, id: int, n: int): set<Slot> {
    set sl | sl in vvNew && vvNew[sl] == id && sl.bucket < n
  }

  /** The new table once `id` has left its buckets below `n`. */
  function LeftBelow(vvNew: map<Slot, int>, id: int, n: int): map<Slot, int> {
    vvNew - SlotsBelow(vvNew, id, n)
  }

  lemma SlotsBelowNext(e: Env, m: map<int, AddrInfo>, vvNew: map<Slot, int>, id: int, n: nat, sl: Slot)
    requires NewTabOk(e, m, vvNew) && id in m && sl == NewSlot(e, m[id].addr, n)
    ensures sl !in SlotsBelow(vvNew, id, n)
    ensures SlotsBelow(vvNew, id, n + 1)
         == SlotsBelow(vvNew, id, n) + (if sl in vvNew && vvNew[sl] == id then {sl} else {})
  {
    forall q | q in vvNew && vvNew[q] == id && q.bucket == n ensures q == sl {}
  }

  lemma SlotsBelowStep(e: Env, m: map<int, AddrInfo>, vvNew: map<Slot, int>, id: int, n: nat, sl: Slot)
    requires NewTabOk(e, m, vvNew) && id in m && sl == NewSlot(e, m[id].addr, n)
    ensures var left := LeftBelow(vvNew, id, n);
      if sl in left && left[sl] == id then
        && LeftBelow(vvNew, id, n + 1) == left - {sl}
        && |SlotsBelow(vvNew, id, n + 1)| == |SlotsBelow(vvNew, id, n)| + 1
      else
        && LeftBelow(vvNew, id, n + 1) == left
        && |SlotsBelow(vvNew, id, n + 1)| == |SlotsBelow(vvNew, id, n)|
  {
    hide NewTabOk, SlotsBelow;
    SlotsBelowNext(e, m, vvNew, id, n, sl);
    if sl in vvNew && vvNew[sl] == id {
      assert LeftBelow(vvNew, id, n + 1) == LeftBelow(vvNew, id, n) - {sl};
    } else {
      assert SlotsBelow(vvNew, id, n + 1) == SlotsBelow(vvNew, id, n);
    }
  }

  lemma SlotsBelowAll(e: Env, m: map<int, AddrInfo>, vvNew: map<Slot, int>, id: int)
    requires NewTabOk(e, m, vvNew)
    ensures SlotsBelow(vvNew, id, NEW_BUCKET_COUNT) == SlotsOf(vvNew, id)
    ensures LeftBelow(vvNew, id, 0) == vvNew && |SlotsBelow(vvNew, id, 0)| == 0
  {
    assert SlotsBelow(vvNew, id, 0) == {};
  }

  lemma LeftAll(e: Env, m: map<int, AddrInfo>, vvNew: map<Slot, int>, id: int)
    requires NewTabOk(e, m, vvNew)
    ensures LeftBelow(vvNew, id, NEW_BUCKET_COUNT) == vvNew - SlotsOf(vvNew, id)
  {
    SlotsBelowAll(e, m, vvNew, id);
  }

  /** Clearing a slot touches no other entry. */
  lemma ClearedOther(m: map<int, AddrInfo>, n: map<int, AddrInfo>, vvNew: map<Slot, int>, sl: Slot, k: int)
    requires Cleared(m, n, vvNew, sl) && k in m && (sl in vvNew ==> vvNew[sl] != k)
    ensures k in n && SameEntry(m[k], n[k])
  {
    if sl in vvNew && vvNew[sl] in m && m[vvNew[sl]].nRefCount == 1 {
      var v := vvNew[sl];
      assert k in m - {v};
      assert SameEntry((m - {v})[k], n[k]);
    }
  }

  /** From `m`, `vvNew` to `n`: entry `v` left the tried table for the new-table slot of its own
      source, and whatever held that slot lost a reference. */
  ghost predicate Evicted(e: Env, m: map<int, AddrInfo>, n: map<int, AddrInfo>, vvNew: map<Slot, int>, v: int) {
    && v in m && v in n && n[v].nRefCount == 1
    && Cleared(m[v := m[v].(fInTried := false)], n[v := n[v].(nRefCount := 0)], vvNew, HomeSlot(e, m[v]))
  }

  function HomeSlot(e: Env, i: AddrInfo): Slot {
    NewSlot(e, i.addr, NewBucket(e, i.addr, i.source))
  }

  lemma TriedLive(e: Env, m: map<int, AddrInfo>, vvTried: map<Slot, int>, sl: Slot)
    requires TriedOk(e, m, vvTried) && sl in vvTried
    ensures vvTried[sl] in m && m[vvTried[sl]].fInTried && sl == TriedSlot(e, m[vvTried[sl]].addr)
  {}

  lemma TriedHolder(e: Env, m: map<int, AddrInfo>, vvTried: map<Slot, int>, sl: Slot)
    requires TriedOk(e, m, vvTried)
    ensures sl in vvTried ==> vvTried[sl] in m && m[vvTried[sl]].fInTried
  {
    if sl in vvTried {
      TriedLive(e, m, vvTried, sl);
    }
  }

  lemma LooseAway(m: map<int, AddrInfo>, vvNew: map<Slot, int>, l: set<int>, id: int)
    requires RefOk(m, vvNew, l) && id in l
    ensures forall sl :: sl in vvNew ==> vvNew[sl] != id
    ensures id in m && m[id].nRefCount == 0 && !m[id].fInTried
  {
    RemoveRef(m, vvNew, l, id);
    forall sl | sl in vvNew ensures vvNew[sl] != id {
      assert vvNew[sl] == id ==> sl in SlotsOf(vvNew, id);
    }
  }

  /** From `m`, `vvNew`, `vvTried` to `n`, `vvNew1`, `vvTried1`: entry `id` left all new buckets for its
      tried slot, and the entry it displaced there, if any, went back to the new table. */
  ghost predicate Promoted(e: Env, m: map<int, AddrInfo>, n: map<int, AddrInfo>, vvNew: map<Slot, int>,
      vvNew1: map<Slot, int>,
                           vvTried: map<Slot, int>, vvTried1: map<Slot, int>, id: int)
  {
    && id in m && id in n && n[id].fInTried
    && var sl := TriedSlot(e, m[id].addr);
    && var m1 := m[id := m[id].(nRefCount := 0)];
    && var n1 := n[id := n[id].(fInTried := false)];
    && var left := vvNew - SlotsOf(vvNew, id);
    && vvTried1 == vvTried[sl := id]
    && if sl in vvTried && vvTried[sl] in m1 then
         vvTried[sl] != id && vvNew1 == left[HomeSlot(e, m1[vvTried[sl]]) := vvTried[sl]] &&
             Evicted(e, m1, n1, left, vvTried[sl])
       else
         vvNew1 == left && n1 == m1
  }

  /** An eviction leaves a loose entry as it is. */
  lemma EvictedOther(e: Env, m: map<int, AddrInfo>, n: map<int, AddrInfo>, vvNew: map<Slot, int>, v: int, l: set<int>,
      k: int)
    requires Evicted(e, m, n, vvNew, v) && RefOk(m, vvNew, l) && k in l && k != v
    ensures k in n && SameEntry(m[k], n[k])
  {
    LooseAway(m, vvNew, l, k);
    ClearedOther(m[v := m[v].(fInTried := false)], n[v := n[v].(nRefCount := 0)], vvNew, HomeSlot(e, m[v]), k);
  }

  // What the collision set needs: entries keep their addresses, tried slots stay filled.

  ghost predicate AddrsKept(m: map<int, AddrInfo>, n: map<int, AddrInfo>) {
    forall k :: k in n ==> k in m && n[k].addr == m[k].addr
  }

  lemma ClearedAddrs(m: map<int, AddrInfo>, n: map<int, AddrInfo>, vvNew: map<Slot, int>, sl: Slot)
    requires Cleared(m, n, vvNew, sl)
    ensures AddrsKept(m, n)
  {
    if sl in vvNew && vvNew[sl] in m && m[vvNew[sl]].nRefCount == 1 {
      var v := vvNew[sl];
      forall k | k in n ensures k in m && n[k].addr == m[k].addr {
        assert k in m - {v};
        assert SameEntry((m - {v})[k], n[k]);
      }
    }
  }

  lemma PromotedAddrs(e: Env, m: map<int, AddrInfo>, n: map<int, AddrInfo>, vvNew: map<Slot, int>,
      vvNew1: map<Slot, int>,
                      vvTried: map<Slot, int>, vvTried1: map<Slot, int>, id: int)
    requires Promoted(e, m, n, vvNew, vvNew1, vvTried, vvTried1, id)
    ensures AddrsKept(m, n)
    ensures vvTried.Keys <= vvTried1.Keys
  {
    var sl := TriedSlot(e, m[id].addr);
    var m1 := m[id := m[id].(nRefCount := 0)];
    var n1 := n[id := n[id].(fInTried := false)];
    hide TriedSlot, HomeSlot, SlotsOf, SameEntries;
    if sl in vvTried && vvTried[sl] in m1 {
      var v := vvTried[sl];
      var m2 := m1[v := m1[v].(fInTried := false)];
      var n2 := n1[v := n1[v].(nRefCount := 0)];
      ClearedAddrs(m2, n2, vvNew - SlotsOf(vvNew, id), HomeSlot(e, m1[v]));
      forall k | k in n ensures k in m && n[k].addr == m[k].addr {
        assert k in n2 && k in m2;
      }
    } else {
      forall k | k in n ensures k in m && n[k].addr == m[k].addr {
        assert k in n1 && k in m1;
      }
    }
  }

  lemma CollisionsStable(e: Env, m: map<int, AddrInfo>, n: map<int, AddrInfo>, vvTried: map<Slot, int>,
      vvTried1: map<Slot, int>,
                         idCount: int, c: set<int>, c1: set<int>)
    requires CollisionsOk(e, m, vvTried, idCount, c) && AddrsKept(m, n) && vvTried.Keys <= vvTried1.Keys && c1 <= c
    ensures CollisionsOk(e, n, vvTried1, idCount, c1)
  {
    forall id | id in c1 && id in n ensures TriedSlot(e, n[id].addr) in vvTried1 {
      assert TriedSlot(e, m[id].addr) in vvTried;
    }
  }

  lemma HasSlot(e: Env, m: map<int, AddrInfo>, vvNew: map<Slot, int>, id: int) returns (bucket: nat)
    requires RefOk(m, vvNew, {}) && NewTabOk(e, m, vvNew) && id in m && !m[id].fInTried
    ensures bucket < NEW_BUCKET_COUNT
    ensures var sl := NewSlot(e, m[id].addr, bucket); sl in vvNew && vvNew[sl] == id
  {
    assert SlotsOf(vvNew, id) != {};
    var sl :| sl in SlotsOf(vvNew, id);
    bucket := sl.bucket;
  }

  /** An entry touched in fields the tables do not depend on. */
  ghost predicate Touched(m: map<int, AddrInfo>, n: map<int, AddrInfo>, id: int) {
    && Retouched(m, n, id)
    && m[id].fInTried == n[id].fInTried && m[id].nRefCount == n[id].nRefCount
  }

  lemma TouchKeeps(e: Env, idCount: int, m: map<int, AddrInfo>, n: map<int, AddrInfo>, byAddr: map<Service, int>,
                   order: seq<int>, vvNew: map<Slot, int>, vvTried: map<Slot, int>, l: set<int>, id: int)
    requires CoreOk(e, idCount, m, byAddr, order, vvNew, vvTried, l) && Touched(m, n, id)
    ensures CoreOk(e, idCount, n, byAddr, order, vvNew, vvTried, l)
    ensures NewIds(n) == NewIds(m) && TriedIds(n) == TriedIds(m) && AddrsKept(m, n)
  {
    RetouchOrder(m, n, id, order);
    RetouchAddr(e, m, n, id, byAddr);
    RetouchNewTab(e, m, n, id, vvNew);
    RetouchRef(m, n, id, vvNew, l);
    RetouchTried(e, m, n, id, vvTried);
    RetouchIds(m, n, id);
  }

  // Time stamps.

  lemma ClearedTimes(m: map<int, AddrInfo>, n: map<int, AddrInfo>, vvNew: map<Slot, int>, sl: Slot)
    requires Cleared(m, n, vvNew, sl) && TimesOk(m)
    ensures TimesOk(n)
  {
    if sl in vvNew && vvNew[sl] in m && m[vvNew[sl]].nRefCount == 1 {
      var v := vvNew[sl];
      forall k | k in n ensures k in m && SameEntry(m[k], n[k]) {
        assert k in m - {v};
        assert SameEntry((m - {v})[k], n[k]);
      }
    }
  }

  lemma PromotedTimes(e: Env, m: map<int, AddrInfo>, n: map<int, AddrInfo>, vvNew: map<Slot, int>,
      vvNew1: map<Slot, int>,
                      vvTried: map<Slot, int>, vvTried1: map<Slot, int>, id: int)
    requires Promoted(e, m, n, vvNew, vvNew1, vvTried, vvTried1, id) && TimesOk(m)
    requires m[id].nLastSuccess != 0 && !m[id].fInTried && RefOk(m, vvNew, {})
    ensures TimesOk(n)
  {
    var sl := TriedSlot(e, m[id].addr);
    var m1 := m[id := m[id].(nRefCount := 0)];
    var n1 := n[id := n[id].(fInTried := false)];
    var left := vvNew - SlotsOf(vvNew, id);
    assert TimesOk(m1);
    DetachRef(m, m1, vvNew, id);
    hide TriedSlot, HomeSlot, SlotsOf, SameEntries, RefOk;
    if sl in vvTried && vvTried[sl] in m1 {
      var v := vvTried[sl];
      var m2 := m1[v := m1[v].(fInTried := false)];
      var n2 := n1[v := n1[v].(nRefCount := 0)];
      assert TimesOk(m2);
      ClearedTimes(m2, n2, left, HomeSlot(e, m1[v]));
      EvictedOther(e, m1, n1, left, v, {id}, id);
      forall k | k in n
        ensures n[k].nLastTry >= 0 && n[k].nLastSuccess >= 0 && (n[k].fInTried ==> n[k].nLastSuccess != 0)
      {
        assert k in n2;
      }
    } else {
      forall k | k in n
        ensures n[k].nLastTry >= 0 && n[k].nLastSuccess >= 0 && (n[k].fInTried ==> n[k].nLastSuccess != 0)
      {
        assert k in n1;
      }
    }
  }

  /** The effect of Good_ on the entry `id` that has exactly the reported address. */
  ghost predicate GoodStep(e: Env, m: map<int, AddrInfo>, n: map<int, AddrInfo>, vvNew: map<Slot, int>,
      vvNew1: map<Slot, int>,
                           vvTried: map<Slot, int>, vvTried1: map<Slot, int>, c: set<int>, c1: set<int>,
                           id: int, testBeforeEvict: bool, time: int)
  {
    && id in m
    && var m1 := m[id := m[id].(nLastSuccess := time, nLastTry := time, nAttempts := 0)];
    if m[id].fInTried then
      n == m1 && vvNew1 == vvNew && vvTried1 == vvTried && c1 == c
    else if testBeforeEvict && TriedSlot(e, m[id].addr) in vvTried then
      && n == m1 && vvNew1 == vvNew && vvTried1 == vvTried
      && c1 == if |c| < SET_TRIED_COLLISION_SIZE then c + {id} else c
    else
      Promoted(e, m1, n, vvNew, vvNew1, vvTried, vvTried1, id) && c1 == c
  }

  /** Good_ empties no tried slot, and when told to test first it evicts nothing. */
  lemma GoodKeepsTried(e: Env, m: map<int, AddrInfo>, n: map<int, AddrInfo>, vvNew: map<Slot, int>,
      vvNew1: map<Slot, int>,
                       vvTried: map<Slot, int>, vvTried1: map<Slot, int>, c: set<int>, c1: set<int>,
                       id: int, testBeforeEvict: bool, time: int)
    requires GoodStep(e, m, n, vvNew, vvNew1, vvTried, vvTried1, c, c1, id, testBeforeEvict, time)
    ensures vvTried.Keys <= vvTried1.Keys
    ensures testBeforeEvict ==> forall sl :: sl in vvTried ==> vvTried1[sl] == vvTried[sl]
  {
    hide HomeSlot, SlotsOf, Evicted;
  }

  lemma GoodTimes(e: Env, m: map<int, AddrInfo>, n: map<int, AddrInfo>, vvNew: map<Slot, int>, vvNew1: map<Slot, int>,
                  vvTried: map<Slot, int>, vvTried1: map<Slot, int>, c: set<int>, c1: set<int>,
                  id: int, testBeforeEvict: bool, time: int)
    requires GoodStep(e, m, n, vvNew, vvNew1, vvTried, vvTried1, c, c1, id, testBeforeEvict, time)
    requires TimesOk(m) && time > 0 && RefOk(m, vvNew, {})
    ensures TimesOk(n)
  {
    var m1 := m[id := m[id].(nLastSuccess := time, nLastTry := time, nAttempts := 0)];
    assert TimesOk(m1);
    RetouchRef(m, m1, id, vvNew, {});
    hide RefOk, Promoted, SlotsOf, TriedSlot;
    if !m[id].fInTried && !(testBeforeEvict && TriedSlot(e, m[id].addr) in vvTried) {
      PromotedTimes(e, m1, n, vvNew, vvNew1, vvTried, vvTried1, id);
    }
  }

  lemma AddrUnique(e: Env, m: map<int, AddrInfo>, byAddr: map<Service, int>, a: Service)
    requires AddrOk(e, m, byAddr)
    ensures forall id :: id in m && m[id].addr == a ==> Norm(e, a) in byAddr && byAddr[Norm(e, a)] == id
  {}

  // Adding.

  /** What slot `sl` holds: an id, or -1 when it is empty. */
  function Content(m: map<Slot, int>, sl: Slot): int {
    if sl in m then m[sl] else -1
  }

  function NewEntry(addr: Address, source: NetAddr, randomPos: int): AddrInfo {
    AddrInfo(addr.service, addr.nTime, addr.nServices, source, 0, 0, 0, 0, 0, false, randomPos)
  }

  /** The slot in which an announcement by `source` puts an entry. */
  function SourceSlot(e: Env, i: AddrInfo, source: NetAddr): Slot {
    NewSlot(e, i.addr, NewBucket(e, i.addr, source))
  }

  /** Whether the entry `id` takes slot `sl`. */
  predicate Takes(m: map<int, AddrInfo>, vvNew: map<Slot, int>, id: int, sl: Slot, now: int)
    requires id in m
  {
    sl !in vvNew || vvNew[sl] !in m || IsTerrible(m[vvNew[sl]], now) ||
        (m[vvNew[sl]].nRefCount > 1 && m[id].nRefCount == 0)
  }

  /** The effect of the second half of Add_: the entry already has the slot, or takes it, or is
      dropped when that leaves it without any slot, or stays as it was. */
  ghost predicate Bucketed(m: map<int, AddrInfo>, n: map<int, AddrInfo>, vvNew: map<Slot, int>, vvNew1: map<Slot, int>,
                           id: int, sl: Slot, now: int)
  {
    && id in m
    && if sl in vvNew && vvNew[sl] == id then
         n == m && vvNew1 == vvNew
       else if Takes(m, vvNew, id, sl, now) then
         && vvNew1 == vvNew[sl := id]
         && id in n && n[id].nRefCount == m[id].nRefCount + 1
         && Cleared(m, n[id := n[id].(nRefCount := m[id].nRefCount)], vvNew, sl)
       else
         && vvNew1 == vvNew
         && if m[id].nRefCount == 0 then SameEntries(m - {id}, n) else n == m
  }

  lemma LooseRef(m: map<int, AddrInfo>, vvNew: map<Slot, int>, l: set<int>, id: int)
    requires RefOk(m, vvNew, l) && id in m && !m[id].fInTried && l <= {id}
    ensures m[id].nRefCount >= 0
    ensures m[id].nRefCount == 0 <==> id in l
    ensures m[id].nRefCount != 0 ==> l == {}
    ensures l != {} ==> forall sl :: sl in vvNew ==> vvNew[sl] != id
  {
    if l != {} { LooseAway(m, vvNew, l, id); }
  }

  lemma NewLive(e: Env, m: map<int, AddrInfo>, vvNew: map<Slot, int>, sl: Slot)
    requires NewTabOk(e, m, vvNew) && sl in vvNew
    ensures vvNew[sl] in m && !m[vvNew[sl]].fInTried
  {}

  lemma RefRange(m: map<int, AddrInfo>, vvNew: map<Slot, int>, id: int)
    requires RefOk(m, vvNew, {}) && id in m
    ensures 0 <= m[id].nRefCount <= NEW_BUCKETS_PER_ADDRESS
  {}

  lemma FreshCount(m: map<int, AddrInfo>, id: int)
    requires id !in m
    ensures |NewIds(m) + {id}| == |NewIds(m)| + 1
  {}

  lemma InNewIds(m: map<int, AddrInfo>, id: int)
    requires id in m && !m[id].fInTried
    ensures id in NewIds(m)
  {}

  function TwoTo(n: int): nat {
    if n <= 0 then 1 else 2 * TwoTo(n - 1)
  }

  /** A known entry after another announcement of its address. */
  function Refreshed(i: AddrInfo, addr: Address, penalty: int, now: int): AddrInfo {
    var interval := if now - addr.nTime < 24 * 60 * 60 then 60 * 60 else 24 * 60 * 60;
    var time := if addr.nTime != 0 && (i.nTime == 0 || i.nTime < addr.nTime - interval - penalty)
                then Max(0, addr.nTime - penalty) else i.nTime;
    i.(nTime := time, nServices := i.nServices + addr.nServices)
  }

  /** Whether a known entry may get one more reference. */
  predicate MayMultiply(i: AddrInfo, addr: Address, draw: nat) {
    && addr.nTime != 0 && !(i.nTime != 0 && addr.nTime <= i.nTime)
    && !i.fInTried
    && i.nRefCount != NEW_BUCKETS_PER_ADDRESS
    && !(TwoTo(i.nRefCount) > 1 && draw % TwoTo(i.nRefCount) != 0)
  }

  function Penalty(addr: Address, source: NetAddr, penalty: int): int {
    if addr.service.ip == source then 0 else penalty
  }

  /** The effect of Add_ on a routable address that entry `id` already stands for. */
  ghost predicate AddedKnown(e: Env, m: map<int, AddrInfo>, n: map<int, AddrInfo>, vvNew: map<Slot, int>,
      vvNew1: map<Slot, int>,
                             id: int, addr: Address, source: NetAddr, penalty: int, now: int, draw: nat)
  {
    && id in m
    && var i := Refreshed(m[id], addr, Penalty(addr, source, penalty), now);
    if MayMultiply(i, addr, draw) then
      Bucketed(m[id := i], n, vvNew, vvNew1, id, SourceSlot(e, i, source), now)
    else
      n == m[id := i] && vvNew1 == vvNew
  }

  /** The effect of Add_ on a routable address no entry stands for; `id` is the next fresh id. */
  ghost predicate AddedFresh(e: Env, m: map<int, AddrInfo>, n: map<int, AddrInfo>, vvNew: map<Slot, int>,
      vvNew1: map<Slot, int>,
                             id: int, randomPos: int, addr: Address, source: NetAddr, penalty: int, now: int)
  {
    var i := NewEntry(addr.(nTime := Max(0, addr.nTime - Penalty(addr, source, penalty))), source, randomPos);
    Bucketed(m[id := i], n, vvNew, vvNew1, id, SourceSlot(e, i, source), now)
  }

  lemma BucketedAddrs(m: map<int, AddrInfo>, n: map<int, AddrInfo>, vvNew: map<Slot, int>, vvNew1: map<Slot, int>,
                      id: int, sl: Slot, now: int)
    requires Bucketed(m, n, vvNew, vvNew1, id, sl, now)
    ensures AddrsKept(m, n)
  {
    hide IsTerrible;
    if sl in vvNew && vvNew[sl] == id {
    } else if Takes(m, vvNew, id, sl, now) {
      ClearedAddrs(m, n[id := n[id].(nRefCount := m[id].nRefCount)], vvNew, sl);
      forall k | k in n ensures k in m && n[k].addr == m[k].addr {
        assert k in n[id := n[id].(nRefCount := m[id].nRefCount)];
      }
    } else if m[id].nRefCount == 0 {
      forall k | k in n ensures k in m && n[k].addr == m[k].addr {
        assert k in m - {id};
        assert SameEntry((m - {id})[k], n[k]);
      }
    }
  }

  lemma BucketedTimes(m: map<int, AddrInfo>, n: map<int, AddrInfo>, vvNew: map<Slot, int>, vvNew1: map<Slot, int>,
                      id: int, sl: Slot, now: int)
    requires Bucketed(m, n, vvNew, vvNew1, id, sl, now) && TimesOk(m)
    ensures TimesOk(n)
  {
    hide IsTerrible;
    if sl in vvNew && vvNew[sl] == id {
    } else if Takes(m, vvNew, id, sl, now) {
      ClearedTimes(m, n[id := n[id].(nRefCount := m[id].nRefCount)], vvNew, sl);
      forall k | k in n
        ensures n[k].nLastTry >= 0 && n[k].nLastSuccess >= 0 && (n[k].fInTried ==> n[k].nLastSuccess != 0)
      {
        assert k in n[id := n[id].(nRefCount := m[id].nRefCount)];
      }
    } else if m[id].nRefCount == 0 {
      forall k | k in n ensures k in m && SameEntry(m[k], n[k]) {
        assert k in m - {id};
        assert SameEntry((m - {id})[k], n[k]);
      }
    }
  }

  /** A new entry is not one of the remembered collisions. */
  lemma FreshCollided(e: Env, id: int, m: map<int, AddrInfo>, i: AddrInfo, n: map<int, AddrInfo>,
      vvNew: map<Slot, int>, vvNew1: map<Slot, int>,
                      vvTried: map<Slot, int>, c: set<int>, sl: Slot, now: int)
    requires CollisionsOk(e, m, vvTried, id, c) && Bucketed(m[id := i], n, vvNew, vvNew1, id, sl, now)
    ensures CollisionsOk(e, n, vvTried, id + 1, c)
  {
    BucketedAddrs(m[id := i], n, vvNew, vvNew1, id, sl, now);
    hide Bucketed;
    assert CollisionsOk(e, m[id := i], vvTried, id + 1, c);
    CollisionsStable(e, m[id := i], n, vvTried, vvTried, id + 1, c, c);
  }

  lemma NothingCore(e: Env)
    ensures CoreOk(e, 0, map[], map[], [], map[], map[], {}) && NewIds(map[]) == {} && TriedIds(map[]) == {}
  {}

  lemma NothingCollided(e: Env, c: set<int>)
    ensures CollisionsOk(e, map[], map[], 0, c) <==> c == {}
  {
    if c != {} {
      var id := PickOne(c);
    }
  }

  /** An entry after a connection attempt. */
  function Attempted(i: AddrInfo, countFailure: bool, time: int, lastGood: int): AddrInfo {
    var i1 := i.(nLastTry := time);
    if countFailure && i.nLastCountAttempt < lastGood
    then i1.(nLastCountAttempt := time, nAttempts := i.nAttempts + 1) else i1
  }

  // Picking addresses for a getaddr answer.

  lemma SameRefl(m: map<int, AddrInfo>)
    ensures SameEntries(m, m)
  {}

  lemma SameTrans(m: map<int, AddrInfo>, m1: map<int, AddrInfo>, m2: map<int, AddrInfo>)
    requires SameEntries(m, m1) && SameEntries(m1, m2)
    ensures SameEntries(m, m2)
  {
    forall id | id in m ensures SameEntry(m[id], m2[id]) {
      assert SameEntry(m[id], m1[id]) && SameEntry(m1[id], m2[id]);
    }
  }

  /** `ids` are the good entries among the first `n` of the random order, once each. */
  ghost predicate Picked(m: map<int, AddrInfo>, order: seq<int>, n: int, ids: seq<int>, now: int) {
    && 0 <= n <= |order|
    && (forall id :: id in ids ==> id in order[..n] && id in m && !IsTerrible(m[id], now))
    && (forall i :: 0 <= i < n ==> order[i] in m && (!IsTerrible(m[order[i]], now) ==> order[i] in ids))
    && (forall i, j :: 0 <= i < j < |ids| ==> ids[i] != ids[j])
  }

  function AsAddress(i: AddrInfo): Address {
    Address(i.addr, i.nTime, i.nServices)
  }

  /** `addrs` are the addresses of the entries `ids`. */
  ghost predicate AddrsOf(m: map<int, AddrInfo>, ids: seq<int>, addrs: seq<Address>) {
    |ids| == |addrs| && forall i :: 0 <= i < |ids| ==>
      && ids[i] in m && addrs[i].service == m[ids[i]].addr
      && addrs[i].nTime == m[ids[i]].nTime && addrs[i].nServices == m[ids[i]].nServices
  }

  lemma PickedNone(m: map<int, AddrInfo>, order: seq<int>, now: int)
    ensures Picked(m, order, 0, [], now) && AddrsOf(m, [], [])
  {}

  lemma PickedSwap(m: map<int, AddrInfo>, m1: map<int, AddrInfo>, order: seq<int>, order1: seq<int>, n: int,
                   ids: seq<int>, addrs: seq<Address>, now: int)
    requires Picked(m, order, n, ids, now) && AddrsOf(m, ids, addrs) && SameEntries(m, m1)
    requires |order| == |order1| && order[..n] == order1[..n]
    ensures Picked(m1, order1, n, ids, now) && AddrsOf(m1, ids, addrs)
  {
    forall id | id in ids ensures id in m1 && !IsTerrible(m1[id], now) && AsAddress(m1[id]) == AsAddress(m[id]) {
      assert SameEntry(m[id], m1[id]);
    }
    forall i | 0 <= i < n ensures order1[i] in m1 && (!IsTerrible(m1[order1[i]], now) ==> order1[i] in ids) {
      var id := order[i];
      assert order1[..n][i] == order[..n][i] == id;
      assert id in m && SameEntry(m[id], m1[id]);
    }
  }

  lemma PickedNext(m: map<int, AddrInfo>, order: seq<int>, n: int, ids: seq<int>, addrs: seq<Address>, now: int)
    requires Picked(m, order, n, ids, now) && AddrsOf(m, ids, addrs) && n < |order| && OrderOk(m, order)
    ensures order[n] in m
    ensures IsTerrible(m[order[n]], now) ==> Picked(m, order, n + 1, ids, now)
    ensures !IsTerrible(m[order[n]], now) ==> Picked(m, order, n + 1, ids + [order[n]], now)
    ensures !IsTerrible(m[order[n]], now) ==> AddrsOf(m, ids + [order[n]], addrs + [AsAddress(m[order[n]])])
  {
    assert order[..n + 1] == order[..n] + [order[n]];
    forall i | 0 <= i < n ensures order[i] != order[n] {
      assert m[order[i]].nRandomPos == i;
    }
    assert order[n] !in order[..n];
  }

  lemma PickedAll(m: map<int, AddrInfo>, order: seq<int>, n: int, ids: seq<int>, addrs: seq<Address>, now: int)
    requires Picked(m, order, n, ids, now) && AddrsOf(m, ids, addrs) && OrderOk(m, order)
    ensures |ids| == |addrs| && forall i, j :: 0 <= i < j < |ids| ==> ids[i] != ids[j]
    ensures forall id :: id in ids ==> id in m && !IsTerrible(m[id], now)
    ensures n == |order| ==> forall id :: id in m && !IsTerrible(m[id], now) ==> id in ids
  {
    if n == |order| {
      forall id | id in m && !IsTerrible(m[id], now) ensures id in ids {
        assert order[m[id].nRandomPos] == id;
      }
    }
  }

  lemma ReorderKeeps(e: Env, idCount: int, m: map<int, AddrInfo>, n: map<int, AddrInfo>, byAddr: map<Service, int>,
      order: seq<int>,
                     order1: seq<int>, vvNew: map<Slot, int>, vvTried: map<Slot, int>)
    requires CoreOk(e, idCount, m, byAddr, order, vvNew, vvTried, {})
    requires SameEntries(m, n) && OrderOk(n, order1)
    ensures CoreOk(e, idCount, n, byAddr, order1, vvNew, vvTried, {})
    ensures NewIds(n) == NewIds(m) && TriedIds(n) == TriedIds(m)
  {
    ReorderAddr(e, m, n, byAddr);
    ReorderNewTab(e, m, n, vvNew);
    ReorderRef(m, n, vvNew, {});
    ReorderTried(e, m, n, vvTried);
    ReorderIds(m, n);
  }

  lemma SameAddrs(m: map<int, AddrInfo>, n: map<int, AddrInfo>)
    requires SameEntries(m, n)
    ensures AddrsKept(m, n)
  {
    forall k | k in n ensures n[k].addr == m[k].addr {
      assert SameEntry(m[k], n[k]);
    }
  }

  // Resolving tried collisions.

  datatype Verdict = Drop | Keep | Replace

  /** What ResolveCollisions_ decides about a live entry `i` that competes for the tried slot held by `o`. */
  function Judge(e: Env, i: AddrInfo, o: AddrInfo, now: int): Verdict {
    if !e.h.valid(i.addr) then Drop
    else if now - o.nLastSuccess < REPLACEMENT_HOURS * 60 * 60 then Drop
    else if now - o.nLastTry < REPLACEMENT_HOURS * 60 * 60 then (if now - o.nLastTry > 60 then Replace else Keep)
    else if now - i.nLastSuccess > TEST_WINDOW then Replace
    else Keep
  }

  /** What a collision is resolved on: the entries and both tables. */
  datatype Shot = Shot(info: map<int, AddrInfo>, vvNew: map<Slot, int>, vvTried: map<Slot, int>)

  /** What one turn of ResolveCollisions_ does: the entry takes the slot it competes for, or nothing happens. */
  ghost predicate Turn(e: Env, s: Shot, t: Shot, id: int, now: int) {
    if id in s.info && e.h.valid(s.info[id].addr) && Wins(e, s, id, now) then
      GoodStep(e, s.info, t.info, s.vvNew, t.vvNew, s.vvTried, t.vvTried, {}, {}, id, false, now)
    else t == s
  }

  /** The slot is free, or its holder is to be replaced. */
  ghost predicate Wins(e: Env, s: Shot, id: int, now: int)
    requires id in s.info
  {
    var sl := TriedSlot(e, s.info[id].addr);
    sl in s.vvTried ==> s.vvTried[sl] in s.info && Judge(e, s.info[id], s.info[s.vvTried[sl]], now) == Replace
  }

  /** What becomes of the holder of the slot that the live collision `id` competes for, in seconds. One that connected
      within four hours stays, and so does one that was last tried within the last minute; of the others, one tried
      within four hours goes, and one not tried for longer goes once the competitor's own success is more than forty
      minutes old. Unless it goes, nothing changes at all. A slot that is free is taken. */
  ghost predicate Fate(e: Env, s: Shot, t: Shot, id: int, now: int)
    requires id in s.info
  {
    var sl := TriedSlot(e, s.info[id].addr);
    if sl !in s.vvTried then
      if e.h.valid(s.info[id].addr) then t.vvTried == s.vvTried[sl := id] else t == s
    else
      && s.vvTried[sl] in s.info && sl in t.vvTried
      && var i, o := s.info[id], s.info[s.vvTried[sl]];
      && (t.vvTried[sl] != s.vvTried[sl] <==>
            && id != s.vvTried[sl] && e.h.valid(i.addr) && now - o.nLastSuccess >= 14400
            && (60 < now - o.nLastTry < 14400 || (now - o.nLastTry >= 14400 && now - i.nLastSuccess > 2400)))
      && (t.vvTried[sl] != s.vvTried[sl] ==> t.vvTried == s.vvTried[sl := id] && id in t.info && t.info[id].fInTried)
      && (now - o.nLastSuccess < 14400 || now - o.nLastTry <= 60 ==> t == s)
  }

  /** The collision `id` stays exactly while the holder has neither connected nor had its chance. */
  ghost predicate Postponed(e: Env, s: Shot, id: int, now: int) {
    && id in s.info && e.h.valid(s.info[id].addr)
    && var sl := TriedSlot(e, s.info[id].addr);
    && sl in s.vvTried && s.vvTried[sl] in s.info
    && var i, o := s.info[id], s.info[s.vvTried[sl]];
    && now - o.nLastSuccess >= 14400
    && (now - o.nLastTry <= 60 || (now - o.nLastTry >= 14400 && now - i.nLastSuccess <= 2400))
  }

  lemma TurnFate(e: Env, s: Shot, t: Shot, id: int, now: int)
    requires TriedOk(e, s.info, s.vvTried) && Turn(e, s, t, id, now)
    ensures id in s.info ==> Fate(e, s, t, id, now)
  {
    if id in s.info {
      var sl := TriedSlot(e, s.info[id].addr);
      TriedHolder(e, s.info, s.vvTried, sl);
      if sl in s.vvTried && s.info[id].fInTried {
        assert s.vvTried[sl] == id;
      }
      hide TriedOk, Evicted, Cleared, TriedSlot;
    }
  }

  /** A whole resolution: one turn for each collision, in order, with what that means for the holders. */
  ghost predicate Resolution(e: Env, order: seq<int>, shots: seq<Shot>, now: int) {
    && |shots| == |order| + 1
    && (forall i :: 0 <= i < |order| ==> Turn(e, shots[i], shots[i + 1], order[i], now))
    && (forall i :: 0 <= i < |order| && order[i] in shots[i].info ==> Fate(e, shots[i], shots[i + 1], order[i], now))
  }

  lemma ResolutionNext(e: Env, order: seq<int>, i: nat, shots: seq<Shot>, t: Shot, now: int)
    requires i < |order| && Resolution(e, order[..i], shots, now) && Turn(e, shots[i], t, order[i], now)
    requires order[i] in shots[i].info ==> Fate(e, shots[i], t, order[i], now)
    ensures Resolution(e, order[..i + 1], shots + [t], now)
  {
    hide Turn, Fate;
    assert order[..i + 1] == order[..i] + [order[i]];
  }

  /** Of the collisions that have had their turn, exactly the postponed ones are left. */
  ghost predicate Remaining(e: Env, order: seq<int>, i: nat, shots: seq<Shot>, c: set<int>, now: int) {
    && i <= |order| && i < |shots|
    && (forall j :: 0 <= j < i ==> (order[j] in c <==> Postponed(e, shots[j], order[j], now)))
    && (forall j :: i <= j < |order| ==> order[j] in c)
  }

  lemma ResolutionNone(e: Env, order: seq<int>, shots: seq<Shot>, c: set<int>, now: int)
    requires |shots| == 1 && forall id :: id in order <==> id in c
    ensures Resolution(e, order[..0], shots, now) && Remaining(e, order, 0, shots, c, now)
  {
    forall j | 0 <= j < |order|
      ensures order[j] in c
    {
      var id := order[j];
      assert id in order;
    }
  }

  lemma RemainingHas(e: Env, order: seq<int>, i: nat, shots: seq<Shot>, c: set<int>, now: int)
    requires i < |order| && Remaining(e, order, i, shots, c, now)
    ensures order[i] in c
  {
  }

  lemma RemainingEnd(e: Env, order: seq<int>, shots: seq<Shot>, c: set<int>, now: int)
    requires Remaining(e, order, |order|, shots, c, now)
    ensures forall i :: 0 <= i < |order| ==> (order[i] in c <==> Postponed(e, shots[i], order[i], now))
  {
  }

  lemma RemainingNext(e: Env, order: seq<int>, i: nat, shots: seq<Shot>, t: Shot, c: set<int>, c1: set<int>, now: int)
    requires i < |order| && |shots| == i + 1 && Ascending(order) && Remaining(e, order, i, shots, c, now)
    requires c1 == if Postponed(e, shots[i], order[i], now) then c else c - {order[i]}
    ensures Remaining(e, order, i + 1, shots + [t], c1, now)
  {
    hide Postponed;
    assert forall j :: 0 <= j < |order| && j != i ==> order[j] != order[i];
  }

  /** A promotion that does not test first leaves the collisions alone, whatever they are. */
  lemma GoodAnyway(e: Env, m: map<int, AddrInfo>, n: map<int, AddrInfo>, vvNew: map<Slot, int>, vvNew1: map<Slot, int>,
                   vvTried: map<Slot, int>, vvTried1: map<Slot, int>, c: set<int>, c1: set<int>, id: int, time: int)
    requires GoodStep(e, m, n, vvNew, vvNew1, vvTried, vvTried1, c, c1, id, false, time)
    ensures c1 == c && GoodStep(e, m, n, vvNew, vvNew1, vvTried, vvTried1, {}, {}, id, false, time)
  {
    hide Promoted, TriedSlot;
  }

  ghost predicate Ascending(s: seq<int>) {
    forall i, j :: 0 <= i < j < |s| ==> s[i] < s[j]
  }

  lemma {:induction false} MinExists(s: set<int>) returns (x: int)
    requires s != {}
    ensures x in s && forall y :: y in s ==> x <= y
    decreases s
  {
    var x0 := PickOne(s);
    x := x0;
    if s - {x0} != {} {
      var y := MinExists(s - {x0});
      if y < x0 { x := y; }
      forall z | z in s ensures x <= z {
        assert z == x0 || z in s - {x0};
      }
    } else {
      forall z | z in s ensures x <= z {
        assert z == x0 || z in s - {x0};
      }
    }
  }

  /** The keys of an ordered map, in order. */
  method AscendingKeys(keys: set<int>) returns (s: seq<int>)
    ensures Ascending(s)
    ensures forall x :: x in s <==> x in keys
  {
    s := [];
    var rest := keys;
    while rest != {}
      invariant rest <= keys && Ascending(s)
      invariant forall x :: x in s <==> x in keys && x !in rest
      invariant forall x, y :: x in s && y in rest ==> x < y
      decreases |rest|
    {
      ghost var least := MinExists(rest);
      var x :| x in rest && forall y :: y in rest ==> x <= y;
      assert forall i :: 0 <= i < |s| ==> s[i] in s;
      s := s + [x];
      rest := rest - {x};
    }
  }

  lemma GoodAddrs(e: Env, m: map<int, AddrInfo>, n: map<int, AddrInfo>, vvNew: map<Slot, int>, vvNew1: map<Slot, int>,
                  vvTried: map<Slot, int>, vvTried1: map<Slot, int>, c: set<int>, c1: set<int>,
                  id: int, testBeforeEvict: bool, time: int)
    requires GoodStep(e, m, n, vvNew, vvNew1, vvTried, vvTried1, c, c1, id, testBeforeEvict, time)
    ensures AddrsKept(m, n)
  {
    hide Promoted, TriedSlot;
    var m1 := m[id := m[id].(nLastSuccess := time, nLastTry := time, nAttempts := 0)];
    if !m[id].fInTried && !(testBeforeEvict && TriedSlot(e, m[id].addr) in vvTried) {
      PromotedAddrs(e, m1, n, vvNew, vvNew1, vvTried, vvTried1, id);
    }
    forall k | k in n ensures k in m && n[k].addr == m[k].addr {
      assert k in m1 && n[k].addr == m1[k].addr;
    }
  }

  /** A good report keeps what is known about the collisions. */
  lemma GoodCollided(e: Env, idCount: int, m: map<int, AddrInfo>, n: map<int, AddrInfo>, vvNew: map<Slot, int>,
      vvNew1: map<Slot, int>,
                     vvTried: map<Slot, int>, vvTried1: map<Slot, int>, c: set<int>, c1: set<int>,
                     id: int, testBeforeEvict: bool, time: int)
    requires GoodStep(e, m, n, vvNew, vvNew1, vvTried, vvTried1, c, c1, id, testBeforeEvict, time)
    requires CollisionsOk(e, m, vvTried, idCount, c) && IdsOk(m, idCount)
    ensures CollisionsOk(e, n, vvTried1, idCount, c1)
  {
    GoodAddrs(e, m, n, vvNew, vvNew1, vvTried, vvTried1, c, c1, id, testBeforeEvict, time);
    GoodKeepsTried(e, m, n, vvNew, vvNew1, vvTried, vvTried1, c, c1, id, testBeforeEvict, time);
    CollisionsStable(e, m, n, vvTried, vvTried1, idCount, c, c);
    hide Promoted, TriedSlot;
  }
}
