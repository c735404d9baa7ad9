/** The address manager of src/addrman.cpp: its tables, its indexes and its operations. */
module AddrManager {
  import opened Numbers
  import opened Wrappers
  import opened AddrModel
  import opened AddrSteps

  /** `a` holds `m` and -1 everywhere else. */
  ghost predicate Mirrors(a: array2<int>, m: map<Slot, int>, buckets: nat)
    reads a
  {
    && a.Length0 == buckets && a.Length1 == BUCKET_SIZE
    && (forall sl :: sl in m ==> sl.bucket < buckets && sl.pos < BUCKET_SIZE && a[sl.bucket, sl.pos] == m[sl] != -1)
    && (forall b, p :: 0 <= b < buckets && 0 <= p < BUCKET_SIZE && a[b, p] != -1 ==> Slot(b, p) in m)
  }

  /** Clear's loop over one of the tables. */
  method Wipe(a: array2<int>, buckets: nat)
    requires a.Length0 == buckets && a.Length1 == BUCKET_SIZE
    modifies a
    ensures Mirrors(a, map[], buckets)
  {
    for bucket := 0 to buckets
      invariant forall b, p :: 0 <= b < bucket && 0 <= p < BUCKET_SIZE ==> a[b, p] == -1
    {
      for entry := 0 to BUCKET_SIZE
        invariant forall b, p :: 0 <= b < bucket && 0 <= p < BUCKET_SIZE ==> a[b, p] == -1
        invariant forall p :: 0 <= p < entry ==> a[bucket, p] == -1
      {
        a[bucket, entry] := -1;
      }
    }
  }

  class AddrMan {
    var env: Env
    var nIdCount: int
    var mapInfo: map<int, AddrInfo>
    var mapAddr: map<Service, int>
    var vRandom: seq<int>
    var nTried: int
    const vvTried: array2<int>
    var nNew: int
    const vvNew: array2<int>
    var nLastGood: int
    var triedCollisions: set<int>

    /** The filled slots of the two tables. */
    ghost var newTab: map<Slot, int>
    ghost var triedTab: map<Slot, int>

    ghost predicate Tables()
      reads this, vvNew, vvTried
    {
      vvNew != vvTried && Mirrors(vvNew, newTab, NEW_BUCKET_COUNT) && Mirrors(vvTried, triedTab, TRIED_BUCKET_COUNT)
    }

    ghost predicate Frame(loose: set<int>)
      reads this
    {
      FrameOk(env, nIdCount, mapInfo, vRandom, newTab, triedTab, loose)
    }

    ghost predicate Core(loose: set<int>)
      reads this
    {
      CoreOk(env, nIdCount, mapInfo, mapAddr, vRandom, newTab, triedTab, loose)
    }

    /** Entries, indexes, tables and counters fit together. */
    ghost predicate Sound()
      reads this, vvNew, vvTried
    {
      && Tables()
      && Core({})
      && nNew == |NewIds(mapInfo)|
      && nTried == |TriedIds(mapInfo)|
      && |triedCollisions| <= SET_TRIED_COLLISION_SIZE
    }

    ghost predicate Collided()
      reads this
    {
      CollisionsOk(env, mapInfo, triedTab, nIdCount, triedCollisions)
    }

    /** And the remembered collisions belong to them. */
    ghost predicate Valid()
      reads this, vvNew, vvTried
    {
      Sound() && Collided()
    }

    constructor (e: Env)
      ensures Valid() && env == e
      ensures mapInfo == map[] && mapAddr == map[] && vRandom == [] && triedTab == map[] && newTab == map[]
      ensures triedCollisions == {}
      ensures nIdCount == 0 && nLastGood == 1 && fresh(vvNew) && fresh(vvTried)
    {
      env := e;
      nIdCount, nTried, nNew, nLastGood := 0, 0, 0, 1;
      mapInfo, mapAddr, vRandom, triedCollisions := map[], map[], [], {};
      newTab, triedTab := map[], map[];
      vvNew := new int[NEW_BUCKET_COUNT, BUCKET_SIZE]((_, _) => -1);
      vvTried := new int[TRIED_BUCKET_COUNT, BUCKET_SIZE]((_, _) => -1);
    }

    method WipeTables()
      requires Tables()
      modifies this`newTab, this`triedTab, vvNew, vvTried
      ensures Tables() && newTab == map[] && triedTab == map[]
    {
      Wipe(vvNew, NEW_BUCKET_COUNT);
      hide Mirrors;
      Wipe(vvTried, TRIED_BUCKET_COUNT);
      newTab, triedTab := map[], map[];
    }

    /** Clear: a new key, empty tables and ids from zero. The remembered collisions stay. */
    method Clear(key: nat)
      requires Tables() && |triedCollisions| <= SET_TRIED_COLLISION_SIZE
      modifies this, vvNew, vvTried
      ensures Sound() && (Collided() <==> triedCollisions == {})
      ensures env == old(env).(key := key) && triedCollisions == old(triedCollisions)
      ensures nIdCount == 0 && nLastGood == 1
      ensures mapInfo == map[] && mapAddr == map[] && vRandom == [] && triedTab == map[] && newTab == map[]
    {
      hide Mirrors, CoreOk, CollisionsOk, NewIds, TriedIds;
      vRandom := [];
      env := env.(key := key);
      WipeTables();
      nIdCount, nTried, nNew, nLastGood := 0, 0, 0, 1;
      mapInfo, mapAddr := map[], map[];
      NothingCore(env);
      NothingCollided(env, triedCollisions);
    }

    method SwapRandom(nRndPos1: nat, nRndPos2: nat)
      requires OrderOk(mapInfo, vRandom)
      requires nRndPos1 < |vRandom| && nRndPos2 < |vRandom|
      modifies this`mapInfo, this`vRandom
      ensures OrderOk(mapInfo, vRandom)
      ensures SameEntries(old(mapInfo), mapInfo)
      ensures vRandom == old(vRandom)[nRndPos1 := old(vRandom)[nRndPos2]][nRndPos2 := old(vRandom)[nRndPos1]]
    {
      if nRndPos1 == nRndPos2 {
        return;
      }
      var nId1, nId2 := vRandom[nRndPos1], vRandom[nRndPos2];
      assert nId1 in mapInfo && nId2 in mapInfo;
      assert nId1 != nId2;
      SwapOrder(mapInfo, vRandom, nRndPos1, nRndPos2);
      mapInfo := mapInfo[nId1 := mapInfo[nId1].(nRandomPos := nRndPos2)];
      mapInfo := mapInfo[nId2 := mapInfo[nId2].(nRandomPos := nRndPos1)];
      vRandom := vRandom[nRndPos1 := nId2];
      vRandom := vRandom[nRndPos2 := nId1];
    }

    method Delete(nId: int, ghost loose: set<int>)
      requires OrderOk(mapInfo, vRandom) && nId in mapInfo && !mapInfo[nId].fInTried && mapInfo[nId].nRefCount == 0
      modifies this`mapInfo, this`vRandom, this`mapAddr, this`nNew
      ensures OrderOk(mapInfo, vRandom)
      ensures old(Frame(loose)) && nId in loose ==> Frame(loose - {nId})
      ensures old(AddrOk(env, mapInfo, mapAddr)) ==> AddrOk(env, mapInfo, mapAddr)
      ensures SameEntries(old(mapInfo) - {nId}, mapInfo)
      ensures mapAddr == old(mapAddr) - {Norm(env, old(mapInfo)[nId].addr)}
      ensures nNew == old(nNew) - 1
      ensures NewIds(mapInfo) == NewIds(old(mapInfo)) - {nId} && TriedIds(mapInfo) == TriedIds(old(mapInfo))
    {
      hide AddrOk, FrameOk, OrderOk, NewIds, TriedIds, SameEntries, Norm;
      var info := mapInfo[nId];
      var addr := Norm(env, info.addr);
      PlaceInOrder(mapInfo, vRandom, nId);
      SwapRandom(info.nRandomPos, |vRandom| - 1);
      SwappedLast(old(mapInfo), old(vRandom), nId, vRandom);
      DeleteRest(old(mapInfo), mapInfo, vRandom, nId);
      if old(Frame(loose)) && nId in loose {
        DeleteFrame(env, nIdCount, old(mapInfo), mapInfo, old(vRandom), vRandom, newTab, triedTab, loose, nId);
      }
      if old(AddrOk(env, mapInfo, mapAddr)) {
        DeleteAddr(env, old(mapInfo), mapInfo, mapAddr, nId);
      }
      vRandom := vRandom[..|vRandom| - 1];
      mapAddr := mapAddr - {addr};
      mapInfo := mapInfo - {nId};
      nNew := nNew - 1;
    }

    method Create(addr: Address, source: NetAddr) returns (nId: int)
      requires Core({}) && Norm(env, addr.service) !in mapAddr
      modifies this`nIdCount, this`mapInfo, this`mapAddr, this`vRandom
      ensures nId == old(nIdCount) && nIdCount == nId + 1 && nId !in old(mapInfo)
      ensures mapInfo == old(mapInfo)[nId := NewEntry(addr, source, |old(vRandom)|)]
      ensures Core({nId})
      ensures NewIds(mapInfo) == NewIds(old(mapInfo)) + {nId} && TriedIds(mapInfo) == TriedIds(old(mapInfo))
    {
      var addr2 := Norm(env, addr.service);
      CreateKeeps(env, nIdCount, mapInfo, mapAddr, vRandom, newTab, triedTab, {}, NewEntry(addr, source, |vRandom|));
      assert {} + {nIdCount} == {nIdCount};
      nId := nIdCount;
      nIdCount := nIdCount + 1;
      mapInfo := mapInfo[nId := NewEntry(addr, source, -1)];
      mapAddr := mapAddr[addr2 := nId];
      mapInfo := mapInfo[nId := mapInfo[nId].(nRandomPos := |vRandom|)];
      vRandom := vRandom + [nId];
      assert mapInfo == old(mapInfo)[nId := NewEntry(addr, source, |old(vRandom)|)];
    }

    /** Reads one slot of the new table. */
    method GetNew(b: nat, p: nat) returns (id: int)
      requires Tables() && b < NEW_BUCKET_COUNT && p < BUCKET_SIZE
      ensures id == Content(newTab, Slot(b, p))
      ensures id != -1 <==> Slot(b, p) in newTab
    {
      id := vvNew[b, p];
    }

    /** Reads one slot of the tried table. */
    method GetTried(b: nat, p: nat) returns (id: int)
      requires Tables() && b < TRIED_BUCKET_COUNT && p < BUCKET_SIZE
      ensures id == Content(triedTab, Slot(b, p))
      ensures id != -1 <==> Slot(b, p) in triedTab
    {
      id := vvTried[b, p];
    }

    /** Writes one slot of the new table. */
    method SetNew(b: nat, p: nat, id: int)
      requires Tables() && b < NEW_BUCKET_COUNT && p < BUCKET_SIZE
      modifies this`newTab, vvNew
      ensures Tables()
      ensures newTab == if id == -1 then old(newTab) - {Slot(b, p)} else old(newTab)[Slot(b, p) := id]
    {
      vvNew[b, p] := id;
      newTab := if id == -1 then newTab - {Slot(b, p)} else newTab[Slot(b, p) := id];
    }

    /** Writes one slot of the tried table. */
    method SetTried(b: nat, p: nat, id: int)
      requires Tables() && b < TRIED_BUCKET_COUNT && p < BUCKET_SIZE
      modifies this`triedTab, vvTried
      ensures Tables()
      ensures triedTab == if id == -1 then old(triedTab) - {Slot(b, p)} else old(triedTab)[Slot(b, p) := id]
    {
      vvTried[b, p] := id;
      triedTab := if id == -1 then triedTab - {Slot(b, p)} else triedTab[Slot(b, p) := id];
    }

    method ClearNew(nUBucket: nat, nUBucketPos: nat, ghost loose: set<int>)
      requires Tables() && Core(loose)
      requires nUBucket < NEW_BUCKET_COUNT && nUBucketPos < BUCKET_SIZE
      modifies this`mapInfo, this`vRandom, this`mapAddr, this`nNew, this`newTab, vvNew
      ensures Tables() && Core(loose)
      ensures newTab == old(newTab) - {Slot(nUBucket, nUBucketPos)}
      ensures Cleared(old(mapInfo), mapInfo, old(newTab), Slot(nUBucket, nUBucketPos))
      ensures nNew - |NewIds(mapInfo)| == old(nNew - |NewIds(mapInfo)|)
      ensures TriedIds(mapInfo) == TriedIds(old(mapInfo))
    {
      hide Mirrors, OrderOk, AddrOk, RefOk, TriedOk, IdsOk, SameEntries;
      var nIdDelete := GetNew(nUBucket, nUBucketPos);
      if nIdDelete != -1 {
        ghost var sl := Slot(nUBucket, nUBucketPos);
        assert nIdDelete in mapInfo;
        hide NewTabOk;
        var infoDelete := mapInfo[nIdDelete];
        ghost var n := mapInfo[nIdDelete := infoDelete.(nRefCount := infoDelete.nRefCount - 1)];
        DropRefKeeps(env, nIdCount, mapInfo, n, mapAddr, vRandom, newTab, triedTab, loose, sl);
        assert infoDelete.nRefCount > 0;
        mapInfo := mapInfo[nIdDelete := infoDelete.(nRefCount := infoDelete.nRefCount - 1)];
        SetNew(nUBucket, nUBucketPos, -1);
        if mapInfo[nIdDelete].nRefCount == 0 {
          assert nIdDelete in NewIds(mapInfo);
          assert mapInfo - {nIdDelete} == old(mapInfo) - {nIdDelete};
          Delete(nIdDelete, loose + {nIdDelete});
          assert loose + {nIdDelete} - {nIdDelete} == loose;
        }
      }
    }

    /** MakeTried, first part: `nId` leaves all new buckets. */
    method DetachFromNew(nId: int)
      requires Tables() && Core({}) && nId in mapInfo && !mapInfo[nId].fInTried
      modifies this`mapInfo, this`nNew, this`newTab, vvNew
      ensures Tables() && Core({nId})
      ensures Recounted(old(mapInfo), mapInfo, nId, 0)
      ensures newTab == old(newTab) - SlotsOf(old(newTab), nId)
      ensures nNew == old(nNew) - 1
      ensures NewIds(mapInfo) == NewIds(old(mapInfo)) && TriedIds(mapInfo) == TriedIds(old(mapInfo))
    {
      hide Mirrors, OrderOk, AddrOk, RefOk, TriedOk, NewTabOk;
      assert nId >= 0;
      hide IdsOk, SlotsOf, SlotsBelow, LeftBelow;
      ghost var was, wasTab := mapInfo, newTab;
      RefCountIs(mapInfo, newTab, {}, nId);
      SlotsBelowAll(env, was, wasTab, nId);
      var info := mapInfo[nId];
      for bucket := 0 to NEW_BUCKET_COUNT
        invariant Tables() && nNew == old(nNew) && mapInfo == was
        invariant newTab == LeftBelow(wasTab, nId, bucket)
        invariant info == was[nId].(nRefCount := |SlotsOf(wasTab, nId)| - |SlotsBelow(wasTab, nId, bucket)|)
      {
        var pos := BucketPosition(env, info.addr, true, bucket);
        SlotsBelowStep(env, was, wasTab, nId, bucket, Slot(bucket, pos));
        var id := GetNew(bucket, pos);
        if id == nId {
          SetNew(bucket, pos, -1);
          info := info.(nRefCount := info.nRefCount - 1);
        }
      }
      mapInfo := mapInfo[nId := info];
      nNew := nNew - 1;
      assert info.nRefCount == 0;
      LeftAll(env, was, wasTab, nId);
      DetachKeeps(env, nIdCount, was, mapInfo, mapAddr, vRandom, wasTab, triedTab, nId);
    }

    /** MakeTried, second part: a tried slot is emptied; its entry is on neither table. */
    method Untry(nKBucket: nat, nKBucketPos: nat, ghost loose: set<int>) returns (nIdEvict: int)
      requires Tables() && Core(loose)
      requires nKBucket < TRIED_BUCKET_COUNT && nKBucketPos < BUCKET_SIZE && Slot(nKBucket, nKBucketPos) in triedTab
      modifies this`mapInfo, this`nTried, this`triedTab, vvTried
      ensures nIdEvict == old(triedTab)[Slot(nKBucket, nKBucketPos)] && nIdEvict !in loose && nIdEvict in mapInfo
      ensures Tables() && Core(loose + {nIdEvict})
      ensures triedTab == old(triedTab) - {Slot(nKBucket, nKBucketPos)}
      ensures Reflagged(old(mapInfo), mapInfo, nIdEvict, false)
      ensures nTried == old(nTried) - 1
      ensures |NewIds(mapInfo)| == |NewIds(old(mapInfo))| + 1 && |TriedIds(mapInfo)| == |TriedIds(old(mapInfo))| - 1
    {
      hide Mirrors, OrderOk, AddrOk, RefOk, TriedOk, NewTabOk, IdsOk, NewIds, TriedIds;
      ghost var sl := Slot(nKBucket, nKBucketPos);
      nIdEvict := GetTried(nKBucket, nKBucketPos);
      TriedLive(env, mapInfo, triedTab, sl);
      UntryKeeps(env, nIdCount, mapInfo, mapInfo[nIdEvict := mapInfo[nIdEvict].(fInTried := false)], mapAddr, vRandom,
                 newTab, triedTab, loose, sl);
      mapInfo := mapInfo[nIdEvict := mapInfo[nIdEvict].(fInTried := false)];
      SetTried(nKBucket, nKBucketPos, -1);
      nTried := nTried - 1;
    }

    /** Puts `nId` in an empty slot of the new table. */
    method Place(nUBucket: nat, nUBucketPos: nat, nId: int, ghost loose: set<int>)
      requires Tables() && Core(loose) && nUBucket < NEW_BUCKET_COUNT
      requires nId in mapInfo && !mapInfo[nId].fInTried && mapInfo[nId].nRefCount < NEW_BUCKETS_PER_ADDRESS
      requires Slot(nUBucket, nUBucketPos) !in newTab
      requires Slot(nUBucket, nUBucketPos) == NewSlot(env, mapInfo[nId].addr, nUBucket)
      modifies this`mapInfo, this`newTab, vvNew
      ensures Tables() && Core(loose - {nId})
      ensures Recounted(old(mapInfo), mapInfo, nId, old(mapInfo)[nId].nRefCount + 1)
      ensures newTab == old(newTab)[Slot(nUBucket, nUBucketPos) := nId]
      ensures NewIds(mapInfo) == NewIds(old(mapInfo)) && TriedIds(mapInfo) == TriedIds(old(mapInfo))
    {
      hide Mirrors, OrderOk, AddrOk, RefOk, TriedOk, NewTabOk;
      assert nId != -1;
      hide IdsOk, NewIds, TriedIds;
      PlaceKeeps(env, nIdCount, mapInfo, mapInfo[nId := mapInfo[nId].(nRefCount := mapInfo[nId].nRefCount + 1)],
                 mapAddr, vRandom, newTab, triedTab, loose, Slot(nUBucket, nUBucketPos), nId);
      mapInfo := mapInfo[nId := mapInfo[nId].(nRefCount := mapInfo[nId].nRefCount + 1)];
      SetNew(nUBucket, nUBucketPos, nId);
    }

    /** MakeTried, third part: the entry in a tried slot moves back to the new table. */
    method EvictTried(nKBucket: nat, nKBucketPos: nat, ghost loose: set<int>)
      requires Tables() && Core(loose)
      requires nKBucket < TRIED_BUCKET_COUNT && nKBucketPos < BUCKET_SIZE && Slot(nKBucket, nKBucketPos) in triedTab
      modifies this`mapInfo, this`vRandom, this`mapAddr, this`nNew, this`nTried, this`newTab, this`triedTab, vvNew,
          vvTried
      ensures Tables() && Core(loose)
      ensures triedTab == old(triedTab) - {Slot(nKBucket, nKBucketPos)}
      ensures var v := old(triedTab)[Slot(nKBucket, nKBucketPos)];
        && v !in loose
        && Evicted(env, old(mapInfo), mapInfo, old(newTab), v)
        && newTab == old(newTab)[HomeSlot(env, old(mapInfo)[v]) := v]
      ensures nNew - |NewIds(mapInfo)| == old(nNew - |NewIds(mapInfo)|)
      ensures nTried - |TriedIds(mapInfo)| == old(nTried - |TriedIds(mapInfo)|)
    {
      hide Mirrors, OrderOk, AddrOk, RefOk, TriedOk, NewTabOk, IdsOk, NewIds, TriedIds;
      var nIdEvict := Untry(nKBucket, nKBucketPos, loose);
      var infoOld := mapInfo[nIdEvict];
      var nUBucket := NewBucket(env, infoOld.addr, infoOld.source);
      var nUBucketPos := BucketPosition(env, infoOld.addr, true, nUBucket);
      ghost var mid, usl := mapInfo, Slot(nUBucket, nUBucketPos);
      ClearNew(nUBucket, nUBucketPos, loose + {nIdEvict});
      LooseAway(mid, old(newTab), loose + {nIdEvict}, nIdEvict);
      ClearedOther(mid, mapInfo, old(newTab), usl, nIdEvict);
      ghost var cleared := mapInfo;
      assert mapInfo[nIdEvict].nRefCount == 0;
      Place(nUBucket, nUBucketPos, nIdEvict, loose + {nIdEvict});
      nNew := nNew + 1;
      assert loose + {nIdEvict} - {nIdEvict} == loose;
      assert mapInfo[nIdEvict := mapInfo[nIdEvict].(nRefCount := 0)] == cleared;
      assert newTab == old(newTab)[usl := nIdEvict];
    }

    /** MakeTried, last part: `nId` takes an empty tried slot. */
    method EnterTried(nKBucket: nat, nKBucketPos: nat, nId: int, ghost loose: set<int>)
      requires Tables() && Core(loose) && nId in loose && nId in mapInfo
      requires nKBucket < TRIED_BUCKET_COUNT && nKBucketPos < BUCKET_SIZE
      requires Slot(nKBucket, nKBucketPos) == TriedSlot(env, mapInfo[nId].addr)
      requires Slot(nKBucket, nKBucketPos) !in triedTab
      modifies this`mapInfo, this`nTried, this`triedTab, vvTried
      ensures Tables() && Core(loose - {nId})
      ensures Reflagged(old(mapInfo), mapInfo, nId, true)
      ensures triedTab == old(triedTab)[Slot(nKBucket, nKBucketPos) := nId]
      ensures nTried == old(nTried) + 1
      ensures |NewIds(mapInfo)| == |NewIds(old(mapInfo))| - 1 && |TriedIds(mapInfo)| == |TriedIds(old(mapInfo))| + 1
    {
      hide Mirrors, OrderOk, AddrOk, RefOk, TriedOk, NewTabOk;
      assert nId != -1;
      hide IdsOk, NewIds, TriedIds;
      TryKeeps(env, nIdCount, mapInfo, mapInfo[nId := mapInfo[nId].(fInTried := true)], mapAddr, vRandom, newTab,
          triedTab, loose, nId);
      SetTried(nKBucket, nKBucketPos, nId);
      nTried := nTried + 1;
      mapInfo := mapInfo[nId := mapInfo[nId].(fInTried := true)];
    }

    method MakeTried(nId: int)
      requires Tables() && Core({}) && nId in mapInfo && !mapInfo[nId].fInTried
      requires nNew == |NewIds(mapInfo)| && nTried == |TriedIds(mapInfo)|
      modifies this`mapInfo, this`vRandom, this`mapAddr, this`nNew, this`nTried, this`newTab, this`triedTab, vvNew,
          vvTried
      ensures Tables() && Core({})
      ensures nNew == |NewIds(mapInfo)| && nTried == |TriedIds(mapInfo)|
      ensures Promoted(env, old(mapInfo), mapInfo, old(newTab), newTab, old(triedTab), triedTab, nId)
    {
      hide Mirrors, OrderOk, AddrOk, RefOk, TriedOk, NewTabOk, IdsOk, NewIds, TriedIds, SlotsOf, Evicted, SameEntries;
      DetachFromNew(nId);
      ghost var m1, left := mapInfo, newTab;
      var nKBucket := TriedBucket(env, mapInfo[nId].addr);
      var nKBucketPos := BucketPosition(env, mapInfo[nId].addr, false, nKBucket);
      ghost var sl := Slot(nKBucket, nKBucketPos);
      var id := GetTried(nKBucket, nKBucketPos);
      if id != -1 {
        TriedLive(env, mapInfo, triedTab, sl);
        EvictTried(nKBucket, nKBucketPos, {nId});
        EvictedOther(env, m1, mapInfo, left, id, {nId}, nId);
      }
      ghost var n1 := mapInfo;
      EnterTried(nKBucket, nKBucketPos, nId, {nId});
      assert {nId} - {nId} == {};
      assert mapInfo[nId := mapInfo[nId].(fInTried := false)] == n1 by {
        LooseAway(n1, newTab, {nId}, nId);
      }
      assert triedTab == old(triedTab)[sl := nId];
    }

    method Find(addr: Service) returns (found: bool, nId: int)
      requires AddrOk(env, mapInfo, mapAddr)
      ensures found <==> exists id :: id in mapInfo && Norm(env, mapInfo[id].addr) == Norm(env, addr)
      ensures found <==> Norm(env, addr) in mapAddr
      ensures found ==>
        nId in mapInfo && mapAddr[Norm(env, addr)] == nId && Norm(env, mapInfo[nId].addr) == Norm(env, addr)
    {
      var addr2 := Norm(env, addr);
      if addr2 !in mapAddr {
        return false, -1;
      }
      nId := mapAddr[addr2];
      found := nId in mapInfo;
    }

    /** Good_'s scan for a bucket that holds `nId`, from a random starting point. */
    method FindBucket(nId: int) returns (nUBucket: int)
      requires Tables() && Core({}) && nId in mapInfo && !mapInfo[nId].fInTried
      ensures 0 <= nUBucket < NEW_BUCKET_COUNT
      ensures Content(newTab, NewSlot(env, mapInfo[nId].addr, nUBucket)) == nId
    {
      hide Mirrors, OrderOk, AddrOk, RefOk, TriedOk, NewTabOk, IdsOk, BucketPosition;
      var nRnd: nat :| nRnd < NEW_BUCKET_COUNT;
      nUBucket := -1;
      ghost var home := HasSlot(env, mapInfo, newTab, nId);
      ghost var k := if home >= nRnd then home - nRnd else home - nRnd + NEW_BUCKET_COUNT;
      assert (k + nRnd) % NEW_BUCKET_COUNT == home;
      for n := 0 to NEW_BUCKET_COUNT
        invariant n <= k && nUBucket == -1
      {
        var nB := (n + nRnd) % NEW_BUCKET_COUNT;
        var nBpos := BucketPosition(env, mapInfo[nId].addr, true, nB);
        var id := GetNew(nB, nBpos);
        if id == nId {
          nUBucket := nB;
          break;
        }
      }
    }

    /** Good_ once the entry is known. */
    method GoodEntry(nId: int, testBeforeEvict: bool, nTime: int)
      requires Sound() && nId in mapInfo
      modifies this`mapInfo, this`vRandom, this`mapAddr, this`nNew, this`nTried, this`newTab, this`triedTab,
          this`triedCollisions, vvNew, vvTried
      ensures Sound()
      ensures GoodStep(env, old(mapInfo), mapInfo, old(newTab), newTab, old(triedTab), triedTab,
                       old(triedCollisions), triedCollisions, nId, testBeforeEvict, nTime)
    {
      hide Mirrors, OrderOk, RefOk, TriedOk, NewTabOk, NewIds, TriedIds, SlotsOf, Evicted, AddrOk, Promoted;
      ghost var m, m1 := mapInfo,
          mapInfo[nId := mapInfo[nId].(nLastSuccess := nTime, nLastTry := nTime, nAttempts := 0)];
      assert 0 <= nId < nIdCount;
      hide IdsOk;
      TouchKeeps(env, nIdCount, m, m1, mapAddr, vRandom, newTab, triedTab, {}, nId);
      mapInfo := mapInfo[nId := mapInfo[nId].(nLastSuccess := nTime, nLastTry := nTime, nAttempts := 0)];
      if mapInfo[nId].fInTried {
        return;
      }
      var nUBucket := FindBucket(nId);
      assert nUBucket != -1;
      var triedBucket := TriedBucket(env, mapInfo[nId].addr);
      var triedBucketPos := BucketPosition(env, mapInfo[nId].addr, false, triedBucket);
      var id := GetTried(triedBucket, triedBucketPos);
      if testBeforeEvict && id != -1 {
        if |triedCollisions| < SET_TRIED_COLLISION_SIZE {
          triedCollisions := triedCollisions + {nId};
        }
      } else {
        MakeTried(nId);
      }
    }

    method Good(addr: Service, testBeforeEvict: bool, nTime: int)
      requires Sound()
      modifies this`mapInfo, this`vRandom, this`mapAddr, this`nNew, this`nTried, this`newTab, this`triedTab,
          this`triedCollisions, this`nLastGood,
        vvNew, vvTried
      ensures Sound() && (old(Collided()) ==> Collided())
      ensures nLastGood == nTime && nIdCount == old(nIdCount)
      ensures (forall id :: id in old(mapInfo) ==> old(mapInfo)[id].addr != addr) ==>
        mapInfo == old(mapInfo) && newTab == old(newTab) && triedTab == old(triedTab) &&
            triedCollisions == old(triedCollisions)
      ensures forall id :: id in old(mapInfo) && old(mapInfo)[id].addr == addr ==>
        GoodStep(env, old(mapInfo), mapInfo, old(newTab), newTab, old(triedTab), triedTab,
                 old(triedCollisions), triedCollisions, id, testBeforeEvict, nTime)
      ensures nTime > 0 && old(TimesOk(mapInfo)) ==> TimesOk(mapInfo)
      ensures old(triedTab.Keys) <= triedTab.Keys
    {
      hide Mirrors, OrderOk, RefOk, TriedOk, NewTabOk, IdsOk, NewIds, TriedIds, AddrOk, GoodStep, CollisionsOk, TimesOk;
      AddrUnique(env, mapInfo, mapAddr, addr);
      nLastGood := nTime;
      var found, nId := Find(addr);
      if !found {
        return;
      }
      if mapInfo[nId].addr != addr {
        return;
      }
      GoodEntry(nId, testBeforeEvict, nTime);
      if old(Collided()) {
        GoodCollided(env, nIdCount, old(mapInfo), mapInfo, old(newTab), newTab, old(triedTab), triedTab,
                     old(triedCollisions), triedCollisions, nId, testBeforeEvict, nTime);
      }
      GoodKeepsTried(env, old(mapInfo), mapInfo, old(newTab), newTab, old(triedTab), triedTab,
                     old(triedCollisions), triedCollisions, nId, testBeforeEvict, nTime);
      if nTime > 0 && old(TimesOk(mapInfo)) {
        GoodTimes(env, old(mapInfo), mapInfo, old(newTab), newTab, old(triedTab), triedTab,
                  old(triedCollisions), triedCollisions, nId, testBeforeEvict, nTime);
      }
    }

    /** Add_, second half: gives `nId` the slot its source selects, if it may have it. */
    method AddToBucket(nId: int, source: NetAddr, now: int, ghost loose: set<int>)
      requires Tables() && Core(loose) && loose <= {nId} && nId in mapInfo && !mapInfo[nId].fInTried
      requires mapInfo[nId].nRefCount < NEW_BUCKETS_PER_ADDRESS && nNew == |NewIds(mapInfo)|
      modifies this`mapInfo, this`vRandom, this`mapAddr, this`nNew, this`newTab, vvNew
      ensures Tables() && Core({}) && nNew == |NewIds(mapInfo)| && TriedIds(mapInfo) == TriedIds(old(mapInfo))
      ensures Bucketed(old(mapInfo), mapInfo, old(newTab), newTab, nId, SourceSlot(env, old(mapInfo)[nId], source), now)
    {
      hide Mirrors, OrderOk, AddrOk, RefOk, TriedOk, NewIds, TriedIds, SameEntries, NewTabOk, IsTerrible;
      assert nId >= 0;
      hide IdsOk;
      var info := mapInfo[nId];
      var nUBucket := NewBucket(env, info.addr, source);
      var nUBucketPos := BucketPosition(env, info.addr, true, nUBucket);
      ghost var sl, m, tab := Slot(nUBucket, nUBucketPos), mapInfo, newTab;
      LooseRef(mapInfo, newTab, loose, nId);
      var id := GetNew(nUBucket, nUBucketPos);
      if id != nId {
        var fInsert := id == -1;
        if !fInsert {
          NewLive(env, mapInfo, newTab, sl);
          var infoExisting := mapInfo[id];
          if IsTerrible(infoExisting, now) || (infoExisting.nRefCount > 1 && info.nRefCount == 0) {
            fInsert := true;
          }
        }
        if fInsert {
          ClearNew(nUBucket, nUBucketPos, loose);
          ClearedOther(m, mapInfo, tab, sl, nId);
          ghost var cleared := mapInfo;
          Place(nUBucket, nUBucketPos, nId, loose);
          assert loose - {nId} == {};
          assert mapInfo[nId := mapInfo[nId].(nRefCount := info.nRefCount)] == cleared;
          assert newTab == tab[sl := nId];
        } else {
          if info.nRefCount == 0 {
            InNewIds(mapInfo, nId);
            Delete(nId, loose);
            assert loose - {nId} == {};
          }
        }
      }
    }

    /** Stores an entry changed in fields the tables do not depend on. */
    method StoreEntry(nId: int, info: AddrInfo)
      requires Sound() && nId in mapInfo && Touched(mapInfo, mapInfo[nId := info], nId)
      modifies this`mapInfo
      ensures Sound() && mapInfo == old(mapInfo)[nId := info]
      ensures old(Collided()) ==> Collided()
    {
      hide Mirrors, OrderOk, AddrOk, TriedOk, NewTabOk, IdsOk, NewIds, TriedIds, RefOk, CollisionsOk;
      ghost var m, n := mapInfo, mapInfo[nId := info];
      TouchKeeps(env, nIdCount, m, n, mapAddr, vRandom, newTab, triedTab, {}, nId);
      if Collided() {
        CollisionsStable(env, m, n, triedTab, triedTab, nIdCount, triedCollisions, triedCollisions);
      }
      mapInfo := mapInfo[nId := info];
    }

    /** Add_'s update of a known entry. */
    method Refresh(info: AddrInfo, addr: Address, nTimePenalty: int, now: int) returns (pinfo: AddrInfo)
      ensures pinfo == Refreshed(info, addr, nTimePenalty, now)
    {
      pinfo := info;
      var fCurrentlyOnline := now - addr.nTime < 24 * 60 * 60;
      var nUpdateInterval := if fCurrentlyOnline then 60 * 60 else 24 * 60 * 60;
      if addr.nTime != 0 && (pinfo.nTime == 0 || pinfo.nTime < addr.nTime - nUpdateInterval - nTimePenalty) {
        pinfo := pinfo.(nTime := Max(0, addr.nTime - nTimePenalty));
      }
      pinfo := pinfo.(nServices := pinfo.nServices + addr.nServices);
    }

    /** Add_'s tests whether a known entry gets one more reference. */
    method PassesTests(pinfo: AddrInfo, addr: Address, draw: nat) returns (b: bool)
      requires pinfo.nRefCount >= 0
      ensures b <==> MayMultiply(pinfo, addr, draw)
    {
      if addr.nTime == 0 || (pinfo.nTime != 0 && addr.nTime <= pinfo.nTime) {
        return false;
      }
      if pinfo.fInTried {
        return false;
      }
      if pinfo.nRefCount == NEW_BUCKETS_PER_ADDRESS {
        return false;
      }
      var nFactor := 1;
      for n := 0 to pinfo.nRefCount
        invariant nFactor == TwoTo(n)
      {
        nFactor := nFactor * 2;
      }
      b := !(nFactor > 1 && draw % nFactor != 0);
    }

    /** Add_ for an address that entry `nId` already stands for. */
    method AddKnown(nId: int, addr: Address, source: NetAddr, nTimePenalty: int, now: int, draw: nat)
      requires Sound() && nId in mapInfo
      modifies this`mapInfo, this`vRandom, this`mapAddr, this`nNew, this`newTab, vvNew
      ensures Sound() && (old(Collided()) ==> Collided())
      ensures AddedKnown(env, old(mapInfo), mapInfo, old(newTab), newTab, nId, addr, source, nTimePenalty, now, draw)
      ensures old(TimesOk(mapInfo)) ==> TimesOk(mapInfo)
    {
      hide Mirrors, OrderOk, AddrOk, TriedOk, NewTabOk, IdsOk, NewIds, TriedIds, Bucketed, RefOk, CollisionsOk;
      RefRange(mapInfo, newTab, nId);
      ghost var m := mapInfo;
      var pinfo := Refresh(mapInfo[nId], addr, Penalty(addr, source, nTimePenalty), now);
      StoreEntry(nId, pinfo);
      ghost var m1 := mapInfo;
      var pass := PassesTests(pinfo, addr, draw);
      if !pass {
        return;
      }
      hide Refreshed, Penalty;
      AddToBucket(nId, source, now, {});
      ghost var sl := SourceSlot(env, pinfo, source);
      BucketedAddrs(m1, mapInfo, old(newTab), newTab, nId, sl, now);
      if old(Collided()) {
        CollisionsStable(env, m1, mapInfo, triedTab, triedTab, nIdCount, triedCollisions, triedCollisions);
      }
      if TimesOk(m1) {
        BucketedTimes(m1, mapInfo, old(newTab), newTab, nId, sl, now);
      }
    }

    /** Add_ for an address no entry stands for. */
    method AddFresh(addr: Address, source: NetAddr, nTimePenalty: int, now: int)
      requires Sound() && Norm(env, addr.service) !in mapAddr
      modifies this`nIdCount, this`mapInfo, this`vRandom, this`mapAddr, this`nNew, this`newTab, vvNew
      ensures Sound() && nIdCount == old(nIdCount) + 1
      ensures old(Collided()) ==> Collided()
      ensures AddedFresh(env, old(mapInfo), mapInfo, old(newTab), newTab, old(nIdCount), |old(vRandom)|, addr, source,
        nTimePenalty, now)
      ensures old(TimesOk(mapInfo)) ==> TimesOk(mapInfo)
    {
      hide Mirrors, OrderOk, AddrOk, TriedOk, NewTabOk, IdsOk, NewIds, TriedIds, Bucketed, RefOk, CollisionsOk;
      ghost var m := mapInfo;
      ghost var i := NewEntry(addr.(nTime := Max(0, addr.nTime - Penalty(addr, source, nTimePenalty))), source,
          |vRandom|);
      var nId := Create(addr, source);
      ghost var m0, m1 := mapInfo, m[nId := i];
      var pinfo := mapInfo[nId];
      pinfo := pinfo.(nTime := Max(0, pinfo.nTime - Penalty(addr, source, nTimePenalty)));
      TouchKeeps(env, nIdCount, mapInfo, mapInfo[nId := pinfo], mapAddr, vRandom, newTab, triedTab, {nId}, nId);
      mapInfo := mapInfo[nId := pinfo];
      assert mapInfo == m1;
      assert |NewIds(m1)| == |NewIds(m)| + 1 by {
        FreshCount(m, nId);
      }
      nNew := nNew + 1;
      hide Penalty;
      AddToBucket(nId, source, now, {nId});
      ghost var sl := SourceSlot(env, i, source);
      if old(Collided()) {
        FreshCollided(env, nId, m, i, mapInfo, old(newTab), newTab, triedTab, triedCollisions, sl, now);
      }
      if TimesOk(m1) {
        BucketedTimes(m1, mapInfo, old(newTab), newTab, nId, sl, now);
      }
    }

    method Add(addr: Address, source: NetAddr, nTimePenalty: int, now: int, draw: nat) returns (fNew: bool)
      requires Sound()
      modifies this`nIdCount, this`mapInfo, this`vRandom, this`mapAddr, this`nNew, this`newTab, vvNew
      ensures Sound() && (old(Collided()) ==> Collided())
      ensures !env.h.routable(addr.service.ip) ==>
        !fNew && mapInfo == old(mapInfo) && newTab == old(newTab) && nIdCount == old(nIdCount)
      ensures
        (&& env.h.routable(addr.service.ip)
         && forall id :: id in old(mapInfo) ==> Norm(env, old(mapInfo)[id].addr) != Norm(env, addr.service)) ==>
        && fNew && nIdCount == old(nIdCount) + 1
        && AddedFresh(env, old(mapInfo), mapInfo, old(newTab), newTab, old(nIdCount), |old(vRandom)|, addr, source,
          nTimePenalty, now)
      ensures env.h.routable(addr.service.ip) ==>
        forall id :: id in old(mapInfo) && Norm(env, old(mapInfo)[id].addr) == Norm(env, addr.service) ==>
          && !fNew && nIdCount == old(nIdCount)
          && AddedKnown(env, old(mapInfo), mapInfo, old(newTab), newTab, id, addr, source, nTimePenalty, now, draw)
      ensures old(TimesOk(mapInfo)) ==> TimesOk(mapInfo)
    {
      hide Mirrors, OrderOk, TriedOk, NewTabOk, IdsOk, NewIds, TriedIds, RefOk, CollisionsOk, TimesOk, AddedFresh,
           AddedKnown;
      if !env.h.routable(addr.service.ip) {
        return false;
      }
      fNew := false;
      var found, nId := Find(addr.service);
      if found {
        AddKnown(nId, addr, source, nTimePenalty, now, draw);
      } else {
        AddFresh(addr, source, nTimePenalty, now);
        fNew := true;
      }
    }

    method Attempt(addr: Service, fCountFailure: bool, nTime: int)
      requires Sound()
      modifies this`mapInfo
      ensures Sound() && (old(Collided()) ==> Collided())
      ensures (forall id :: id in old(mapInfo) ==> old(mapInfo)[id].addr != addr) ==> mapInfo == old(mapInfo)
      ensures forall id :: id in old(mapInfo) && old(mapInfo)[id].addr == addr ==>
        mapInfo == old(mapInfo)[id := Attempted(old(mapInfo)[id], fCountFailure, nTime, nLastGood)]
      ensures nTime >= 0 && old(TimesOk(mapInfo)) ==> TimesOk(mapInfo)
    {
      hide Mirrors, OrderOk, TriedOk, NewTabOk, IdsOk, NewIds, TriedIds, RefOk, CollisionsOk, AddrOk;
      AddrUnique(env, mapInfo, mapAddr, addr);
      var found, nId := Find(addr);
      if !found || mapInfo[nId].addr != addr {
        return;
      }
      var info := mapInfo[nId].(nLastTry := nTime);
      if fCountFailure && info.nLastCountAttempt < nLastGood {
        info := info.(nLastCountAttempt := nTime, nAttempts := info.nAttempts + 1);
      }
      StoreEntry(nId, info);
    }

    method Connected(addr: Service, nTime: int)
      requires Sound()
      modifies this`mapInfo
      ensures Sound() && (old(Collided()) ==> Collided())
      ensures (forall id :: id in old(mapInfo) ==> old(mapInfo)[id].addr != addr) ==> mapInfo == old(mapInfo)
      ensures forall id :: id in old(mapInfo) && old(mapInfo)[id].addr == addr ==>
        mapInfo == old(mapInfo)[id :=
            old(mapInfo)[id].(nTime :=
                if nTime - old(mapInfo)[id].nTime > 20 * 60 then nTime else old(mapInfo)[id].nTime)]
      ensures old(TimesOk(mapInfo)) ==> TimesOk(mapInfo)
    {
      hide Mirrors, OrderOk, TriedOk, NewTabOk, IdsOk, NewIds, TriedIds, RefOk, CollisionsOk, AddrOk;
      AddrUnique(env, mapInfo, mapAddr, addr);
      var found, nId := Find(addr);
      if !found || mapInfo[nId].addr != addr {
        return;
      }
      var nUpdateInterval := 20 * 60;
      if nTime - mapInfo[nId].nTime > nUpdateInterval {
        StoreEntry(nId, mapInfo[nId].(nTime := nTime));
      } else {
        assert mapInfo == mapInfo[nId := mapInfo[nId]];
      }
    }

    method SetServices(addr: Service, nServices: set<nat>)
      requires Sound()
      modifies this`mapInfo
      ensures Sound() && (old(Collided()) ==> Collided())
      ensures (forall id :: id in old(mapInfo) ==> old(mapInfo)[id].addr != addr) ==> mapInfo == old(mapInfo)
      ensures forall id :: id in old(mapInfo) && old(mapInfo)[id].addr == addr ==>
        mapInfo == old(mapInfo)[id := old(mapInfo)[id].(nServices := nServices)]
      ensures old(TimesOk(mapInfo)) ==> TimesOk(mapInfo)
    {
      hide Mirrors, OrderOk, TriedOk, NewTabOk, IdsOk, NewIds, TriedIds, RefOk, CollisionsOk, AddrOk;
      AddrUnique(env, mapInfo, mapAddr, addr);
      var found, nId := Find(addr);
      if !found || mapInfo[nId].addr != addr {
        return;
      }
      StoreEntry(nId, mapInfo[nId].(nServices := nServices));
    }

    method GetAddr(now: int) returns (vAddr: seq<Address>, ghost ids: seq<int>)
      requires Sound()
      modifies this`mapInfo, this`vRandom
      ensures Sound() && (old(Collided()) ==> Collided())
      ensures SameEntries(old(mapInfo), mapInfo) && |vRandom| == |old(vRandom)|
      ensures |vAddr| <= 2500 && 100 * |vAddr| <= 23 * |vRandom|
      ensures AddrsOf(mapInfo, ids, vAddr)
      ensures forall i, j :: 0 <= i < j < |ids| ==> ids[i] != ids[j]
      ensures forall id :: id in ids ==> id in mapInfo && !IsTerrible(mapInfo[id], now)
      ensures |vAddr| < 2500 && 100 * (|vAddr| + 1) <= 23 * |vRandom| ==>
        forall id :: id in mapInfo && !IsTerrible(mapInfo[id], now) ==> id in ids
    {
      hide Mirrors, TriedOk, NewTabOk, IdsOk, NewIds, TriedIds, RefOk, CollisionsOk, AddrOk, IsTerrible, SameEntries;
      ghost var m := mapInfo;
      var nNodes := GETADDR_MAX_PCT * |vRandom| / 100;
      if nNodes > GETADDR_MAX {
        nNodes := GETADDR_MAX;
      }
      vAddr, ids := [], [];
      var n := 0;
      SameRefl(m);
      PickedNone(mapInfo, vRandom, now);
      hide OrderOk, AddrsOf, Picked;
      while n < |vRandom| && |vAddr| < nNodes
        invariant 0 <= n <= |vRandom| == |old(vRandom)| && |vAddr| <= nNodes
        invariant OrderOk(mapInfo, vRandom) && SameEntries(m, mapInfo)
        invariant Picked(mapInfo, vRandom, n, ids, now) && AddrsOf(mapInfo, ids, vAddr)
      {
        var nRndPos: nat :| n <= nRndPos < |vRandom|;
        ghost var m0, order0 := mapInfo, vRandom;
        SwapRandom(n, nRndPos);
        PickedSwap(m0, mapInfo, order0, vRandom, n, ids, vAddr, now);
        SameTrans(m, m0, mapInfo);
        PickedNext(mapInfo, vRandom, n, ids, vAddr, now);
        var ai := mapInfo[vRandom[n]];
        if !IsTerrible(ai, now) {
          vAddr := vAddr + [AsAddress(ai)];
          ids := ids + [vRandom[n]];
        }
        n := n + 1;
      }
      PickedAll(mapInfo, vRandom, n, ids, vAddr, now);
      ReorderKeeps(env, nIdCount, m, mapInfo, mapAddr, old(vRandom), vRandom, newTab, triedTab);
      if old(Collided()) {
        SameAddrs(m, mapInfo);
        CollisionsStable(env, m, mapInfo, triedTab, triedTab, nIdCount, triedCollisions, triedCollisions);
      }
    }

    ghost function Snap(): Shot
      reads this
    {
      Shot(mapInfo, newTab, triedTab)
    }

    /** The body of ResolveCollisions_'s loop. */
    method ResolveOne(idNew: int, now: int) returns (eraseCollision: bool)
      requires Sound() && idNew in triedCollisions
      modifies this`mapInfo, this`vRandom, this`mapAddr, this`nNew, this`nTried, this`newTab, this`triedTab,
          this`triedCollisions, this`nLastGood,
        vvNew, vvTried
      ensures Sound() && triedCollisions == old(triedCollisions) && nIdCount == old(nIdCount)
      ensures old(Collided()) ==> Collided()
      ensures old(triedTab.Keys) <= triedTab.Keys && AddrsKept(old(mapInfo), mapInfo)
      ensures Turn(env, old(Snap()), Snap(), idNew, now)
      ensures idNew in old(mapInfo) ==> Fate(env, old(Snap()), Snap(), idNew, now)
      ensures eraseCollision <==> !Postponed(env, old(Snap()), idNew, now)
      ensures now > 0 && old(TimesOk(mapInfo)) ==> TimesOk(mapInfo)
    {
      hide Mirrors, OrderOk, TriedOk, NewTabOk, IdsOk, NewIds, TriedIds, RefOk, CollisionsOk, AddrOk, TimesOk;
      eraseCollision := false;
      if idNew !in mapInfo {
        eraseCollision := true;
      } else {
        var infoNew := mapInfo[idNew];
        var triedBucket := TriedBucket(env, infoNew.addr);
        var triedBucketPos := BucketPosition(env, infoNew.addr, false, triedBucket);
        TriedHolder(env, mapInfo, triedTab, Slot(triedBucket, triedBucketPos));
        var idOld := GetTried(triedBucket, triedBucketPos);
        hide TriedSlot;
        if !env.h.valid(infoNew.addr) {
          eraseCollision := true;
        } else if idOld != -1 {
          var infoOld := mapInfo[idOld];
          if now - infoOld.nLastSuccess < REPLACEMENT_HOURS * 60 * 60 {
            eraseCollision := true;
          } else if now - infoOld.nLastTry < REPLACEMENT_HOURS * 60 * 60 {
            if now - infoOld.nLastTry > 60 {
              Promote(idNew, now);
              eraseCollision := true;
            }
          } else if now - infoNew.nLastSuccess > TEST_WINDOW {
            Promote(idNew, now);
            eraseCollision := true;
          }
        } else {
          Promote(idNew, now);
          eraseCollision := true;
        }
      }
      hide Promoted, Evicted, Cleared;
      TurnFate(env, old(Snap()), Snap(), idNew, now);
    }

    /** Good_ on an entry's own address, without testing first. */
    method Promote(nId: int, now: int)
      requires Sound() && nId in mapInfo
      modifies this`mapInfo, this`vRandom, this`mapAddr, this`nNew, this`nTried, this`newTab, this`triedTab,
          this`triedCollisions, this`nLastGood,
        vvNew, vvTried
      ensures Sound() && (old(Collided()) ==> Collided())
      ensures triedCollisions == old(triedCollisions) && old(triedTab.Keys) <= triedTab.Keys
      ensures AddrsKept(old(mapInfo), mapInfo)
      ensures GoodStep(env, old(mapInfo), mapInfo, old(newTab), newTab, old(triedTab), triedTab, {}, {}, nId, false,
        now)
      ensures now > 0 && old(TimesOk(mapInfo)) ==> TimesOk(mapInfo)
    {
      hide Mirrors, OrderOk, TriedOk, NewTabOk, IdsOk, NewIds, TriedIds, RefOk, CollisionsOk, AddrOk, TimesOk, GoodStep;
      Good(mapInfo[nId].addr, false, now);
      GoodAddrs(env, old(mapInfo), mapInfo, old(newTab), newTab, old(triedTab), triedTab,
                old(triedCollisions), triedCollisions, nId, false, now);
      GoodAnyway(env, old(mapInfo), mapInfo, old(newTab), newTab, old(triedTab), triedTab,
                 old(triedCollisions), triedCollisions, nId, now);
    }

    method EraseCollision(id: int)
      requires Sound()
      modifies this`triedCollisions
      ensures Sound() && triedCollisions == old(triedCollisions) - {id}
      ensures old(Collided()) ==> Collided()
    {
      triedCollisions := triedCollisions - {id};
    }

    /** Gives every collision one turn, in ascending order of id; exactly the postponed ones stay. */
    method ResolveCollisions(now: int) returns (ghost order: seq<int>, ghost shots: seq<Shot>)
      requires Sound()
      modifies this`mapInfo, this`vRandom, this`mapAddr, this`nNew, this`nTried, this`newTab, this`triedTab,
          this`triedCollisions, this`nLastGood,
        vvNew, vvTried
      ensures Sound() && nIdCount == old(nIdCount)
      ensures old(Collided()) ==> Collided()
      ensures old(triedTab.Keys) <= triedTab.Keys && AddrsKept(old(mapInfo), mapInfo)
      ensures Ascending(order) && forall id :: id in order <==> id in old(triedCollisions)
      ensures Resolution(env, order, shots, now) && shots[0] == old(Snap()) && shots[|order|] == Snap()
      ensures triedCollisions <= old(triedCollisions)
      ensures forall i :: 0 <= i < |order| ==>
        (order[i] in triedCollisions <==> Postponed(env, shots[i], order[i], now))
      ensures now > 0 && old(TimesOk(mapInfo)) ==> TimesOk(mapInfo)
    {
      hide Sound, Collided, TimesOk, Turn, Postponed, Fate, Ascending;
      var ids := AscendingKeys(triedCollisions);
      order, shots := ids, [Snap()];
      ResolutionNone(env, ids, shots, triedCollisions, now);
      hide Resolution, Remaining;
      for i := 0 to |ids|
        invariant Sound() && (old(Collided()) ==> Collided()) && nIdCount == old(nIdCount)
        invariant triedCollisions <= old(triedCollisions) && |shots| == i + 1
        invariant Remaining(env, ids, i, shots, triedCollisions, now)
        invariant Resolution(env, ids[..i], shots, now) && shots[0] == old(Snap()) && shots[i] == Snap()
        invariant old(triedTab.Keys) <= triedTab.Keys && AddrsKept(old(mapInfo), mapInfo)
        invariant now > 0 && old(TimesOk(mapInfo)) ==> TimesOk(mapInfo)
      {
        RemainingHas(env, ids, i, shots, triedCollisions, now);
        ghost var c := triedCollisions;
        var eraseCollision := ResolveOne(ids[i], now);
        ghost var t := Snap();
        if eraseCollision {
          EraseCollision(ids[i]);
        }
        ResolutionNext(env, ids, i, shots, t, now);
        RemainingNext(env, ids, i, shots, t, c, triedCollisions, now);
        shots := shots + [t];
      }
      assert ids[..|ids|] == ids;
      RemainingEnd(env, ids, shots, triedCollisions, now);
    }

    /** Picks one of the remembered collisions and returns who holds the slot it competes for. Reading a slot that is
        empty enters a blank entry under the id -1, and that is what is returned. */
    method SelectTriedCollision(draw: nat) returns (r: Option<AddrInfo>, ok: bool, ghost order: seq<int>)
      requires Sound()
      modifies this`triedCollisions, this`mapInfo
      ensures Ascending(order) && forall id :: id in order <==> id in old(triedCollisions)
      ensures order == [] ==> ok && r == None && triedCollisions == {} && mapInfo == old(mapInfo)
      ensures order != [] ==>
        && var idNew := order[draw % |order|];
        && if idNew !in old(mapInfo) then
          ok && r == None && triedCollisions == old(triedCollisions) - {idNew} && mapInfo == old(mapInfo)
           else
             && triedCollisions == old(triedCollisions)
             && var sl := TriedSlot(env, old(mapInfo)[idNew].addr);
             && (ok <==> sl in triedTab)
             && if ok then mapInfo == old(mapInfo) && triedTab[sl] in mapInfo && r == Some(mapInfo[triedTab[sl]]) &&
               r.value.fInTried
                else mapInfo == old(mapInfo)[-1 := BLANK] && r == Some(BLANK)
      ensures ok <==> Sound()
      ensures old(Collided()) ==> ok && Collided()
    {
      hide Mirrors, OrderOk, NewTabOk, NewIds, TriedIds, RefOk, AddrOk;
      var ids := AscendingKeys(triedCollisions);
      order := ids;
      if |ids| == 0 {
        return None, true, order;
      }
      var id := ids[draw % |ids|];
      assert id in ids;
      if id !in mapInfo {
        triedCollisions := triedCollisions - {id};
        return None, true, order;
      }
      var triedBucket := TriedBucket(env, mapInfo[id].addr);
      var triedBucketPos := BucketPosition(env, mapInfo[id].addr, false, triedBucket);
      TriedHolder(env, mapInfo, triedTab, Slot(triedBucket, triedBucketPos));
      var idOld := GetTried(triedBucket, triedBucketPos);
      if idOld !in mapInfo {
        mapInfo := mapInfo[idOld := BLANK];
      }
      r, ok := Some(mapInfo[idOld]), idOld != -1;
    }
  }
}
