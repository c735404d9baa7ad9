/** What the address manager's rules mean, in seconds, counts and tables: the rules of src/addrman.cpp for keys,
    buckets, terrible entries, announcements, attempts and promotions. */
module AddrLaws {
  import opened Numbers
  import opened AddrModel
  import opened AddrSteps

  // ---------------------------------------------------------------- keys and buckets

  /** Two addresses share a key exactly if they are the same machine and, where ports count, the same port. */
  lemma SameKey(e: Env, a: Service, b: Service)
    ensures Norm(e, a) == Norm(e, b) <==> a.ip == b.ip && (e.ports ==> a.port == b.port)
    ensures Norm(e, Norm(e, a)) == Norm(e, a)
  {
  }

  /** The new buckets open to the sources of one network group. */
  function SourceBuckets(e: Env, g: nat): set<nat> {
    set k: nat | k < 64 :: e.h.newHash(e.key, g, k) % 1024
  }

  /** Whatever the sources of one network group announce goes to at most 64 of the 1024 new buckets. */
  lemma SourceBound(e: Env, g: nat)
    ensures |SourceBuckets(e, g)| <= 64
    ensures forall a: Service, src: NetAddr :: e.h.group(e.asmap, src) == g ==>
      NewBucket(e, a, src) in SourceBuckets(e, g)
  {
    ImageBound(e, g, 64);
    forall a: Service, src: NetAddr | e.h.group(e.asmap, src) == g
      ensures NewBucket(e, a, src) in SourceBuckets(e, g)
    {
      var k := e.h.groupHash(e.key, e.h.group(e.asmap, a.ip), g) % 64;
      assert k < 64 && NewBucket(e, a, src) == e.h.newHash(e.key, g, k) % 1024;
    }
  }

  lemma {:induction false} ImageBound(e: Env, g: nat, n: nat)
    ensures |set k: nat | k < n :: e.h.newHash(e.key, g, k) % 1024| <= n
  {
    var image := set k: nat | k < n :: e.h.newHash(e.key, g, k) % 1024;
    if n > 0 {
      ImageBound(e, g, n - 1);
      var fewer := set k: nat | k < n - 1 :: e.h.newHash(e.key, g, k) % 1024;
      assert image == fewer + {e.h.newHash(e.key, g, n - 1) % 1024};
    } else {
      assert image == {};
    }
  }

  /** Where an entry may lie: its announcer chooses the bucket, its own address the position, of 64 each; in the tried
      table its own network group and address choose both. */
  lemma SlotsMean(e: Env, i: AddrInfo, source: NetAddr)
    ensures SourceSlot(e, i, source).bucket == NewBucket(e, i.addr, source)
    ensures SourceSlot(e, i, source).pos == e.h.posHash(e.key, true, NewBucket(e, i.addr, source), i.addr) % 64
    ensures HomeSlot(e, i) == SourceSlot(e, i, i.source)
    ensures TriedSlot(e, i.addr).pos == e.h.posHash(e.key, false, TriedSlot(e, i.addr).bucket, i.addr) % 64
  {
  }

  // ---------------------------------------------------------------- terrible entries

  /** An entry is terrible unless it was tried within the last minute, if it is dated more than ten minutes ahead, has
      no date or one more than thirty days back, never connected in three attempts, or not for a week in ten. */
  lemma TerribleMeans(i: AddrInfo, now: int)
    ensures IsTerrible(i, now) <==>
      && (i.nLastTry == 0 || now - i.nLastTry > 60)
      && (|| i.nTime - now > 600
          || i.nTime == 0
          || now - i.nTime > 2592000
          || (i.nLastSuccess == 0 && i.nAttempts >= 3)
          || (now - i.nLastSuccess > 604800 && i.nAttempts >= 10))
  {
  }

  /** An entry about nothing has a date but no connection, attempt, reference or place. */
  lemma BlankMeans(now: int)
    ensures BLANK.nTime == 100_000_000 && BLANK.nLastSuccess == 0 && BLANK.nAttempts == 0 && BLANK.nLastTry == 0
    ensures BLANK.nLastCountAttempt == 0 && BLANK.nRefCount == 0 && !BLANK.fInTried && BLANK.nRandomPos == -1
    ensures BLANK.addr == Service(0, 0) && BLANK.source == 0 && BLANK.nServices == {}
    ensures IsTerrible(BLANK, now) <==> now < 99_999_400 || now > 102_592_000
  {
  }

  // ---------------------------------------------------------------- announcements

  /** Another announcement adds services, and moves the time exactly if it is newer by more than an hour, or a day for
      an address that seems offline; then to the announced time less the penalty. */
  lemma RefreshedMeans(i: AddrInfo, addr: Address, penalty: int, now: int)
    ensures
      var j := Refreshed(i, addr, penalty, now);
      var due := addr.nTime != 0 &&
        (i.nTime == 0 || addr.nTime - penalty - i.nTime > if now - addr.nTime < 86400 then 3600 else 86400);
      && j == i.(nTime := j.nTime, nServices := j.nServices)
      && (forall x :: x in j.nServices <==> x in i.nServices || x in addr.nServices)
      && j.nTime == (if !due then i.nTime else if addr.nTime < penalty then 0 else addr.nTime - penalty)
  {
  }

  /** No announcement turns an entry's time back or makes it newer than announced. */
  lemma TimeMovesOn(i: AddrInfo, addr: Address, penalty: int, now: int)
    requires i.nTime >= 0 && penalty >= 0
    ensures i.nTime <= Refreshed(i, addr, penalty, now).nTime <= Max(i.nTime, Max(0, addr.nTime))
  {
  }

  lemma {:induction false} TwoToIs(n: nat)
    ensures TwoTo(n) == Pow2(n)
  {
    if n > 0 {
      TwoToIs(n - 1);
    }
  }

  /** A known entry on the new table, with fewer than the eight references it may have, gets another one for a newer
      announcement in one of 2^n draws, n being the references it has. */
  lemma MultiplyMeans(i: AddrInfo, addr: Address, draw: nat)
    requires 0 <= i.nRefCount <= 8
    ensures MayMultiply(i, addr, draw) <==>
      && addr.nTime != 0 && (i.nTime == 0 || addr.nTime > i.nTime)
      && !i.fInTried && i.nRefCount < 8
      && draw % Pow2(i.nRefCount) == 0
    ensures draw < Pow2(i.nRefCount) && draw != 0 ==> !MayMultiply(i, addr, draw)
  {
    TwoToIs(i.nRefCount);
    hide Pow2, TwoTo;
    OneOf(draw, Pow2(i.nRefCount));
  }

  lemma OneOf(draw: nat, p: nat)
    requires p > 0
    ensures p == 1 ==> draw % p == 0
    ensures draw < p && draw != 0 ==> draw % p != 0
  {
    if draw < p {
      DivUnique(draw, p, 0, draw);
    }
  }

  /** The holder of a slot keeps it against another entry unless it is terrible, or has other slots and the other has
      none. Who takes a slot gains a reference and who loses one loses a reference, or everything if it was the last. */
  lemma BucketedMeans(m: map<int, AddrInfo>, n: map<int, AddrInfo>, vvNew: map<Slot, int>, vvNew1: map<Slot, int>,
                      id: int, sl: Slot, now: int)
    requires Bucketed(m, n, vvNew, vvNew1, id, sl, now) && (sl in vvNew ==> vvNew[sl] in m)
    ensures
      var free := sl !in vvNew;
      var taken := free || (vvNew[sl] != id && (IsTerrible(m[vvNew[sl]], now) ||
        (m[vvNew[sl]].nRefCount > 1 && m[id].nRefCount == 0)));
      && vvNew1 == (if taken then vvNew[sl := id] else vvNew)
      && (taken ==> id in n && n[id].nRefCount == m[id].nRefCount + 1 && n[id].addr == m[id].addr)
      && (taken && !free ==>
            if m[vvNew[sl]].nRefCount == 1 then vvNew[sl] !in n
            else vvNew[sl] in n && n[vvNew[sl]].nRefCount == m[vvNew[sl]].nRefCount - 1)
      && (!taken && !(vvNew[sl] == id) && m[id].nRefCount == 0 ==> id !in n)
      && (!taken && (vvNew[sl] == id || m[id].nRefCount != 0) ==> n == m)
  {
    hide IsTerrible;
    if !(sl in vvNew && vvNew[sl] == id) && Takes(m, vvNew, id, sl, now) {
      var back := n[id := n[id].(nRefCount := m[id].nRefCount)];
      assert id in back;
      if sl in vvNew {
        var v := vvNew[sl];
        if m[v].nRefCount == 1 {
          assert SameEntries(m - {v}, back) && v !in m - {v};
          assert SameEntry((m - {v})[id], back[id]);
        } else {
          assert back[v].nRefCount == m[v].nRefCount - 1;
        }
      }
    }
  }

  /** A new entry has the announced address and services, the announcing source, and the announced time less the penalty
      unless it announced itself; it has never been tried, and holds the slot its source chooses or is gone again. */
  lemma FreshMeans(e: Env, m: map<int, AddrInfo>, n: map<int, AddrInfo>, vvNew: map<Slot, int>, vvNew1: map<Slot, int>,
                   id: int, randomPos: int, addr: Address, source: NetAddr, penalty: int, now: int)
    requires AddedFresh(e, m, n, vvNew, vvNew1, id, randomPos, addr, source, penalty, now)
    requires id !in m && (forall sl :: sl in vvNew ==> vvNew[sl] in m)
    ensures
      var b := NewBucket(e, addr.service, source);
      var sl := Slot(b, BucketPosition(e, addr.service, true, b));
      if id in n then
        && vvNew1 == vvNew[sl := id]
        && var i := n[id];
        && i.addr == addr.service && i.nServices == addr.nServices && i.source == source
        && i.nTime == Max(0, addr.nTime - if addr.service.ip == source then 0 else penalty)
        && i.nLastSuccess == 0 && i.nAttempts == 0 && i.nLastTry == 0 && i.nLastCountAttempt == 0
        && !i.fInTried && i.nRefCount == 1
      else
        vvNew1 == vvNew && sl in vvNew && !IsTerrible(m[vvNew[sl]], now) && m[vvNew[sl]].nRefCount <= 1
  {
    var i := NewEntry(addr.(nTime := Max(0, addr.nTime - Penalty(addr, source, penalty))), source, randomPos);
    var m1, sl := m[id := i], SourceSlot(e, i, source);
    hide IsTerrible, NewBucket, BucketPosition;
    BucketedMeans(m1, n, vvNew, vvNew1, id, sl, now);
    if Takes(m1, vvNew, id, sl, now) {
      var back := n[id := n[id].(nRefCount := 0)];
      assert id in back;
      if sl in vvNew && m1[vvNew[sl]].nRefCount == 1 {
        assert SameEntry((m1 - {vvNew[sl]})[id], back[id]);
      }
    }
  }

  /** A known entry is refreshed, with no penalty if it announces itself, and gains at most the slot that the announcing
      source chooses. */
  lemma KnownMeans(e: Env, m: map<int, AddrInfo>, n: map<int, AddrInfo>, vvNew: map<Slot, int>, vvNew1: map<Slot, int>,
                   id: int, addr: Address, source: NetAddr, penalty: int, now: int, draw: nat)
    requires AddedKnown(e, m, n, vvNew, vvNew1, id, addr, source, penalty, now, draw)
    requires forall sl :: sl in vvNew ==> vvNew[sl] in m
    ensures id in m
    ensures
      var i := Refreshed(m[id], addr, if addr.service.ip == source then 0 else penalty, now);
      var b := NewBucket(e, m[id].addr, source);
      var sl := Slot(b, BucketPosition(e, m[id].addr, true, b));
      && (!MayMultiply(i, addr, draw) ==> n == m[id := i] && vvNew1 == vvNew)
      && (vvNew1 == vvNew || vvNew1 == vvNew[sl := id])
      && (MayMultiply(i, addr, draw) && sl !in vvNew ==> vvNew1 == vvNew[sl := id])
  {
    hide IsTerrible, NewBucket, BucketPosition, MayMultiply;
    var i := Refreshed(m[id], addr, if addr.service.ip == source then 0 else penalty, now);
    if MayMultiply(i, addr, draw) {
      BucketedMeans(m[id := i], n, vvNew, vvNew1, id, SourceSlot(e, i, source), now);
    }
  }

  // ---------------------------------------------------------------- attempts

  /** An attempt dates the last try, and counts as a failure at most once between two good connections to anyone. */
  lemma AttemptMeans(i: AddrInfo, countFailure: bool, time: int, lastGood: int)
    ensures
      var j := Attempted(i, countFailure, time, lastGood);
      var counts := countFailure && i.nLastCountAttempt < lastGood;
      && j == i.(nLastTry := time, nLastCountAttempt := j.nLastCountAttempt, nAttempts := j.nAttempts)
      && j.nAttempts == i.nAttempts + (if counts then 1 else 0)
      && j.nLastCountAttempt == (if counts then time else i.nLastCountAttempt)
    ensures time >= lastGood ==> forall again: int ::
      var j := Attempted(i, true, time, lastGood);
      Attempted(j, countFailure, again, lastGood).nAttempts == j.nAttempts
  {
  }

  // ---------------------------------------------------------------- promotions

  /** A good connection dates the last success and the last try, forgets the failures and leaves the time that is
      announced to others. At most ten collisions are remembered. */
  lemma GoodMeans(e: Env, m: map<int, AddrInfo>, n: map<int, AddrInfo>, vvNew: map<Slot, int>, vvNew1: map<Slot, int>,
                  vvTried: map<Slot, int>, vvTried1: map<Slot, int>, c: set<int>, c1: set<int>,
                  id: int, testBeforeEvict: bool, time: int)
    requires GoodStep(e, m, n, vvNew, vvNew1, vvTried, vvTried1, c, c1, id, testBeforeEvict, time)
    requires TriedOk(e, m, vvTried)
    ensures id in n && n[id].nLastSuccess == time && n[id].nLastTry == time && n[id].nAttempts == 0
    ensures n[id].addr == m[id].addr && n[id].nTime == m[id].nTime && n[id].source == m[id].source
    ensures n[id].nServices == m[id].nServices && n[id].nLastCountAttempt == m[id].nLastCountAttempt
    ensures n[id].fInTried <==> m[id].fInTried || !testBeforeEvict || TriedSlot(e, m[id].addr) !in vvTried
    ensures n[id].fInTried ==> TriedSlot(e, m[id].addr) in vvTried1 && vvTried1[TriedSlot(e, m[id].addr)] == id
    ensures c1 == if !n[id].fInTried && |c| < 10 then c + {id} else c
  {
    hide TriedSlot, HomeSlot;
    if !m[id].fInTried && !(testBeforeEvict && TriedSlot(e, m[id].addr) in vvTried) {
      var m1 := m[id := m[id].(nLastSuccess := time, nLastTry := time, nAttempts := 0)];
      PromotedMeans(e, m1, n, vvNew, vvNew1, vvTried, vvTried1, id);
    }
  }

  /** The entry leaves all its new slots for its tried slot; the one it displaces goes to the slot its own source
      chooses, with one reference. */
  lemma PromotedMeans(e: Env, m: map<int, AddrInfo>, n: map<int, AddrInfo>, vvNew: map<Slot, int>,
                      vvNew1: map<Slot, int>, vvTried: map<Slot, int>, vvTried1: map<Slot, int>, id: int)
    requires Promoted(e, m, n, vvNew, vvNew1, vvTried, vvTried1, id)
    ensures id in m && id in n && n[id].fInTried && n[id].nRefCount == 0
    ensures n[id] == m[id].(fInTried := true, nRefCount := 0, nRandomPos := n[id].nRandomPos)
    ensures vvTried1 == vvTried[TriedSlot(e, m[id].addr) := id]
    ensures forall sl :: sl in vvNew1 ==> vvNew1[sl] != id
    ensures
      var sl := TriedSlot(e, m[id].addr);
      sl in vvTried && vvTried[sl] in m ==>
        && var v := vvTried[sl];
        && v != id && v in n && !n[v].fInTried && n[v].nRefCount == 1
        && var home := NewSlot(e, m[v].addr, NewBucket(e, m[v].addr, m[v].source));
        && home in vvNew1 && vvNew1[home] == v
  {
    hide TriedSlot, NewBucket, BucketPosition;
    var sl := TriedSlot(e, m[id].addr);
    var m1 := m[id := m[id].(nRefCount := 0)];
    var n1 := n[id := n[id].(fInTried := false)];
    var left := vvNew - SlotsOf(vvNew, id);
    if sl in vvTried && vvTried[sl] in m1 {
      var v := vvTried[sl];
      EvictedOther(e, m1, n1, left, v, id);
    } else {
      assert n1[id] == m1[id];
    }
  }

  lemma EvictedOther(e: Env, m: map<int, AddrInfo>, n: map<int, AddrInfo>, vvNew: map<Slot, int>, v: int, id: int)
    requires Evicted(e, m, n, vvNew, v) && id in m && id in n && id != v
    requires forall sl :: sl in vvNew ==> vvNew[sl] != id
    ensures n[id] == m[id].(nRandomPos := n[id].nRandomPos)
    ensures !n[v].fInTried && n[v].nRefCount == 1
  {
    hide HomeSlot;
    var a, b, sl := m[v := m[v].(fInTried := false)], n[v := n[v].(nRefCount := 0)], HomeSlot(e, m[v]);
    assert id in a && id in b && v in a && v in b;
    if sl in vvNew && vvNew[sl] in a {
      var w := vvNew[sl];
      if a[w].nRefCount == 1 {
        assert SameEntry((a - {w})[id], b[id]);
        assert w != v ==> SameEntry((a - {w})[v], b[v]);
      }
    }
  }
}
