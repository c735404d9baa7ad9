/** What Clear leaves behind, src/addrman.h: ids start again at zero, but the remembered collisions are kept. */
module AddrClear {
  import opened Wrappers
  import opened AddrModel
  import opened AddrSteps
  import opened AddrManager
  import opened AddrRuns

  /** Routable addresses that are told apart. */
  ghost predicate Peers(e: Env, pool: seq<Service>) {
    && (forall i :: 0 <= i < |pool| ==> e.h.routable(pool[i].ip))
    && (forall i, j :: 0 <= i < j < |pool| ==> Norm(e, pool[i]) != Norm(e, pool[j]))
  }

  /** The new slot of an address announced by `source`. */
  function HomeOf(e: Env, a: Service, source: NetAddr): Slot {
    NewSlot(e, a, NewBucket(e, a, source))
  }

  // ---------------------------------------------------------------- addresses that share a slot

  lemma {:induction false} Pigeons(codes: seq<int>, n: nat)
    requires |codes| > n && forall i :: 0 <= i < |codes| ==> 0 <= codes[i] < n
    ensures exists i, j :: 0 <= i < j < |codes| && codes[i] == codes[j]
  {
    if forall i, j :: 0 <= i < j < |codes| ==> codes[i] != codes[j] {
      DistinctLength(codes);
      Below((set x | x in codes), n);
    }
  }

  lemma {:induction false} Below(s: set<int>, n: nat)
    requires forall x :: x in s ==> 0 <= x < n
    ensures |s| <= n
  {
    if n == 0 {
      if s != {} {
        var x := PickOne(s);
      }
    } else {
      Below(s - {n - 1}, n - 1);
    }
  }

  function Code(sl: Slot): int {
    sl.bucket * BUCKET_SIZE + sl.pos
  }

  lemma CodeInjective(a: Slot, b: Slot)
    requires a.pos < BUCKET_SIZE && b.pos < BUCKET_SIZE && Code(a) == Code(b)
    ensures a == b
  {}

  /** Among more addresses than new slots, two share their new slot. */
  lemma SharedNew(e: Env, pool: seq<Service>, source: NetAddr)
    requires |pool| > NEW_BUCKET_COUNT * BUCKET_SIZE
    ensures exists i, j :: 0 <= i < j < |pool| && HomeOf(e, pool[i], source) == HomeOf(e, pool[j], source)
  {
    var codes := seq(|pool|, i requires 0 <= i < |pool| => Code(HomeOf(e, pool[i], source)));
    Pigeons(codes, NEW_BUCKET_COUNT * BUCKET_SIZE);
    var i, j :| 0 <= i < j < |codes| && codes[i] == codes[j];
    CodeInjective(HomeOf(e, pool[i], source), HomeOf(e, pool[j], source));
  }

  /** Among more addresses than tried slots, two share their tried slot. */
  lemma SharedTried(e: Env, pool: seq<Service>)
    requires |pool| > TRIED_BUCKET_COUNT * BUCKET_SIZE
    ensures exists i, j :: 0 <= i < j < |pool| && TriedSlot(e, pool[i]) == TriedSlot(e, pool[j])
  {
    var codes := seq(|pool|, i requires 0 <= i < |pool| => Code(TriedSlot(e, pool[i])));
    Pigeons(codes, TRIED_BUCKET_COUNT * BUCKET_SIZE);
    var i, j :| 0 <= i < j < |codes| && codes[i] == codes[j];
    CodeInjective(TriedSlot(e, pool[i]), TriedSlot(e, pool[j]));
  }

  // ---------------------------------------------------------------- ids after a Clear

  /** The only entry is `k`, an address without a time, in the slot `sl`. */
  ghost predicate Alone(info: map<int, AddrInfo>, vvNew: map<Slot, int>, k: int, a: Service, sl: Slot) {
    && info.Keys == {k} && vvNew == map[sl := k]
    && info[k].addr == a && info[k].nTime == 0 && info[k].nLastTry == 0 && info[k].nRefCount == 1 && !info[k].fInTried
  }

  /** An address without a time takes its slot from another one, which is then forgotten. */
  lemma Replaces(e: Env, m: map<int, AddrInfo>, n: map<int, AddrInfo>, vvNew: map<Slot, int>, vvNew1: map<Slot, int>,
                 id: int, randomPos: int, a: Service, b: Service, source: NetAddr, now: int)
    requires (m == map[] && vvNew == map[]) || Alone(m, vvNew, id - 1, a, HomeOf(e, b, source))
    requires AddedFresh(e, m, n, vvNew, vvNew1, id, randomPos, Address(b, 0, {}), source, 0, now)
    ensures Alone(n, vvNew1, id, b, HomeOf(e, b, source))
  {
    var sl := HomeOf(e, b, source);
    var i := NewEntry(Address(b, 0, {}), source, randomPos);
    var m1 := m[id := i];
    assert Bucketed(m1, n, vvNew, vvNew1, id, sl, now);
    hide HomeOf;
    var n1 := n[id := n[id].(nRefCount := 0)];
    assert n1.Keys == n.Keys;
    if sl in vvNew {
      assert SameEntries(m1 - {id - 1}, n1);
      assert SameEntry(m1[id], n1[id]);
    }
  }

  method AddOne(m: AddrMan, ghost a: Service, b: Service, source: NetAddr, now: int)
    requires m.Sound() && m.env.h.routable(b.ip)
    requires (m.mapInfo == map[] && m.newTab == map[]) ||
             (Norm(m.env, a) != Norm(m.env, b) &&
                 Alone(m.mapInfo, m.newTab, m.nIdCount - 1, a, HomeOf(m.env, b, source)))
    modifies m, m.vvNew, m.vvTried
    ensures m.Sound() && m.env == old(m.env) && m.triedTab == old(m.triedTab)
    ensures m.triedCollisions == old(m.triedCollisions)
    ensures m.nIdCount == old(m.nIdCount) + 1
    ensures Alone(m.mapInfo, m.newTab, m.nIdCount - 1, b, HomeOf(m.env, b, source))
  {
    hide AddrMan.Sound, AddrMan.Collided, AddedFresh, AddedKnown, TimesOk, HomeOf;
    var fNew := m.Add(Address(b, 0, {}), source, 0, now, 0);
    Replaces(m.env, old(m.mapInfo), m.mapInfo, old(m.newTab), m.newTab, old(m.nIdCount), |old(m.vRandom)|, a, b,
        source, now);
  }

  /** Announcing two addresses in turn gives every id in turn to a live entry, with nothing in the tried table. */
  method Alternate(m: AddrMan, a: Service, b: Service, source: NetAddr, now: int, last: nat)
    requires m.Sound() && m.nIdCount == 0 && m.mapInfo == map[] && m.newTab == map[]
    requires m.env.h.routable(a.ip) && m.env.h.routable(b.ip) && Norm(m.env, a) != Norm(m.env, b)
    requires HomeOf(m.env, a, source) == HomeOf(m.env, b, source)
    modifies m, m.vvNew, m.vvTried
    ensures m.Sound() && m.env == old(m.env) && m.triedTab == old(m.triedTab)
    ensures m.triedCollisions == old(m.triedCollisions)
    ensures last in m.mapInfo
  {
    hide AddrMan.Sound, HomeOf;
    var x, y := a, b;
    for k := 0 to last + 1
      invariant m.Sound() && m.env == old(m.env) && m.triedTab == old(m.triedTab)
      invariant m.triedCollisions == old(m.triedCollisions)
      invariant m.nIdCount == k && ((x == a && y == b) || (x == b && y == a))
      invariant if k == 0 then m.mapInfo == map[] && m.newTab == map[]
                else Alone(m.mapInfo, m.newTab, k - 1, y, HomeOf(m.env, a, source))
    {
      AddOne(m, y, x, source, now);
      x, y := y, x;
    }
  }

  // ---------------------------------------------------------------- when Clear is safe

  /** If nothing was remembered, a Clear is harmless whatever follows: it is a run from a new manager. */
  method SafeClear(m: AddrMan, key: nat, ops: seq<Op>) returns (ok: bool, ghost trace: seq<World>)
    requires m.Sound() && m.triedCollisions == {} && WithoutClear(ops)
    modifies m, m.vvNew, m.vvTried
    ensures ok && m.Valid()
    ensures Traces(trace, ops, World(old(m.env).(key := key), map[], map[], map[], {}, 0, 0, 1), Now(m))
    ensures |trace| == |ops| + 1
  {
    SoundTables(m);
    m.Clear(key);
    hide AddrMan.Sound, AddrMan.Collided, Traces;
    ok, trace := Continue(m, ops);
  }

  /** If anything was remembered, announcements alone lead to an id that is live again and competes for an empty slot,
      and picking it enters a blank entry. So exactly the empty set makes a Clear harmless. */
  method Provoke(m: AddrMan, key: nat, pool: seq<Service>, source: NetAddr, now: int) returns (ok: bool)
    requires m.Valid() && Peers(m.env, pool) && |pool| > NEW_BUCKET_COUNT * BUCKET_SIZE
    modifies m, m.vvNew, m.vvTried
    ensures ok <==> old(m.triedCollisions) == {}
    ensures ok <==> m.Sound()
    ensures !ok ==> -1 in m.mapInfo
  {
    hide AddrMan.Sound, AddrMan.Collided, HomeOf, Peers, Ascending;
    RealIds(m);
    SoundTables(m);
    PeersStill(m.env, key, pool);
    m.Clear(key);
    var ids := AscendingKeys(m.triedCollisions);
    if |ids| > 0 {
      assert ids[0] in ids;
      Refill(m, pool, source, now, ids[0]);
    }
    var r, held, order := m.SelectTriedCollision(0);
    SameFirst(ids, order);
    NoIds(ids, old(m.triedCollisions));
    ok := held;
  }

  lemma NoIds(s: seq<int>, c: set<int>)
    requires forall x :: x in s <==> x in c
    ensures s == [] <==> c == {}
  {
    if s != [] {
      var x := s[0];
      assert x in s;
    }
    if c != {} {
      var x := PickOne(c);
      assert x in s;
    }
  }

  lemma RealIds(m: AddrMan)
    requires m.Collided()
    ensures forall id :: id in m.triedCollisions ==> id >= 0
  {}

  lemma PeersStill(e: Env, key: nat, pool: seq<Service>)
    requires Peers(e, pool)
    ensures Peers(e.(key := key), pool)
  {}

  method Refill(m: AddrMan, pool: seq<Service>, source: NetAddr, now: int, last: nat)
    requires m.Sound() && m.nIdCount == 0 && m.mapInfo == map[] && m.newTab == map[]
    requires Peers(m.env, pool) && |pool| > NEW_BUCKET_COUNT * BUCKET_SIZE
    modifies m, m.vvNew, m.vvTried
    ensures m.Sound() && m.env == old(m.env) && m.triedTab == old(m.triedTab)
    ensures m.triedCollisions == old(m.triedCollisions)
    ensures last in m.mapInfo
  {
    hide AddrMan.Sound, HomeOf;
    SharedNew(m.env, pool, source);
    var i, j :| 0 <= i < j < |pool| && HomeOf(m.env, pool[i], source) == HomeOf(m.env, pool[j], source);
    Alternate(m, pool[i], pool[j], source, now, last);
  }

  lemma SameFirst(s: seq<int>, t: seq<int>)
    requires Ascending(s) && Ascending(t) && forall x :: x in s <==> x in t
    ensures (s == [] <==> t == []) && (s != [] ==> s[0] == t[0])
  {
    assert s != [] ==> s[0] in s && s[0] in t;
    assert t != [] ==> t[0] in t && t[0] in s;
  }

  lemma Promotion(e: Env, m: map<int, AddrInfo>, n: map<int, AddrInfo>, vvNew: map<Slot, int>, vvNew1: map<Slot, int>,
      vvTried1: map<Slot, int>,
                  c1: set<int>, a: Service, sl: Slot, time: int)
    requires Alone(m, vvNew, 0, a, sl) && GoodStep(e, m, n, vvNew, vvNew1, map[], vvTried1, {}, c1, 0, true, time)
    ensures n.Keys == {0} && n[0].addr == a && vvNew1 == map[] && vvTried1 == map[TriedSlot(e, a) := 0] && c1 == {}
  {
    hide TriedSlot;
    assert SlotsOf(vvNew, 0) == {sl};
    assert n[0 := n[0].(fInTried := false)].Keys == n.Keys;
  }

  lemma Second(e: Env, m: map<int, AddrInfo>, n: map<int, AddrInfo>, vvNew1: map<Slot, int>, randomPos: int,
      b: Service, source: NetAddr, now: int)
    requires m.Keys == {0} && AddedFresh(e, m, n, map[], vvNew1, 1, randomPos, Address(b, 0, {}), source, 0, now)
    ensures 1 in n && n[1].addr == b && !n[1].fInTried
  {
    hide NewSlot, NewBucket;
    var n1 := n[1 := n[1].(nRefCount := 0)];
    assert n1[1].addr == b && !n1[1].fInTried;
  }

  /** From a new manager: one address is tried, and another that shares its tried slot becomes a remembered
      collision. */
  method Collide(m: AddrMan, a: Service, b: Service, source: NetAddr, now: int)
    requires m.Valid() && m.mapInfo == map[] && m.newTab == map[] && m.triedTab == map[] && m.triedCollisions == {}
    requires m.nIdCount == 0
    requires m.env.h.routable(a.ip) && m.env.h.routable(b.ip) && Norm(m.env, a) != Norm(m.env, b)
    requires TriedSlot(m.env, a) == TriedSlot(m.env, b)
    modifies m, m.vvNew, m.vvTried
    ensures m.Valid() && m.env == old(m.env) && m.triedCollisions == {1}
  {
    hide AddrMan.Sound, AddedFresh, AddedKnown, GoodStep, TimesOk, HomeOf, TriedSlot;
    AddOne(m, a, a, source, now);
    ghost var info, tab := m.mapInfo, m.newTab;
    m.Good(a, true, now);
    Promotion(m.env, info, m.mapInfo, tab, m.newTab, m.triedTab, m.triedCollisions, a, HomeOf(m.env, a, source), now);
    info := m.mapInfo;
    ghost var place := |m.vRandom|;
    var fNew := m.Add(Address(b, 0, {}), source, 0, now, 0);
    Second(m.env, info, m.mapInfo, m.newTab, place, b, source, now);
    Remembered(m, b, now);
  }

  lemma NoneCollided(m: AddrMan)
    requires m.triedCollisions == {}
    ensures m.Collided()
  {}

  /** A good report for an address whose tried slot is taken. */
  method Remembered(m: AddrMan, b: Service, now: int)
    requires m.Sound() && m.triedCollisions == {} && 1 in m.mapInfo && m.mapInfo[1].addr == b && !m.mapInfo[1].fInTried
    requires TriedSlot(m.env, b) in m.triedTab
    modifies m, m.vvNew, m.vvTried
    ensures m.Valid() && m.env == old(m.env) && m.triedCollisions == {1}
  {
    hide AddrMan.Sound, AddrMan.Collided, TriedSlot, Promoted, TimesOk;
    NoneCollided(m);
    m.Good(b, true, now);
  }

  /** Such a state is reached from a new manager, whatever the hash functions and both keys, once there are more
      addresses than new slots. */
  method FromNew(e: Env, key: nat, pool: seq<Service>, source: NetAddr, now: int) returns (m: AddrMan)
    requires Peers(e, pool) && |pool| > NEW_BUCKET_COUNT * BUCKET_SIZE
    ensures !m.Sound() && -1 in m.mapInfo
  {
    hide AddrMan.Sound, AddrMan.Collided, TriedSlot;
    m := new AddrMan(e);
    SharedTried(e, pool);
    var i, j :| 0 <= i < j < |pool| && TriedSlot(e, pool[i]) == TriedSlot(e, pool[j]);
    Collide(m, pool[i], pool[j], source, now);
    var ok := Provoke(m, key, pool, source, now);
  }
}
