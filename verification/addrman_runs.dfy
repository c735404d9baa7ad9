/** Whole runs of the address manager, and what the invariant implies about any state a run reaches. */
module AddrRuns {
  import opened AddrModel
  import opened AddrSteps
  import opened AddrManager

  datatype Op =
    | Add(address: Address, source: NetAddr, penalty: int, now: int, draw: nat)
    | Good(addr: Service, testBeforeEvict: bool, now: int)
    | Attempt(addr: Service, countFailure: bool, now: int)
    | Connected(addr: Service, now: int)
    | SetServices(addr: Service, services: set<nat>)
    | GetAddr(now: int)
    | ResolveCollisions(now: int)
    | SelectTriedCollision(draw: nat)
    | Clear(key: nat)

  predicate Timely(op: Op) {
    match op
    case Good(_, _, now) => now > 0
    case Attempt(_, _, now) => now >= 0
    case ResolveCollisions(now) => now > 0
    case _ => true
  }

  /** The state of a manager, but for the random order and the index. */
  datatype World = World(env: Env, info: map<int, AddrInfo>, newTab: map<Slot, int>, triedTab: map<Slot, int>,
      collisions: set<int>, nIdCount: int, size: nat, nLastGood: int)

  ghost function Now(m: AddrMan): World
    reads m
  {
    World(m.env, m.mapInfo, m.newTab, m.triedTab, m.triedCollisions, m.nIdCount, |m.vRandom|, m.nLastGood)
  }

  /** The entry with exactly this address changes, if there is one, and nothing else. */
  ghost predicate OneEntry(s: World, t: World, addr: Service, change: AddrInfo -> AddrInfo) {
    && t == s.(info := t.info)
    && ((forall id :: id in s.info ==> s.info[id].addr != addr) ==> t.info == s.info)
    && forall id :: id in s.info && s.info[id].addr == addr ==> t.info == s.info[id := change(s.info[id])]
  }

  ghost predicate AddEffect(s: World, t: World, addr: Address, source: NetAddr, penalty: int, now: int, draw: nat) {
    && t.triedTab == s.triedTab && t.collisions == s.collisions && t.nLastGood == s.nLastGood
    && if !s.env.h.routable(addr.service.ip) then
         t.info == s.info && t.newTab == s.newTab && t.nIdCount == s.nIdCount
       else if forall id :: id in s.info ==> Norm(s.env, s.info[id].addr) != Norm(s.env, addr.service) then
         && t.nIdCount == s.nIdCount + 1
         && AddedFresh(s.env, s.info, t.info, s.newTab, t.newTab, s.nIdCount, s.size, addr, source, penalty, now)
       else
         && t.nIdCount == s.nIdCount
         && forall id :: id in s.info && Norm(s.env, s.info[id].addr) == Norm(s.env, addr.service) ==>
           AddedKnown(s.env, s.info, t.info, s.newTab, t.newTab, id, addr, source, penalty, now, draw)
  }

  ghost predicate GoodEffect(s: World, t: World, addr: Service, test: bool, now: int) {
    && t.nLastGood == now && t.nIdCount == s.nIdCount
    && ((forall id :: id in s.info ==> s.info[id].addr != addr) ==>
          t.info == s.info && t.newTab == s.newTab && t.triedTab == s.triedTab && t.collisions == s.collisions)
    && forall id :: id in s.info && s.info[id].addr == addr ==>
      GoodStep(s.env, s.info, t.info, s.newTab, t.newTab, s.triedTab, t.triedTab, s.collisions, t.collisions, id, test,
          now)
  }

  ghost predicate Lists(order: seq<int>, c: set<int>) {
    Ascending(order) && forall id :: id in order <==> id in c
  }

  /** The collisions have their turns one after the other, and exactly the postponed ones stay. */
  ghost predicate Resolves(s: World, t: World, now: int, order: seq<int>, shots: seq<Shot>) {
    && Lists(order, s.collisions) && Resolution(s.env, order, shots, now) && t.collisions <= s.collisions
    && shots[0] == Shot(s.info, s.newTab, s.triedTab) && shots[|order|] == Shot(t.info, t.newTab, t.triedTab)
    && forall i :: 0 <= i < |order| ==> (order[i] in t.collisions <==> Postponed(s.env, shots[i], order[i], now))
  }

  /** The collision drawn is dropped if it is dead; if its slot is empty, a blank entry is made. */
  ghost predicate Selects(s: World, t: World, draw: nat, order: seq<int>) {
    && Lists(order, s.collisions) && t == s.(info := t.info, collisions := t.collisions)
    && if order == [] then t.info == s.info && t.collisions == {}
       else
         var id := order[draw % |order|];
         if id !in s.info then t.info == s.info && t.collisions == s.collisions - {id}
         else
           && t.collisions == s.collisions
           && t.info == if TriedSlot(s.env, s.info[id].addr) in s.triedTab then s.info else s.info[-1 := BLANK]
  }

  /** What each operation does. */
  ghost predicate Effect(s: World, t: World, op: Op) {
    && t.env == (if op.Clear? then s.env.(key := op.key) else s.env)
    && match op
       case Add(address, source, penalty, now, draw) => AddEffect(s, t, address, source, penalty, now, draw)
       case Good(addr, test, now) => GoodEffect(s, t, addr, test, now)
       case Attempt(addr, count, now) => OneEntry(s, t, addr, i => Attempted(i, count, now, s.nLastGood))
       case Connected(addr, now) =>
         OneEntry(s, t, addr, (i: AddrInfo) => i.(nTime := if now - i.nTime > 1200 then now else i.nTime))
       case SetServices(addr, services) => OneEntry(s, t, addr, (i: AddrInfo) => i.(nServices := services))
       case GetAddr(_) => SameEntries(s.info, t.info) && t == s.(info := t.info)
       case ResolveCollisions(now) => exists order, shots :: Resolves(s, t, now, order, shots)
       case SelectTriedCollision(draw) => exists order :: Selects(s, t, draw, order)
       case Clear(_) => t == World(t.env, map[], map[], map[], s.collisions, 0, 0, 1)
  }

  predicate OnCollisions(op: Op) {
    op.ResolveCollisions? || op.SelectTriedCollision? || op.Clear?
  }

  /** An operation on entries. */
  method StepEntries(m: AddrMan, op: Op)
    requires m.Sound() && !OnCollisions(op)
    modifies m, m.vvNew, m.vvTried
    ensures m.Sound() && (old(m.Collided()) ==> m.Collided())
    ensures old(m.triedTab.Keys) <= m.triedTab.Keys && old(m.nIdCount) <= m.nIdCount
    ensures Effect(old(Now(m)), Now(m), op)
    ensures Timely(op) && old(TimesOk(m.mapInfo)) ==> TimesOk(m.mapInfo)
  {
    hide AddrMan.Sound, AddrMan.Collided, TimesOk, GoodStep, AddedKnown, AddedFresh, SameEntries, Norm, Attempted;
    match op
    case Add(address, source, penalty, now, draw) =>
      var fNew := m.Add(address, source, penalty, now, draw);
    case Good(addr, test, now) => m.Good(addr, test, now);
    case Attempt(addr, count, now) => m.Attempt(addr, count, now);
    case Connected(addr, now) => m.Connected(addr, now);
    case SetServices(addr, services) => m.SetServices(addr, services);
    case GetAddr(now) =>
      var addrs, ids := m.GetAddr(now);
      SameTimes(old(m.mapInfo), m.mapInfo);
  }

  /** Any operation. It goes wrong only if it picks a collision whose slot is empty, and that only after a Clear that
      left collisions behind. */
  method Step(m: AddrMan, op: Op) returns (ok: bool)
    requires m.Sound()
    modifies m, m.vvNew, m.vvTried
    ensures ok <==> m.Sound()
    ensures !ok ==> op.SelectTriedCollision? && !old(m.Collided())
    ensures !op.Clear? && old(m.Collided()) ==> ok && m.Collided()
    ensures op.Clear? ==> ok && (m.Collided() <==> old(m.triedCollisions) == {})
    ensures !op.Clear? ==> old(m.triedTab.Keys) <= m.triedTab.Keys && old(m.nIdCount) <= m.nIdCount
    ensures Effect(old(Now(m)), Now(m), op)
    ensures ok && Timely(op) && old(TimesOk(m.mapInfo)) ==> TimesOk(m.mapInfo)
  {
    hide AddrMan.Sound, AddrMan.Collided, TimesOk, OneEntry, AddEffect, GoodEffect, SameEntries, Resolution, Postponed;
    ok := true;
    match op
    case ResolveCollisions(now) =>
      ghost var order, shots := m.ResolveCollisions(now);
      assert Resolves(old(Now(m)), Now(m), now, order, shots);
    case SelectTriedCollision(draw) =>
      var r, held, order := m.SelectTriedCollision(draw);
      assert Selects(old(Now(m)), Now(m), draw, order);
      ok := held;
    case Clear(key) =>
      SoundTables(m);
      m.Clear(key);
      NoTimes();
    case _ => StepEntries(m, op);
  }

  lemma SoundTables(m: AddrMan)
    requires m.Sound()
    ensures m.Tables() && |m.triedCollisions| <= SET_TRIED_COLLISION_SIZE
  {}

  lemma NoTimes()
    ensures TimesOk(map[])
  {}

  lemma SameTimes(m: map<int, AddrInfo>, n: map<int, AddrInfo>)
    requires SameEntries(m, n)
    ensures TimesOk(m) ==> TimesOk(n)
  {
    forall id | id in n ensures id in m && SameEntry(m[id], n[id]) {}
  }

  predicate WithoutClear(ops: seq<Op>) {
    forall i :: 0 <= i < |ops| ==> !ops[i].Clear?
  }

  /** The states before a run and after each of its operations, as far as it gets: each operation has its effect. */
  ghost predicate Traces(trace: seq<World>, ops: seq<Op>, first: World, last: World) {
    && 1 <= |trace| <= |ops| + 1 && trace[0] == first && trace[|trace| - 1] == last
    && forall i :: 0 <= i < |trace| - 1 ==> Effect(trace[i], trace[i + 1], ops[i])
  }

  /** A tried slot once filled stays filled. */
  ghost predicate Growing(trace: seq<World>) {
    forall i, j :: 0 <= i <= j < |trace| ==> trace[i].triedTab.Keys <= trace[j].triedTab.Keys
  }

  lemma TraceStart(ops: seq<Op>, s: World)
    ensures Traces([s], ops, s, s) && Growing([s])
  {
  }

  lemma TraceNext(trace: seq<World>, ops: seq<Op>, first: World, last: World, t: World)
    requires Traces(trace, ops, first, last) && |trace| <= |ops| && Effect(last, t, ops[|trace| - 1])
    ensures Traces(trace + [t], ops, first, t)
    ensures Growing(trace) && last.triedTab.Keys <= t.triedTab.Keys ==> Growing(trace + [t])
  {
    hide Effect;
  }

  /** Any run from an empty manager, up to an operation that goes wrong: every operation has its effect on the state the
      last one left. Without Clear none goes wrong, the invariant holds and no tried slot is ever emptied. */
  method Run(e: Env, ops: seq<Op>) returns (m: AddrMan, ok: bool, ghost trace: seq<World>)
    ensures ok <==> m.Sound()
    ensures Traces(trace, ops, World(e, map[], map[], map[], {}, 0, 0, 1), Now(m)) && (ok ==> |trace| == |ops| + 1)
    ensures ok && (forall i :: 0 <= i < |ops| ==> Timely(ops[i])) ==> TimesOk(m.mapInfo)
    ensures WithoutClear(ops) ==> ok && m.Valid() && m.env == e && Growing(trace)
  {
    m := new AddrMan(e);
    hide AddrMan.Sound, AddrMan.Collided, Growing, Traces;
    ok, trace := Continue(m, ops);
  }

  /** The same from any state. */
  method Continue(m: AddrMan, ops: seq<Op>) returns (ok: bool, ghost trace: seq<World>)
    requires m.Sound()
    modifies m, m.vvNew, m.vvTried
    ensures ok <==> m.Sound()
    ensures Traces(trace, ops, old(Now(m)), Now(m)) && (ok ==> |trace| == |ops| + 1)
    ensures ok && (forall i :: 0 <= i < |ops| ==> Timely(ops[i])) && old(TimesOk(m.mapInfo)) ==> TimesOk(m.mapInfo)
    ensures WithoutClear(ops) && old(m.Collided()) ==> ok && m.Collided() && m.env == old(m.env) && Growing(trace)
  {
    ok, trace := true, [Now(m)];
    hide AddrMan.Sound, AddrMan.Collided, TimesOk, Growing, Traces, Effect;
    TraceStart(ops, Now(m));
    for k := 0 to |ops|
      invariant ok && m.Sound() && |trace| == k + 1 && Traces(trace, ops, old(Now(m)), Now(m))
      invariant (forall i :: 0 <= i < k ==> Timely(ops[i])) && old(TimesOk(m.mapInfo)) ==> TimesOk(m.mapInfo)
      invariant WithoutClear(ops) && old(m.Collided()) ==> m.Collided() && m.env == old(m.env) && Growing(trace)
    {
      ghost var was := Now(m);
      ok := Step(m, ops[k]);
      if !ops[k].Clear? {
        EffectKey(was, Now(m), ops[k]);
      }
      TraceNext(trace, ops, old(Now(m)), was, Now(m));
      trace := trace + [Now(m)];
      if !ok {
        return;
      }
    }
  }

  lemma EffectKey(s: World, t: World, op: Op)
    requires Effect(s, t, op) && !op.Clear?
    ensures t.env == s.env
  {
  }

  // ---------------------------------------------------------------- consequences

  /** The random order lists every entry once, so its length is the sum of the counters. */
  lemma SizeIsSum(m: AddrMan)
    requires m.Sound()
    ensures |m.vRandom| == m.nTried + m.nNew
  {
    OrderLength(m.mapInfo, m.vRandom);
    assert NewIds(m.mapInfo) + TriedIds(m.mapInfo) == m.mapInfo.Keys;
    assert NewIds(m.mapInfo) !! TriedIds(m.mapInfo);
  }

  lemma OrderLength(info: map<int, AddrInfo>, order: seq<int>)
    requires OrderOk(info, order)
    ensures |order| == |info.Keys|
  {
    forall i, j | 0 <= i < j < |order| ensures order[i] != order[j] {
      assert info[order[i]].nRandomPos == i && info[order[j]].nRandomPos == j;
    }
    DistinctLength(order);
    assert (set x | x in order) == info.Keys by {
      forall id | id in info ensures id in order {
        assert order[info[id].nRandomPos] == id;
      }
    }
  }

  lemma {:induction false} DistinctLength(s: seq<int>)
    requires forall i, j :: 0 <= i < j < |s| ==> s[i] != s[j]
    ensures |(set x | x in s)| == |s|
  {
    if s == [] {
      assert (set x | x in s) == {};
    } else {
      var n := |s| - 1;
      DistinctLength(s[..n]);
      assert (set x | x in s) == (set x | x in s[..n]) + {s[n]};
    }
  }

  /** The tried buckets that hold entries of one network group. */
  function GroupBuckets(e: Env, info: map<int, AddrInfo>, vvTried: map<Slot, int>, g: nat): set<nat> {
    set sl | sl in vvTried && vvTried[sl] in info && e.h.group(e.asmap, info[vvTried[sl]].addr.ip) == g :: sl.bucket
  }

  /** No network group ever occupies more than 8 of the 256 tried buckets. */
  lemma GroupBound(e: Env, info: map<int, AddrInfo>, vvTried: map<Slot, int>, g: nat)
    requires TriedOk(e, info, vvTried)
    ensures |GroupBuckets(e, info, vvTried, g)| <= 8
  {
    var choices := set k: nat | k < TRIED_BUCKETS_PER_GROUP :: GroupChoice(e, g, k);
    forall b | b in GroupBuckets(e, info, vvTried, g) ensures b in choices {
      var sl :| sl in vvTried && vvTried[sl] in info && e.h.group(e.asmap, info[vvTried[sl]].addr.ip) == g &&
          sl.bucket == b;
      var id := vvTried[sl];
      var k := e.h.addrHash(e.key, info[id].addr) % TRIED_BUCKETS_PER_GROUP;
      assert sl == TriedSlot(e, info[id].addr);
      assert b == GroupChoice(e, g, k);
    }
    ChoiceCount(e, g, TRIED_BUCKETS_PER_GROUP);
    Subset(GroupBuckets(e, info, vvTried, g), choices);
  }

  lemma {:induction false} ChoiceCount(e: Env, g: nat, n: nat)
    ensures |(set k: nat | k < n :: GroupChoice(e, g, k))| <= n
  {
    if n > 0 {
      ChoiceCount(e, g, n - 1);
      var last := GroupChoice(e, g, n - 1);
      assert (set k: nat | k < n :: GroupChoice(e, g, k))
          == (set k: nat | k < n - 1 :: GroupChoice(e, g, k)) + {last};
    } else {
      assert (set k: nat | k < n :: GroupChoice(e, g, k)) == {};
    }
  }

  lemma {:induction false} Subset(a: set<nat>, b: set<nat>)
    requires a <= b
    ensures |a| <= |b|
    decreases a
  {
    if a != {} {
      var x :| x in a;
      Subset(a - {x}, b - {x});
    }
  }

  /** What looking up an address gives: a missing one is entered with the id zero. */
  function LookedUp(byAddr: map<Service, int>, a: Service): int {
    if a in byAddr then byAddr[a] else 0
  }

  /** Check_ looks addresses up with their port. All are there if and only if every address is its own key, and the test
      passes if and only if every address but that of entry zero is. */
  lemma CheckedIndex(e: Env, info: map<int, AddrInfo>, byAddr: map<Service, int>)
    requires AddrOk(e, info, byAddr)
    ensures (forall id :: id in info ==> info[id].addr in byAddr && byAddr[info[id].addr] == id) <==>
            (forall id :: id in info ==> Norm(e, info[id].addr) == info[id].addr)
    ensures (forall id :: id in info ==> LookedUp(byAddr, info[id].addr) == id) <==>
            (forall id :: id in info ==> id == 0 || Norm(e, info[id].addr) == info[id].addr)
  {
    forall id | id in info ensures info[id].addr in byAddr <==> Norm(e, info[id].addr) == info[id].addr {
      if info[id].addr in byAddr {
        assert Norm(e, info[byAddr[info[id].addr]].addr) == info[id].addr;
      }
    }
    forall id | id in info && info[id].addr in byAddr ensures byAddr[info[id].addr] == id {
      assert byAddr[Norm(e, info[id].addr)] == id;
    }
  }
}
