/** The address manager of src/addrman.{h,cpp}: its entries, its bucket functions and
    the clauses of its consistency invariant, stated on plain values.

    Hashes are parameters (the function fields of `Hasher`), clock readings and random
    draws are arguments, so every statement holds for every hash, clock and draw. */
module AddrModel {
  const TRIED_BUCKET_COUNT := 256
  const NEW_BUCKET_COUNT := 1024
  const BUCKET_SIZE := 64
  const TRIED_BUCKETS_PER_GROUP := 8
  const NEW_BUCKETS_PER_SOURCE_GROUP := 64
  const NEW_BUCKETS_PER_ADDRESS := 8
  const HORIZON_DAYS := 30
  const RETRIES := 3
  const MAX_FAILURES := 10
  const MIN_FAIL_DAYS := 7
  const REPLACEMENT_HOURS := 4
  const GETADDR_MAX_PCT := 23
  const GETADDR_MAX := 2500
  const SET_TRIED_COLLISION_SIZE := 10
  const TEST_WINDOW := 40 * 60

  type NetAddr = nat

  datatype Service = Service(ip: NetAddr, port: nat)

  datatype Address = Address(service: Service, nTime: int, nServices: set<nat>)

  datatype AddrInfo = AddrInfo(
    addr: Service,
    nTime: int,
    nServices: set<nat>,
    source: NetAddr,
    nLastSuccess: int,
    nAttempts: int,
    nLastTry: int,
    nLastCountAttempt: int,
    nRefCount: int,
    fInTried: bool,
    nRandomPos: int)

  /** An entry about nothing, as its constructor leaves it. */
  const BLANK := AddrInfo(Service(0, 0), 100_000_000, {}, 0, 0, 0, 0, 0, 0, false, -1)

  datatype Slot = Slot(bucket: nat, pos: nat)

  datatype Hasher = Hasher(
    addrHash: (nat, Service) -> nat,
    group: (seq<bool>, NetAddr) -> nat,
    triedHash: (nat, nat, nat) -> nat,
    groupHash: (nat, nat, nat) -> nat,
    newHash: (nat, nat, nat) -> nat,
    posHash: (nat, bool, nat, Service) -> nat,
    routable: NetAddr -> bool,
    valid: Service -> bool)

  /** What stays fixed during a run: the hash functions, the secret key, the AS map and
      whether ports tell entries apart. */
  datatype Env = Env(h: Hasher, key: nat, asmap: seq<bool>, ports: bool)

  // ---------------------------------------------------------------- bucket functions

  function TriedBucket(e: Env, a: Service): (b: nat)
    ensures b < TRIED_BUCKET_COUNT
  {
    var hash1 := e.h.addrHash(e.key, a);
    GroupChoice(e, e.h.group(e.asmap, a.ip), hash1 % TRIED_BUCKETS_PER_GROUP)
  }

  /** The `k`-th tried bucket open to network group `g`. */
  function GroupChoice(e: Env, g: nat, k: nat): (b: nat)
    ensures b < TRIED_BUCKET_COUNT
  {
    e.h.triedHash(e.key, g, k) % TRIED_BUCKET_COUNT
  }

  function NewBucket(e: Env, a: Service, src: NetAddr): (b: nat)
    ensures b < NEW_BUCKET_COUNT
  {
    var srcGroup := e.h.group(e.asmap, src);
    var hash1 := e.h.groupHash(e.key, e.h.group(e.asmap, a.ip), srcGroup);
    e.h.newHash(e.key, srcGroup, hash1 % NEW_BUCKETS_PER_SOURCE_GROUP) % NEW_BUCKET_COUNT
  }

  function BucketPosition(e: Env, a: Service, fNew: bool, bucket: nat): (p: nat)
    ensures p < BUCKET_SIZE
  {
    e.h.posHash(e.key, fNew, bucket, a) % BUCKET_SIZE
  }

  function TriedSlot(e: Env, a: Service): Slot {
    var b := TriedBucket(e, a);
    Slot(b, BucketPosition(e, a, false, b))
  }

  function NewSlot(e: Env, a: Service, bucket: nat): Slot {
    Slot(bucket, BucketPosition(e, a, true, bucket))
  }

  function Norm(e: Env, a: Service): Service {
    if e.ports then a else a.(port := 0)
  }

  function IsTerrible(i: AddrInfo, now: int): bool {
    if i.nLastTry != 0 && i.nLastTry >= now - 60 then false
    else if i.nTime > now + 10 * 60 then true
    else if i.nTime == 0 || now - i.nTime > HORIZON_DAYS * 24 * 60 * 60 then true
    else if i.nLastSuccess == 0 && i.nAttempts >= RETRIES then true
    else now - i.nLastSuccess > MIN_FAIL_DAYS * 24 * 60 * 60 && i.nAttempts >= MAX_FAILURES
  }

  // ---------------------------------------------------------------- the invariant

  ghost predicate OrderOk(info: map<int, AddrInfo>, order: seq<int>) {
    && (forall id :: id in info ==> 0 <= info[id].nRandomPos < |order| && order[info[id].nRandomPos] == id)
    && (forall i :: 0 <= i < |order| ==> order[i] in info && info[order[i]].nRandomPos == i)
  }

  ghost predicate AddrOk(e: Env, info: map<int, AddrInfo>, byAddr: map<Service, int>) {
    && (forall id :: id in info ==> Norm(e, info[id].addr) in byAddr && byAddr[Norm(e, info[id].addr)] == id)
    && (forall a :: a in byAddr ==> byAddr[a] in info && Norm(e, info[byAddr[a]].addr) == a)
  }

  ghost predicate NewTabOk(e: Env, info: map<int, AddrInfo>, vvNew: map<Slot, int>) {
    forall sl :: sl in vvNew ==>
      && sl.bucket < NEW_BUCKET_COUNT
      && vvNew[sl] in info
      && !info[vvNew[sl]].fInTried
      && sl == NewSlot(e, info[vvNew[sl]].addr, sl.bucket)
  }

  function SlotsOf(vvNew: map<Slot, int>, id: int): set<Slot> {
    set sl | sl in vvNew && vvNew[sl] == id
  }

  /** Reference counts are exact; `loose` entries are on neither table. */
  ghost predicate RefOk(info: map<int, AddrInfo>, vvNew: map<Slot, int>, loose: set<int>) {
    && (forall id :: id in loose ==> id in info && !info[id].fInTried && info[id].nRefCount == 0)
    && (forall id :: id in info && !info[id].fInTried ==>
      info[id].nRefCount == |SlotsOf(vvNew, id)| <= NEW_BUCKETS_PER_ADDRESS)
    && (forall id :: id in info && !info[id].fInTried && id !in loose ==> info[id].nRefCount >= 1)
    && (forall id :: id in info && info[id].fInTried ==> info[id].nRefCount == 0)
  }

  ghost predicate TriedOk(e: Env, info: map<int, AddrInfo>, vvTried: map<Slot, int>) {
    && (forall sl :: sl in vvTried ==>
      vvTried[sl] in info && info[vvTried[sl]].fInTried && sl == TriedSlot(e, info[vvTried[sl]].addr))
    && (forall id :: id in info && info[id].fInTried ==>
          TriedSlot(e, info[id].addr) in vvTried && vvTried[TriedSlot(e, info[id].addr)] == id)
  }

  /** Every remembered collision was a live id, and if it still lives then the tried
      slot it competes for is taken. */
  ghost predicate CollisionsOk(e: Env, info: map<int, AddrInfo>, vvTried: map<Slot, int>, idCount: int,
      collisions: set<int>) {
    && (forall id :: id in collisions ==> 0 <= id < idCount)
    && (forall id :: id in collisions && id in info ==> TriedSlot(e, info[id].addr) in vvTried)
  }

  ghost predicate IdsOk(info: map<int, AddrInfo>, idCount: int) {
    idCount >= 0 && forall id :: id in info ==> 0 <= id < idCount
  }

  function NewIds(info: map<int, AddrInfo>): set<int> {
    set id | id in info && !info[id].fInTried
  }

  function TriedIds(info: map<int, AddrInfo>): set<int> {
    set id | id in info && info[id].fInTried
  }

  /** The clauses of Check_ about time stamps. */
  ghost predicate TimesOk(info: map<int, AddrInfo>) {
    forall id :: id in info ==>
      && info[id].nLastTry >= 0
      && info[id].nLastSuccess >= 0
      && (info[id].fInTried ==> info[id].nLastSuccess != 0)
  }

  /** Every clause that neither counts entries nor speaks of the index by address. */
  ghost predicate FrameOk(e: Env, idCount: int, info: map<int, AddrInfo>, order: seq<int>,
                          vvNew: map<Slot, int>, vvTried: map<Slot, int>, loose: set<int>)
  {
    && IdsOk(info, idCount)
    && OrderOk(info, order)
    && NewTabOk(e, info, vvNew)
    && RefOk(info, vvNew, loose)
    && TriedOk(e, info, vvTried)
  }

  /** Every clause that does not count entries. */
  ghost predicate CoreOk(e: Env, idCount: int, info: map<int, AddrInfo>, byAddr: map<Service, int>, order: seq<int>,
                         vvNew: map<Slot, int>, vvTried: map<Slot, int>, loose: set<int>)
  {
    FrameOk(e, idCount, info, order, vvNew, vvTried, loose) && AddrOk(e, info, byAddr)
  }
}
