/** Compact blocks (BIP 152, src/blockencodings.cpp) on values: which slots a message leaves open and what
    fills them. */
module CompactModel {
  import opened Wrappers

  datatype Tx = Tx(hash: nat, body: nat, isNull: bool)

  /** A prefilled transaction; `index` is a 16-bit offset from the one before. */
  datatype Prefilled = Prefilled(index: nat, tx: Tx)

  /** A compact block message; `shortId` is the keyed hash of its header and nonce. */
  datatype Message = Message(headerNull: bool, shortId: nat -> nat, shorttxids: seq<nat>, prefilled: seq<Prefilled>)

  const MAX16 := 0xFFFF

  type Slots = seq<Option<Tx>>

  /** What a deserialized message guarantees. */
  predicate WellFormed(m: Message) {
    && |m.shorttxids| + |m.prefilled| <= MAX16
    && forall i :: 0 <= i < |m.prefilled| ==> m.prefilled[i].index <= MAX16
  }

  // ---------------------------------------------------------------- open slots

  /** The indices of the empty slots, in order. */
  function Open(a: Slots): (r: seq<nat>)
    ensures |r| <= |a|
  {
    if a == [] then [] else
      var n := |a| - 1;
      Open(a[..n]) + if a[n].None? then [n] else []
  }

  lemma {:induction false} OpenIndices(a: Slots)
    ensures forall i :: 0 <= i < |Open(a)| ==> Open(a)[i] < |a| && a[Open(a)[i]].None?
    ensures forall i, j :: 0 <= i < j < |Open(a)| ==> Open(a)[i] < Open(a)[j]
    ensures forall s :: 0 <= s < |a| && a[s].None? ==> s in Open(a)
  {
    if a != [] {
      var n := |a| - 1;
      OpenIndices(a[..n]);
      var r := Open(a[..n]);
      forall s | 0 <= s < |a| && a[s].None?
        ensures s in Open(a)
      {
        if s < n {
          assert a[..n][s].None?;
        } else {
          assert Open(a)[|r|] == n;
        }
      }
    }
  }

  lemma {:induction false} OpenAll(a: Slots)
    requires forall s :: 0 <= s < |a| ==> a[s].None?
    ensures |Open(a)| == |a|
  {
    if a != [] {
      OpenAll(a[..|a| - 1]);
    }
  }

  /** Filling an open slot leaves one slot fewer open. */
  lemma {:induction false} OpenFill(a: Slots, s: nat, tx: Tx)
    requires s < |a| && a[s].None?
    ensures |Open(a[s := Some(tx)])| == |Open(a)| - 1
  {
    var n := |a| - 1;
    if s == n {
      assert a[s := Some(tx)][..n] == a[..n];
    } else {
      assert a[s := Some(tx)][..n] == a[..n][s := Some(tx)];
      OpenFill(a[..n], s, tx);
    }
  }

  /** The open slots of a prefix come first. */
  lemma {:induction false} OpenPrefix(a: Slots, p: nat)
    requires p <= |a|
    ensures Open(a[..p]) <= Open(a)
  {
    if p == |a| {
      assert a[..p] == a;
    } else {
      var n := |a| - 1;
      OpenPrefix(a[..n], p);
      assert a[..n][..p] == a[..p];
    }
  }

  /** The next open slot at or after a position: the scan has passed the first `i` open slots. */
  lemma ScanStep(a: Slots, p: nat, i: nat)
    requires p <= |a| && |Open(a[..p])| == i < |Open(a)|
    ensures p < |a|
    ensures a[p].None? ==> Open(a)[i] == p && |Open(a[..p + 1])| == i + 1
    ensures a[p].Some? ==> |Open(a[..p + 1])| == i
  {
    assert a[..|a|] == a;
    assert p < |a|;
    assert a[..p + 1][..p] == a[..p];
    OpenPrefix(a, p + 1);
  }

  // ---------------------------------------------------------------- counting

  /** How many of the listed slots are filled. */
  function Filled(a: Slots, slots: seq<nat>): (n: nat)
    requires forall i :: 0 <= i < |slots| ==> slots[i] < |a|
    ensures n <= |slots|
  {
    if slots == [] then 0 else
      var m := |slots| - 1;
      Filled(a, slots[..m]) + if a[slots[m]].Some? then 1 else 0
  }

  ghost predicate Separate(slots: seq<nat>) {
    forall i, j :: 0 <= i < j < |slots| ==> slots[i] != slots[j]
  }

  lemma {:induction false} FilledElsewhere(a: Slots, slots: seq<nat>, s: nat, x: Option<Tx>)
    requires forall i :: 0 <= i < |slots| ==> slots[i] < |a| && slots[i] != s
    requires s < |a|
    ensures Filled(a[s := x], slots) == Filled(a, slots)
  {
    if slots != [] {
      FilledElsewhere(a, slots[..|slots| - 1], s, x);
    }
  }

  /** Filling an empty listed slot adds one, emptying a full one takes one away. */
  lemma {:induction false} FilledUpdate(a: Slots, slots: seq<nat>, j: nat, x: Option<Tx>)
    requires j < |slots| && Separate(slots) && forall i :: 0 <= i < |slots| ==> slots[i] < |a|
    ensures Filled(a[slots[j] := x], slots) + (if a[slots[j]].Some? then 1 else 0)
         == Filled(a, slots) + (if x.Some? then 1 else 0)
  {
    var m := |slots| - 1;
    if j == m {
      FilledElsewhere(a, slots[..m], slots[j], x);
    } else {
      FilledUpdate(a, slots[..m], j, x);
    }
  }

  lemma {:induction false} FilledNone(a: Slots, slots: seq<nat>)
    requires forall i :: 0 <= i < |slots| ==> slots[i] < |a| && a[slots[i]].None?
    ensures Filled(a, slots) == 0
  {
    if slots != [] {
      FilledNone(a, slots[..|slots| - 1]);
    }
  }

  // ---------------------------------------------------------------- prefilled slots

  /** Where the i-th prefilled transaction goes: the offsets add up, one slot further each time. */
  function Position(ps: seq<Prefilled>, i: nat): (p: int)
    requires i <= |ps|
    ensures p >= i - 1
  {
    if i == 0 then -1 else Position(ps, i - 1) + ps[i - 1].index + 1
  }

  /** The i-th prefilled transaction is one a message may carry. */
  predicate Fits(m: Message, i: nat)
    requires i < |m.prefilled|
  {
    !m.prefilled[i].tx.isNull && Position(m.prefilled, i + 1) <= MAX16 &&
        Position(m.prefilled, i + 1) <= |m.shorttxids| + i
  }

  predicate Accepted(m: Message) {
    forall i :: 0 <= i < |m.prefilled| ==> Fits(m, i)
  }

  /** Places and counts are 16-bit numbers. */
  lemma SixteenBits(m: Message, i: nat)
    requires i < |m.prefilled|
    ensures WellFormed(m) ==> |m.shorttxids| + |m.prefilled| <= 65535 && m.prefilled[i].index <= 65535
    ensures Position(m.prefilled, i + 1) > 65535 ==> !Accepted(m)
  {
    assert Accepted(m) ==> Fits(m, i);
  }

  function Blank(n: nat): (a: Slots)
    ensures |a| == n && forall s :: 0 <= s < n ==> a[s] == None
  {
    seq(n, _ => None)
  }

  /** The slots with the first `i` prefilled transactions in place. */
  function Laid(m: Message, i: nat): (a: Slots)
    requires i <= |m.prefilled| && forall j :: 0 <= j < i ==> Fits(m, j)
    ensures |a| == |m.shorttxids| + |m.prefilled|
    ensures forall s :: Position(m.prefilled, i) < s < |a| ==> a[s].None?
  {
    if i == 0 then Blank(|m.shorttxids| + |m.prefilled|)
    else
      assert Fits(m, i - 1);
      Laid(m, i - 1)[Position(m.prefilled, i) := Some(m.prefilled[i - 1].tx)]
  }

  /** Exactly the slots of the short ids stay open. */
  lemma {:induction false} LaidOpen(m: Message, i: nat)
    requires i <= |m.prefilled| && forall j :: 0 <= j < i ==> Fits(m, j)
    ensures |Open(Laid(m, i))| == |m.shorttxids| + |m.prefilled| - i
  {
    if i == 0 {
      OpenAll(Laid(m, 0));
    } else {
      LaidOpen(m, i - 1);
      assert Fits(m, i - 1);
      OpenFill(Laid(m, i - 1), Position(m.prefilled, i), m.prefilled[i - 1].tx);
    }
  }

  /** The slots of an accepted message, and the slot of each short id. */
  function Layout(m: Message): Slots
    requires Accepted(m)
  {
    Laid(m, |m.prefilled|)
  }

  function OpenSlots(m: Message): (r: seq<nat>)
    requires Accepted(m)
    ensures |r| == |m.shorttxids|
  {
    LaidOpen(m, |m.prefilled|);
    Open(Layout(m))
  }

  lemma OpenSlotsOk(m: Message)
    requires Accepted(m)
    ensures
      var a, r := Layout(m), OpenSlots(m);
      && (forall j :: 0 <= j < |r| ==> r[j] < |a| && a[r[j]].None?)
      && Separate(r)
      && (forall s :: 0 <= s < |a| && a[s].None? ==> s in r)
  {
    OpenIndices(Layout(m));
  }

  // ---------------------------------------------------------------- short ids

  ghost predicate DistinctIds(ids: seq<nat>) {
    forall i, j :: 0 <= i < j < |ids| ==> ids[i] != ids[j]
  }

  /** Each short id leads to its slot. */
  ghost predicate Indexed(ids: map<nat, nat>, short: seq<nat>, slots: seq<nat>) {
    && |short| <= |slots|
    && (forall i :: 0 <= i < |short| ==> short[i] in ids)
    && (forall k :: k in ids ==> exists i :: 0 <= i < |short| && short[i] == k && ids[k] == slots[i])
  }

  lemma IndexedStep(ids: map<nat, nat>, short: seq<nat>, slots: seq<nat>, i: nat)
    requires i < |short| <= |slots| && Indexed(ids, short[..i], slots)
    ensures Indexed(ids[short[i] := slots[i]], short[..i + 1], slots)
  {
    var more, next := ids[short[i] := slots[i]], short[..i + 1];
    forall k | k in more
      ensures exists j :: 0 <= j < |next| && next[j] == k && more[k] == slots[j]
    {
      if k == short[i] {
        assert next[i] == k;
      } else {
        var j :| 0 <= j < i && short[..i][j] == k && ids[k] == slots[j];
        assert next[j] == k;
      }
    }
    forall j | 0 <= j < |next|
      ensures next[j] in more
    {
      if j < i {
        assert next[j] == short[..i][j];
      }
    }
  }

  /** The map is as large as the list exactly if no short id occurs twice; then each id has its own slot. */
  lemma IndexedSize(ids: map<nat, nat>, short: seq<nat>, slots: seq<nat>)
    requires Indexed(ids, short, slots)
    ensures |ids| == |short| <==> DistinctIds(short)
    ensures DistinctIds(short) ==> forall i :: 0 <= i < |short| ==> ids[short[i]] == slots[i]
  {
    assert ids.Keys == IdSet(short);
    IdSetSize(short);
  }

  ghost function IdSet(s: seq<nat>): set<nat> {
    set k | k in s
  }

  lemma IdSetStep(s: seq<nat>)
    requires s != []
    ensures IdSet(s) == IdSet(s[..|s| - 1]) + {s[|s| - 1]}
  {
    assert s == s[..|s| - 1] + [s[|s| - 1]];
  }

  lemma {:induction false} IdSetSize(s: seq<nat>)
    ensures |IdSet(s)| <= |s|
    ensures |IdSet(s)| == |s| <==> DistinctIds(s)
  {
    if s != [] {
      var n := |s| - 1;
      var rest := s[..n];
      IdSetSize(rest);
      IdSetStep(s);
      if s[n] in rest {
        var i :| 0 <= i < n && rest[i] == s[n];
        assert s[i] == s[n];
        assert IdSet(rest) + {s[n]} == IdSet(rest);
      } else {
        assert s[n] !in IdSet(rest);
        assert forall i :: 0 <= i < n ==> s[i] == rest[i];
      }
    }
  }

  lemma {:induction false} FilledAll(a: Slots, slots: seq<nat>)
    requires forall i :: 0 <= i < |slots| ==> slots[i] < |a|
    requires Filled(a, slots) == |slots|
    ensures forall i :: 0 <= i < |slots| ==> a[slots[i]].Some?
  {
    if slots != [] {
      FilledAll(a, slots[..|slots| - 1]);
    }
  }

  // ---------------------------------------------------------------- blocks

  /** The message is one for this block. */
  ghost predicate Describes(m: Message, block: seq<Tx>) {
    && Accepted(m) && |block| == |Layout(m)|
    && (forall s :: 0 <= s < |block| && Layout(m)[s].Some? ==> Layout(m)[s].value == block[s])
    && (forall j :: 0 <= j < |m.shorttxids| ==>
      OpenSlots(m)[j] < |block| && m.shorttxids[j] == m.shortId(block[OpenSlots(m)[j]].hash))
  }

  /** The short ids of all transactions but the first. */
  function ShortIds(block: seq<Tx>, shortId: nat -> nat): (r: seq<nat>)
    requires block != []
    ensures |r| == |block| - 1 && forall i :: 0 <= i < |r| ==> r[i] == shortId(block[i + 1].hash)
  {
    if |block| == 1 then [] else ShortIds(block[..|block| - 1], shortId) + [shortId(block[|block| - 1].hash)]
  }

  /** The compact block constructor: the coinbase is prefilled, everything else becomes a short id. */
  function Encode(block: seq<Tx>, shortId: nat -> nat): Message
    requires block != []
  {
    Message(false, shortId, ShortIds(block, shortId), [Prefilled(0, block[0])])
  }

  lemma {:induction false} OpenAfterFirst(a: Slots)
    requires a != [] && a[0].Some? && forall s :: 0 < s < |a| ==> a[s].None?
    ensures |Open(a)| == |a| - 1 && forall j :: 0 <= j < |a| - 1 ==> Open(a)[j] == j + 1
  {
    var n := |a| - 1;
    if n == 0 {
      assert a[..0] == [];
    } else {
      OpenAfterFirst(a[..n]);
    }
  }

  lemma EncodeDescribes(block: seq<Tx>, shortId: nat -> nat)
    requires block != [] && !block[0].isNull
    ensures Describes(Encode(block, shortId), block)
    ensures |block| <= MAX16 ==> WellFormed(Encode(block, shortId))
  {
    var m := Encode(block, shortId);
    assert Position(m.prefilled, 1) == 0;
    assert Fits(m, 0);
    assert Layout(m) == Laid(m, 0)[0 := Some(block[0])];
    OpenAfterFirst(Layout(m));
  }

  // ---------------------------------------------------------------- any choice of prefilled transactions

  ghost predicate Rising(a: seq<nat>) {
    forall i, j :: 0 <= i < j < |a| ==> a[i] < a[j]
  }

  /** The message carries the transactions at `places` in full, each place sent as its distance from the one before, and
      the short ids of those at `rest`. */
  ghost predicate Sends(m: Message, block: seq<Tx>, places: seq<nat>, rest: seq<nat>) {
    && |m.prefilled| == |places| && |m.shorttxids| == |rest| && |places| + |rest| == |block| <= 0xFFFF
    && Rising(places) && Rising(rest)
    && (forall s: nat :: s in rest <==> s < |block| && s !in places)
    && (forall i :: 0 <= i < |places| ==> places[i] < |block|)
    && (forall j :: 0 <= j < |rest| ==> rest[j] < |block|)
    && (forall i :: 0 <= i < |places| ==>
      m.prefilled[i].tx == block[places[i]] && !block[places[i]].isNull &&
      m.prefilled[i].index == if i == 0 then places[i] else places[i] - places[i - 1] - 1)
    && (forall j :: 0 <= j < |rest| ==> m.shorttxids[j] == m.shortId(block[rest[j]].hash))
  }

  lemma {:induction false} SentPosition(m: Message, block: seq<Tx>, places: seq<nat>, rest: seq<nat>, i: nat)
    requires Sends(m, block, places, rest) && i < |places|
    ensures Position(m.prefilled, i + 1) == places[i]
  {
    var back := if i == 0 then 0 else places[i - 1] + 1;
    assert m.prefilled[i].index == places[i] - back;
    if i > 0 {
      SentPosition(m, block, places, rest, i - 1);
    }
  }

  lemma SentFormed(m: Message, block: seq<Tx>, places: seq<nat>, rest: seq<nat>)
    requires Sends(m, block, places, rest)
    ensures WellFormed(m)
  {
    forall i | 0 <= i < |places|
      ensures m.prefilled[i].index <= MAX16
    {
      var p := places[i];
      var back := if i == 0 then 0 else places[i - 1] + 1;
      assert m.prefilled[i].index == p - back && p < |block|;
    }
  }

  lemma {:induction false} RisingRoom(a: seq<nat>, n: nat, i: nat)
    requires Rising(a) && i < |a| && forall j :: 0 <= j < |a| ==> a[j] < n
    ensures a[i] + |a| <= n + i
    decreases |a| - i
  {
    if i + 1 < |a| {
      RisingRoom(a, n, i + 1);
    }
  }

  lemma SentAccepted(m: Message, block: seq<Tx>, places: seq<nat>, rest: seq<nat>)
    requires Sends(m, block, places, rest)
    ensures Accepted(m)
  {
    forall i | 0 <= i < |places|
      ensures Fits(m, i)
    {
      SentPosition(m, block, places, rest, i);
      RisingRoom(places, |block|, i);
    }
  }

  /** The slots hold the block's transactions at these places and nothing else. */
  ghost predicate Holds(a: Slots, block: seq<Tx>, places: seq<nat>) {
    |a| == |block| && forall s :: 0 <= s < |a| ==> a[s] == if s in places then Some(block[s]) else None
  }

  lemma HoldsMore(a: Slots, block: seq<Tx>, places: seq<nat>, p: nat)
    requires Holds(a, block, places) && p < |a|
    ensures Holds(a[p := Some(block[p])], block, places + [p])
  {
  }

  lemma {:induction false} SentLaid(m: Message, block: seq<Tx>, places: seq<nat>, rest: seq<nat>, i: nat)
    requires Sends(m, block, places, rest) && i <= |places| && Accepted(m)
    ensures Holds(Laid(m, i), block, places[..i])
  {
    hide Open, Position;
    if i == 0 {
      assert places[..0] == [];
    } else {
      SentLaid(m, block, places, rest, i - 1);
      SentPosition(m, block, places, rest, i - 1);
      hide Holds;
      var a, p := Laid(m, i - 1), places[i - 1];
      assert Fits(m, i - 1);
      assert Laid(m, i) == a[p := Some(block[p])];
      assert places[..i] == places[..i - 1] + [p];
      HoldsMore(a, block, places[..i - 1], p);
    }
  }

  lemma SplitLast(a: seq<nat>)
    requires a != [] && Rising(a)
    ensures a == a[..|a| - 1] + [a[|a| - 1]]
    ensures Rising(a[..|a| - 1]) && forall s :: s in a[..|a| - 1] <==> s in a && s != a[|a| - 1]
  {
  }

  lemma {:induction false} SameRising(a: seq<nat>, b: seq<nat>)
    requires |a| == |b| && Rising(a) && Rising(b) && forall s :: s in a <==> s in b
    ensures a == b
  {
    if a != [] {
      var n := |a| - 1;
      assert a[n] in b && b[n] in a;
      assert a[n] == b[n];
      SplitLast(a);
      SplitLast(b);
      hide *;
      forall s
        ensures s in a[..n] <==> s in b[..n]
      {
        assert s in a[..n] <==> s in a && s != a[n];
        assert s in b[..n] <==> s in b && s != b[n];
      }
      SameRising(a[..n], b[..n]);
    }
  }

  /** Whatever places a sender fills in, the message is one for the block: it has those transactions in those slots, and
      leaves open exactly the slots of its short ids, in order. */
  lemma SentDescribes(m: Message, block: seq<Tx>, places: seq<nat>, rest: seq<nat>)
    requires Sends(m, block, places, rest)
    ensures WellFormed(m) && Describes(m, block)
    ensures Holds(Layout(m), block, places) && OpenSlots(m) == rest
  {
    SentFormed(m, block, places, rest);
    hide Position, Open;
    SentAccepted(m, block, places, rest);
    SentLaid(m, block, places, rest, |places|);
    assert places[..|places|] == places;
    OpenSlotsOk(m);
    OpenIndices(Layout(m));
    SameRising(OpenSlots(m), rest);
  }

  /** The transactions of the open slots, in order. */
  ghost function Missing(block: seq<Tx>, a: Slots): (r: seq<Tx>)
    requires |block| == |a|
    ensures |r| == |Open(a)|
  {
    if a == [] then [] else
      var n := |a| - 1;
      Missing(block[..n], a[..n]) + if a[n].None? then [block[n]] else []
  }

  /** The slots with the open ones filled from a list, in order. */
  function Woven(a: Slots, missing: seq<Tx>): (r: seq<Tx>)
    requires |Open(a)| <= |missing|
    ensures |r| == |a|
  {
    if a == [] then [] else
      var n := |a| - 1;
      Woven(a[..n], missing) + [if a[n].Some? then a[n].value else missing[|Open(a[..n])|]]
  }

  /** One slot further. */
  lemma WeaveStep(a: Slots, i: nat, missing: seq<Tx>)
    requires i < |a| && |Open(a[..i])| <= |missing|
    ensures |Open(a[..i + 1])| == |Open(a[..i])| + if a[i].None? then 1 else 0
    ensures |Open(a[..i + 1])| <= |missing| ==>
      Woven(a[..i + 1], missing) ==
          Woven(a[..i], missing) + [if a[i].Some? then a[i].value else missing[|Open(a[..i])|]]
  {
    assert a[..i + 1][..i] == a[..i];
  }

  lemma {:induction false} WovenPrefix(a: Slots, missing: seq<Tx>, more: seq<Tx>)
    requires |Open(a)| <= |missing| && missing <= more
    ensures Woven(a, missing) == Woven(a, more)
  {
    if a != [] {
      WovenPrefix(a[..|a| - 1], missing, more);
    }
  }

  lemma WovenLast(a: Slots, n: nat, missing: seq<Tx>)
    requires |a| == n + 1 && |Open(a)| <= |missing|
    ensures |Open(a)| == |Open(a[..n])| + if a[n].None? then 1 else 0
    ensures Woven(a, missing) == Woven(a[..n], missing) + [if a[n].Some? then a[n].value else missing[|Open(a[..n])|]]
  {
  }

  lemma MissingLast(block: seq<Tx>, a: Slots, n: nat)
    requires |block| == |a| == n + 1
    ensures Missing(block, a) == Missing(block[..n], a[..n]) + if a[n].None? then [block[n]] else []
  {
  }

  /** If every filled slot is right, the block's own missing transactions complete it. */
  lemma {:induction false} WovenBlock(a: Slots, block: seq<Tx>)
    requires |a| == |block| && forall s :: 0 <= s < |a| && a[s].Some? ==> a[s].value == block[s]
    ensures Woven(a, Missing(block, a)) == block
  {
    if a != [] {
      hide Woven, Missing, Open;
      var n := |a| - 1;
      var b, rest, all := a[..n], block[..n], Missing(block, a);
      WovenBlock(b, rest);
      MissingLast(block, a, n);
      WovenLast(a, n, all);
      var before := Missing(rest, b);
      assert before <= all && (a[n].None? ==> all[|before|] == block[n]);
      WovenPrefix(b, before, all);
      assert Woven(a, all) == rest + [block[n]] == block;
    }
  }
}
