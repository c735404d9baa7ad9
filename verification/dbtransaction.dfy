/** The database transaction overlay of src/dbwrapper.h and its merging iterator. */
module DbTransaction {
  import opened Wrappers

  type Byte = x: int | 0 <= x < 256
  type Key = seq<Byte>

  /** A typed value; `size` is its serialized length. */
  datatype Value = Value(kind: nat, payload: nat, size: nat)

  datatype Reading = Missing | Found(value: Value) | Threw

  // ---------------------------------------------------------------- byte order

  /** Lexicographic order on unsigned bytes. */
  predicate Less(a: Key, b: Key) {
    b != [] && (a == [] || a[0] < b[0] || (a[0] == b[0] && Less(a[1..], b[1..])))
  }

  /** The keys agree before place k, and there the first is at its end or has the smaller byte. */
  ghost predicate SplitAt(a: Key, b: Key, k: nat) {
    k <= |a| && k < |b| && a[..k] == b[..k] && (k == |a| || a[k] < b[k])
  }

  /** std::lexicographical_compare */
  ghost predicate Before(a: Key, b: Key) {
    exists k: nat :: SplitAt(a, b, k)
  }

  lemma {:induction false} LessMeans(a: Key, b: Key)
    ensures Less(a, b) <==> Before(a, b)
  {
    if Less(a, b) {
      var k := SplitPlace(a, b);
    }
    if Before(a, b) {
      var k: nat :| SplitAt(a, b, k);
      SplitLess(a, b, k);
    }
  }

  lemma {:induction false} SplitPlace(a: Key, b: Key) returns (k: nat)
    requires Less(a, b)
    ensures SplitAt(a, b, k)
  {
    if a == [] || a[0] < b[0] {
      k := 0;
    } else {
      var j := SplitPlace(a[1..], b[1..]);
      k := j + 1;
      assert a[..k] == [a[0]] + a[1..][..j] && b[..k] == [b[0]] + b[1..][..j];
    }
  }

  lemma {:induction false} SplitLess(a: Key, b: Key, k: nat)
    requires SplitAt(a, b, k)
    ensures Less(a, b)
  {
    if k > 0 {
      assert a[0] == a[..k][0] == b[..k][0] == b[0];
      assert a[1..][..k - 1] == a[..k][1..] == b[..k][1..] == b[1..][..k - 1];
      SplitLess(a[1..], b[1..], k - 1);
    }
  }

  lemma {:induction false} LessTotal(a: Key, b: Key)
    ensures Less(a, b) || a == b || Less(b, a)
  {
    if a != [] && b != [] && a[0] == b[0] {
      LessTotal(a[1..], b[1..]);
      assert a == [a[0]] + a[1..] && b == [b[0]] + b[1..];
    }
  }

  lemma {:induction false} LessStrict(a: Key, b: Key)
    requires Less(a, b)
    ensures a != b && !Less(b, a)
  {
    if a != [] && a[0] == b[0] {
      LessStrict(a[1..], b[1..]);
    }
  }

  lemma {:induction false} LessTransitive(a: Key, b: Key, c: Key)
    requires Less(a, b) && Less(b, c)
    ensures Less(a, c)
  {
    if a != [] && a[0] == b[0] == c[0] {
      LessTransitive(a[1..], b[1..], c[1..]);
    }
  }

  predicate Least(k: Key, s: set<Key>) {
    k in s && forall x :: x in s && x != k ==> Less(k, x)
  }

  lemma LeastExists(s: set<Key>)
    requires s != {}
    ensures exists k :: Least(k, s)
    decreases |s|
  {
    var x := PickOne(s);
    if s == {x} {
      assert Least(x, s);
    } else {
      var rest := s - {x};
      assert s == rest + {x};
      LeastExists(rest);
      var m :| Least(m, rest);
      LessTotal(m, x);
      if Less(m, x) {
        assert Least(m, s);
      } else {
        forall y | y in s && y != x
          ensures Less(x, y)
        {
          if y != m {
            LessTransitive(x, m, y);
          }
        }
        assert Least(x, s);
      }
    }
  }

  lemma LeastUnique(s: set<Key>, k: Key, m: Key)
    requires Least(k, s) && Least(m, s)
    ensures k == m
  {
    if k != m {
      LessStrict(k, m);
    }
  }

  ghost function Minimum(s: set<Key>): (k: Key)
    requires s != {}
    ensures Least(k, s)
  {
    LeastExists(s);
    var k :| Least(k, s);
    k
  }

  /** Strictly increasing. */
  ghost predicate Ascending(s: seq<Key>) {
    forall i, j :: 0 <= i < j < |s| ==> Less(s[i], s[j])
  }

  lemma AscendingMeans(s: seq<Key>)
    requires Ascending(s)
    ensures forall i, j :: 0 <= i < j < |s| ==> Before(s[i], s[j])
  {
    hide Less, Before;
    forall i, j | 0 <= i < j < |s|
      ensures Before(s[i], s[j])
    {
      LessMeans(s[i], s[j]);
    }
  }

  ghost function Elements(s: seq<Key>): set<Key> {
    set k | k in s
  }

  /** The keys of a set in order. */
  ghost function Sorted(s: set<Key>): seq<Key>
    decreases |s|
  {
    if s == {} then [] else [Minimum(s)] + Sorted(s - {Minimum(s)})
  }

  lemma {:induction false} SortedOrders(s: set<Key>)
    ensures Ascending(Sorted(s)) && Elements(Sorted(s)) == s
    decreases |s|
  {
    if s != {} {
      var m := Minimum(s);
      var rest := Sorted(s - {m});
      SortedOrders(s - {m});
      AscendingCons(m, rest);
    }
  }

  lemma AscendingCons(m: Key, rest: seq<Key>)
    requires Ascending(rest) && forall k :: k in Elements(rest) ==> Less(m, k)
    ensures Ascending([m] + rest) && Elements([m] + rest) == {m} + Elements(rest)
  {
    var s := [m] + rest;
    forall i, j | 0 <= i < j < |s|
      ensures Less(s[i], s[j])
    {
      assert s[j] == rest[j - 1] && rest[j - 1] in Elements(rest);
      if i > 0 {
        assert s[i] == rest[i - 1];
      }
    }
  }

  // ---------------------------------------------------------------- memory

  /** What the entries of the given keys take: their keys and, where there is one, their value. */
  ghost function Total(keys: set<Key>, m: map<Key, Value>): nat
    decreases |keys|
  {
    if keys == {} then 0 else
      var k := Minimum(keys);
      Weight(k, m) + Total(keys - {k}, m)
  }

  function Weight(k: Key, m: map<Key, Value>): nat {
    |k| + if k in m then m[k].size else 0
  }

  lemma {:induction false} TotalWithout(keys: set<Key>, m: map<Key, Value>, k: Key)
    requires k in keys
    ensures Total(keys, m) == Weight(k, m) + Total(keys - {k}, m)
    decreases |keys|
  {
    var x := Minimum(keys);
    if x != k {
      var rest := keys - {x};
      TotalWithout(rest, m, k);
      var other := keys - {k};
      assert Least(x, other);
      LeastUnique(other, x, Minimum(other));
      assert rest - {k} == other - {x};
    }
  }

  lemma {:induction false} TotalAgrees(keys: set<Key>, m: map<Key, Value>, n: map<Key, Value>)
    requires forall k :: k in keys ==> Weight(k, m) == Weight(k, n)
    ensures Total(keys, m) == Total(keys, n)
    decreases |keys|
  {
    if keys != {} {
      TotalAgrees(keys - {Minimum(keys)}, m, n);
    }
  }

  /** The memory of a transaction. */
  ghost function Usage(writes: map<Key, Value>, deletes: set<Key>): nat {
    Total(writes.Keys, writes) + Total(deletes, map[])
  }

  lemma UsageUndelete(writes: map<Key, Value>, deletes: set<Key>, k: Key)
    requires k in deletes
    ensures Usage(writes, deletes) == Usage(writes, deletes - {k}) + |k|
  {
    TotalWithout(deletes, map[], k);
  }

  lemma UsageDelete(writes: map<Key, Value>, deletes: set<Key>, k: Key)
    requires k !in deletes
    ensures Usage(writes, deletes + {k}) == Usage(writes, deletes) + |k|
  {
    TotalWithout(deletes + {k}, map[], k);
    assert deletes + {k} - {k} == deletes;
  }

  lemma UsageUnwrite(writes: map<Key, Value>, deletes: set<Key>, k: Key)
    requires k in writes
    ensures Usage(writes, deletes) == Usage(writes - {k}, deletes) + |k| + writes[k].size
  {
    TotalWithout(writes.Keys, writes, k);
    assert (writes - {k}).Keys == writes.Keys - {k};
    TotalAgrees(writes.Keys - {k}, writes, writes - {k});
  }

  lemma UsageWrite(writes: map<Key, Value>, deletes: set<Key>, k: Key, v: Value)
    ensures Usage(writes[k := v], deletes) == Usage(writes - {k}, deletes) + |k| + v.size
  {
    UsageUnwrite(writes[k := v], deletes, k);
    assert writes[k := v] - {k} == writes - {k};
  }

  // ---------------------------------------------------------------- databases and batches

  datatype Change = Set(k: Key, v: Value) | Unset(k: Key)

  function Changed(data: map<Key, Value>, c: Change): map<Key, Value> {
    if c.Set? then data[c.k := c.v] else data - {c.k}
  }

  /** The contents after a list of changes. */
  function Applied(data: map<Key, Value>, changes: seq<Change>): map<Key, Value> {
    if changes == [] then data
    else Changed(Applied(data, changes[..|changes| - 1]), changes[|changes| - 1])
  }

  lemma AppliedOne(data: map<Key, Value>, changes: seq<Change>, c: Change)
    ensures Applied(data, changes + [c]) == Changed(Applied(data, changes), c)
  {
    assert (changes + [c])[..|changes|] == changes;
  }

  /** CDBBatch: changes that are collected to be written at once. */
  class Batch {
    var changes: seq<Change>

    constructor ()
      ensures changes == []
    {
      changes := [];
    }

    method Write(k: Key, v: Value)
      modifies this
      ensures changes == old(changes) + [Set(k, v)]
    {
      changes := changes + [Set(k, v)];
    }

    method Erase(k: Key)
      modifies this
      ensures changes == old(changes) + [Unset(k)]
    {
      changes := changes + [Unset(k)];
    }

    method Clear()
      modifies this
      ensures changes == []
    {
      changes := [];
    }
  }

  /** The database. `cast` reads a stored value as another type; reading it as its own type gives it back. */
  class Store {
    const cast: (Value, nat) -> Reading
    var data: map<Key, Value>

    constructor (cast: (Value, nat) -> Reading, data: map<Key, Value>)
      ensures this.cast == cast && this.data == data
    {
      this.cast, this.data := cast, data;
    }

    ghost predicate Sound() {
      forall v: Value :: cast(v, v.kind) == Found(v)
    }

    method Read(k: Key, kind: nat) returns (r: Reading)
      ensures r == if k in data then cast(data[k], kind) else Missing
    {
      r := if k in data then cast(data[k], kind) else Missing;
    }

    method WriteBatch(batch: Batch)
      modifies this
      ensures data == Applied(old(data), batch.changes)
    {
      for i := 0 to |batch.changes|
        invariant data == Applied(old(data), batch.changes[..i])
      {
        assert batch.changes[..i + 1][..i] == batch.changes[..i];
        var c := batch.changes[i];
        data := if c.Set? then data[c.k := c.v] else data - {c.k};
      }
      assert batch.changes[..|batch.changes|] == batch.changes;
    }
  }

  // ---------------------------------------------------------------- transactions

  /** What a store looks like below pending writes and deletes. */
  function Overlaid(data: map<Key, Value>, writes: map<Key, Value>, deletes: set<Key>): map<Key, Value> {
    (data - deletes) + writes
  }

  /** CDBTransaction. A root transaction (`below` is null) reads from the database and commits to a batch; any other
      reads from the root transaction below it and commits to that. */
  class Transaction {
    const below: Transaction?
    const db: Store
    const batch: Batch
    var writes: map<Key, Value>
    var deletes: set<Key>
    var memoryUsage: int

    /** No key is both written and deleted, and the memory is accounted for exactly. */
    ghost predicate Accounted()
      reads this
    {
      writes.Keys !! deletes && memoryUsage == Usage(writes, deletes)
    }

    ghost predicate Valid()
      reads this, below
    {
      Accounted() && (below != null ==>
          below.below == null && below.db == db && below.batch == batch && below.Accounted())
    }

    /** What the transaction reads from. */
    function ParentData(): map<Key, Value>
      reads below, db
    {
      if below == null then db.data else Overlaid(db.data, below.writes, below.deletes)
    }

    /** The contents seen through the transaction. */
    function View(): map<Key, Value>
      reads this, below, db
    {
      Overlaid(ParentData(), writes, deletes)
    }

    /** What the transaction commits to: the database with the batch applied, or the view of the transaction below. */
    function Target(): map<Key, Value>
      reads below, db, batch
    {
      if below == null then Applied(db.data, batch.changes) else ParentData()
    }

    constructor Root(db: Store, batch: Batch)
      ensures Valid() && IsClean() && below == null && this.db == db && this.batch == batch
    {
      below, this.db, this.batch := null, db, batch;
      writes, deletes, memoryUsage := map[], {}, 0;
    }

    constructor Over(root: Transaction)
      requires root.Valid() && root.below == null
      ensures Valid() && IsClean() && below == root && db == root.db && batch == root.batch
    {
      below, db, batch := root, root.db, root.batch;
      writes, deletes, memoryUsage := map[], {}, 0;
    }

    predicate IsClean()
      reads this
    {
      writes == map[] && deletes == {}
    }

    method Write(k: Key, v: Value)
      requires Valid()
      modifies this
      ensures Valid() && View() == old(View())[k := v]
      ensures writes == old(writes)[k := v] && deletes == old(deletes) - {k}
    {
      hide Usage, Overlaid;
      OverlaidWrite(ParentData(), writes, deletes, k, v);
      if k in deletes {
        UsageUndelete(writes, deletes, k);
        deletes := deletes - {k};
        memoryUsage := memoryUsage - |k|;
      } else {
        assert deletes - {k} == deletes;
      }
      if k in writes {
        UsageUnwrite(writes, deletes, k);
        memoryUsage := memoryUsage - (|k| + writes[k].size);
      } else {
        assert writes - {k} == writes;
      }
      UsageWrite(writes, deletes, k, v);
      writes := writes[k := v];
      memoryUsage := memoryUsage + |k| + v.size;
    }

    method Erase(k: Key)
      requires Valid()
      modifies this
      ensures Valid() && View() == old(View()) - {k}
      ensures writes == old(writes) - {k} && deletes == old(deletes) + {k}
    {
      hide Usage, Overlaid;
      OverlaidErase(ParentData(), writes, deletes, k);
      if k in writes {
        UsageUnwrite(writes, deletes, k);
        memoryUsage := memoryUsage - (|k| + writes[k].size);
        writes := writes - {k};
      } else {
        assert writes - {k} == writes;
      }
      if k !in deletes {
        UsageDelete(writes, deletes, k);
        deletes := deletes + {k};
        memoryUsage := memoryUsage + |k|;
      } else {
        assert deletes + {k} == deletes;
      }
    }

    /** The key's value is a pending write of this transaction or of the one below. */
    predicate Pending(k: Key)
      reads this, below
    {
      k in writes || (k !in deletes && below != null && k in below.writes)
    }

    /** Reads through the overlays; a pending write of another type throws. */
    method Read(k: Key, kind: nat) returns (r: Reading)
      requires Valid() && db.Sound()
      ensures k !in View() ==> r == Missing
      ensures k in View() && View()[k].kind == kind ==> r == Found(View()[k])
      ensures Pending(k) && View()[k].kind != kind ==> r == Threw
      ensures k in View() && !Pending(k) ==> r == db.cast(View()[k], kind)
      decreases below != null
    {
      if k in deletes {
        return Missing;
      }
      if k in writes {
        return if writes[k].kind == kind then Found(writes[k]) else Threw;
      }
      if below == null {
        r := db.Read(k, kind);
      } else {
        r := below.Read(k, kind);
      }
    }

    method Exists(k: Key) returns (r: bool)
      requires Valid()
      ensures r <==> k in View()
      decreases below != null
    {
      if k in deletes {
        return false;
      }
      if k in writes {
        return true;
      }
      if below == null {
        r := k in db.data;
      } else {
        r := below.Exists(k);
      }
    }

    method Clear()
      requires Valid()
      modifies this
      ensures Valid() && IsClean() && View() == ParentData()
    {
      writes, deletes, memoryUsage := map[], {}, 0;
      OverlaidNothing(ParentData());
    }

    /** The object that a commit changes. */
    ghost function Receiver(): object {
      if below == null then batch else below
    }

    /** commitTarget.Erase */
    method EraseBelow(k: Key)
      requires Valid()
      modifies Receiver()
      ensures Valid() && Target() == old(Target()) - {k} && writes == old(writes) && deletes == old(deletes)
    {
      hide Usage, Overlaid, Applied;
      if below == null {
        AppliedOne(db.data, batch.changes, Unset(k));
        batch.Erase(k);
      } else {
        below.Erase(k);
      }
    }

    /** commitTarget.Write */
    method WriteBelow(k: Key, v: Value)
      requires Valid()
      modifies Receiver()
      ensures Valid() && Target() == old(Target())[k := v] && writes == old(writes) && deletes == old(deletes)
    {
      hide Usage, Overlaid, Applied;
      if below == null {
        AppliedOne(db.data, batch.changes, Set(k, v));
        batch.Write(k, v);
      } else {
        below.Write(k, v);
      }
    }

    method EraseAll()
      requires Valid()
      modifies Receiver()
      ensures Valid() && Target() == old(Target()) - deletes && writes == old(writes) && deletes == old(deletes)
    {
      hide Usage, Overlaid, Applied, Accounted;
      var left := deletes;
      ghost var was := Target();
      while left != {}
        invariant Valid() && writes == old(writes) && deletes == old(deletes)
        invariant left <= deletes && Target() == was - (deletes - left)
        decreases |left|
      {
        var k :| k in left;
        assert was - (deletes - left) - {k} == was - (deletes - (left - {k}));
        EraseBelow(k);
        left := left - {k};
      }
      assert deletes - left == deletes;
    }

    method WriteAll()
      requires Valid()
      modifies Receiver()
      ensures Valid() && Target() == old(Target()) + writes && writes == old(writes) && deletes == old(deletes)
    {
      hide Usage, Overlaid, Applied, Accounted;
      var left := writes.Keys;
      ghost var was := Target();
      assert writes - left == map[];
      while left != {}
        invariant Valid() && writes == old(writes) && deletes == old(deletes)
        invariant left <= writes.Keys && Target() == was + (writes - left)
        decreases |left|
      {
        var k :| k in left;
        WriteNext(was, writes, left, k);
        WriteBelow(k, writes[k]);
        left := left - {k};
      }
      assert writes - left == writes;
    }

    /** Applies every delete and every write to the target. Over another transaction the view stays what it was. */
    method Commit()
      requires Valid()
      modifies this, Receiver()
      ensures Valid() && IsClean()
      ensures Target() == Overlaid(old(Target()), old(writes), old(deletes))
      ensures below != null ==> View() == ParentData() == old(View())
    {
      hide Usage, Overlaid, Applied;
      EraseAll();
      WriteAll();
      OverlaidAgain(old(Target()), writes, deletes);
      Clear();
    }

    /** The accounting never goes negative, so the guard against it is never taken. */
    method GetMemoryUsage() returns (n: int)
      requires Valid()
      ensures 0 <= n == Usage(writes, deletes)
    {
      if memoryUsage < 0 {
        return 0;
      }
      return memoryUsage;
    }
  }

  lemma WriteNext(data: map<Key, Value>, values: map<Key, Value>, left: set<Key>, k: Key)
    requires k in left && left <= values.Keys
    ensures (data + (values - left))[k := values[k]] == data + (values - (left - {k}))
  {
  }

  lemma OverlaidWrite(data: map<Key, Value>, writes: map<Key, Value>, deletes: set<Key>, k: Key, v: Value)
    ensures Overlaid(data, writes[k := v], deletes - {k}) == Overlaid(data, writes, deletes)[k := v]
  {
  }

  lemma OverlaidErase(data: map<Key, Value>, writes: map<Key, Value>, deletes: set<Key>, k: Key)
    ensures Overlaid(data, writes - {k}, deletes + {k}) == Overlaid(data, writes, deletes) - {k}
  {
  }

  lemma OverlaidAgain(data: map<Key, Value>, writes: map<Key, Value>, deletes: set<Key>)
    ensures (data - deletes) + writes == Overlaid(data, writes, deletes)
  {
  }

  lemma OverlaidNothing(data: map<Key, Value>)
    ensures Overlaid(data, map[], {}) == data
  {
  }

  // ---------------------------------------------------------------- iterators

  datatype Place = End | Here(key: Key)

  /** The keys from a place on. */
  ghost function AheadOf(keys: set<Key>, at: Place): set<Key> {
    if at.End? then {} else set k | k in keys && (k == at.key || Less(at.key, k))
  }

  lemma NoneAhead(keys: set<Key>)
    ensures AheadOf(keys, End) == {}
  {
  }

  /** The keys that are not below a bound. */
  function From(keys: set<Key>, bound: Key): set<Key> {
    set k | k in keys && !Less(k, bound)
  }

  lemma FromMeans(keys: set<Key>, bound: Key)
    ensures forall k :: k in From(keys, bound) <==> k in keys && !Before(k, bound)
  {
    hide Less, Before;
    forall k
      ensures k in From(keys, bound) <==> k in keys && !Before(k, bound)
    {
      LessMeans(k, bound);
    }
  }

  /** The keys after a key. */
  function Beyond(keys: set<Key>, here: Key): set<Key> {
    set k | k in keys && Less(here, k)
  }

  /** An ordered cursor over a fixed set of keys, as std::map and the database provide it. */
  class Cursor {
    const keys: set<Key>
    var at: Place

    ghost predicate Sound()
      reads this
    {
      at.Here? ==> at.key in keys
    }

    ghost function Ahead(): set<Key>
      reads this
    {
      AheadOf(keys, at)
    }

    lemma OnlyKeys()
      ensures Ahead() <= keys
    {
    }

    /** The cursor is at the least key ahead. */
    lemma AtLeast()
      requires Sound()
      ensures at.End? <==> Ahead() == {}
      ensures at.Here? ==> Least(at.key, Ahead()) && at.key == Minimum(Ahead())
    {
      if at.Here? {
        assert at.key in Ahead();
        LeastUnique(Ahead(), at.key, Minimum(Ahead()));
      }
    }

    constructor (keys: set<Key>)
      ensures Sound() && this.keys == keys && at.End?
    {
      this.keys := keys;
      at := End;
    }

    method GoTo(s: set<Key>)
      modifies this
      ensures at == if s == {} then End else Here(Minimum(s))
    {
      if s == {} {
        at := End;
      } else {
        LeastExists(s);
        var k :| k in s && Least(k, s);
        LeastUnique(s, k, Minimum(s));
        at := Here(k);
      }
    }

    method SeekToFirst()
      modifies this
      ensures Sound() && Ahead() == keys
    {
      GoTo(keys);
    }

    method Seek(bound: Key)
      modifies this
      ensures Sound() && Ahead() == From(keys, bound)
    {
      GoTo(From(keys, bound));
      if at.Here? {
        FromLeast(keys, bound, at.key);
      }
    }

    method Next()
      requires Sound() && at.Here?
      modifies this
      ensures Sound() && Ahead() == old(Ahead()) - {old(at.key)}
    {
      var here := at.key;
      GoTo(Beyond(keys, here));
      NextAhead(keys, here);
    }
  }

  lemma FromLeast(keys: set<Key>, bound: Key, m: Key)
    requires Least(m, From(keys, bound))
    ensures AheadOf(keys, Here(m)) == From(keys, bound)
  {
    forall k | k in keys && Less(m, k)
      ensures !Less(k, bound)
    {
      if Less(k, bound) {
        LessTransitive(m, k, bound);
      }
    }
  }

  lemma NextAhead(keys: set<Key>, here: Key)
    requires here in keys
    ensures
      var rest := Beyond(keys, here);
      && AheadOf(keys, Here(here)) - {here} == rest
      && (rest != {} ==> AheadOf(keys, Here(Minimum(rest))) == rest)
  {
    var rest := Beyond(keys, here);
    forall k | k in rest
      ensures k != here
    {
      LessStrict(here, k);
    }
    if rest != {} {
      var m := Minimum(rest);
      assert Least(m, rest);
      forall k | k in keys && (k == m || Less(m, k))
        ensures k in rest
      {
        if k != m {
          LessTransitive(here, m, k);
        }
      }
      assert AheadOf(keys, Here(m)) == rest;
    }
  }

  /** The keys of a parent that a transaction does not hide. */
  function Visible(keys: set<Key>, hidden: set<Key>): set<Key> {
    keys - hidden
  }

  lemma FromVisible(own: set<Key>, keys: set<Key>, hidden: set<Key>, bound: Key)
    ensures From(own + Visible(keys, hidden), bound) == From(own, bound) + Visible(From(keys, bound), hidden)
  {
    hide Less;
  }

  lemma NothingVisible(hidden: set<Key>)
    ensures Visible({}, hidden) == {}
  {
  }

  lemma OverlaidKeys(data: map<Key, Value>, writes: map<Key, Value>, deletes: set<Key>)
    ensures Overlaid(data, writes, deletes).Keys == writes.Keys + Visible(data.Keys, deletes + writes.Keys)
  {
  }

  lemma HiddenOne(keys: set<Key>, hidden: set<Key>, k: Key)
    requires k in hidden
    ensures Visible(keys - {k}, hidden) == Visible(keys, hidden)
  {
  }

  lemma NextVisible(own: set<Key>, keys: set<Key>, hidden: set<Key>, k: Key)
    requires k !in own
    ensures own + Visible(keys, hidden) - {k} == own + Visible(keys - {k}, hidden)
  {
  }

  lemma NextOwn(own: set<Key>, keys: set<Key>, hidden: set<Key>, k: Key)
    requires k in hidden
    ensures own + Visible(keys, hidden) - {k} == own - {k} + Visible(keys, hidden)
  {
  }

  /** The least of one set that lies below the least of another is the least of both. */
  lemma MergeLeast(k: Key, a: set<Key>, m: Key, b: set<Key>, hidden: set<Key>)
    requires Least(k, a) && (b != {} ==> Least(m, b) && Less(k, m))
    ensures Least(k, a + Visible(b, hidden))
  {
    forall x | x in b
      ensures Less(k, x)
    {
      if x != m {
        LessTransitive(k, m, x);
      }
    }
  }

  lemma MergeLeastParent(k: Key, a: set<Key>, m: Key, b: set<Key>, hidden: set<Key>)
    requires Least(m, b) && m !in hidden && (a != {} ==> Least(k, a) && (m == k || Less(m, k)))
    ensures Least(m, a + Visible(b, hidden))
  {
    forall x | x in a && x != m
      ensures Less(m, x)
    {
      if x != k && m != k {
        LessTransitive(m, k, x);
      }
    }
  }

  /** CDBTransactionIterator: merges the pending writes with the parent's keys, which come from the database's iterator
      or from the iterator of the transaction below. */
  class TransactionIterator {
    const tx: Transaction
    const mine: Cursor
    const theirs: Cursor?
    const under: TransactionIterator?
    var parentKey: Key
    var curIsParent: bool

    ghost predicate Linked() {
      && (under == null <==> tx.below == null)
      && (under == null ==> theirs != null && theirs != mine)
      && (under != null ==>
            && theirs == null && under.under == null && under.tx == tx.below && under.tx.below == null
            && under.theirs != null && under.theirs != under.mine && under.mine != mine && under.theirs != mine)
    }

    /** What moves when the parent's iterator moves. */
    ghost function Lower(): set<object>
      requires Linked()
    {
      if under == null then {theirs} else {under, under.mine, under.theirs}
    }

    lemma Apart()
      requires Linked()
      ensures this !in Lower() && mine !in Lower() && tx !in Lower() && tx.below !in Lower() && tx.db !in Lower()
      ensures allocated(Lower()) && allocated(tx.below)
    {
    }

    /** Parent keys that are deleted or overwritten. */
    ghost function Hidden(): set<Key>
      reads tx
    {
      tx.deletes + tx.writes.Keys
    }

    /** The parent's keys still to be visited. */
    ghost function ParentRest(): set<Key>
      requires Linked()
      reads Lower(), tx.below
    {
      if under == null then theirs.Ahead() else under.mine.Ahead() + Visible(under.theirs.Ahead(), under.Hidden())
    }

    /** All of the parent's keys. */
    ghost function ParentKeys(): set<Key>
      requires Linked()
      reads tx.below
    {
      if under == null then theirs.keys else under.mine.keys + Visible(under.theirs.keys, under.Hidden())
    }

    /** The transaction has not changed since the iterator was made, the parent's key is the next one to be seen, and
        the smaller of the two current keys is the chosen one. */
    ghost predicate Settled(rest: set<Key>)
      reads this, tx, mine
    {
      && mine.Sound() && mine.keys == tx.writes.Keys
      && (rest != {} ==> parentKey == Minimum(rest) && parentKey !in Hidden())
      && (mine.at.Here? && rest == {} ==> !curIsParent)
      && (mine.at.End? && rest != {} ==> curIsParent)
      && (mine.at.Here? && rest != {} ==> (curIsParent <==> !Less(mine.at.key, parentKey)))
    }

    ghost predicate ParentOk()
      requires Linked()
      reads Lower(), tx.below
    {
      if under == null then theirs.Sound() else under.theirs.Sound() && under.Settled(under.theirs.Ahead())
    }

    ghost predicate Valid()
      requires Linked()
      reads this, tx, mine, Lower(), tx.below
    {
      ParentOk() && Settled(ParentRest())
    }

    /** The keys still to be visited, the current one included. */
    ghost function Rest(): set<Key>
      requires Linked()
      reads this, tx, mine, Lower(), tx.below
    {
      mine.Ahead() + Visible(ParentRest(), Hidden())
    }

    /** All keys there are to visit. */
    ghost function Everything(): set<Key>
      requires Linked()
      reads tx, tx.below
    {
      mine.keys + Visible(ParentKeys(), Hidden())
    }

    constructor (tx: Transaction)
      requires tx.Valid()
      ensures this.tx == tx && Linked() && Valid() && Rest() == {} && fresh(mine) && fresh(Lower())
      ensures Everything() == tx.View().Keys
      decreases tx.below != null
    {
      hide Visible, Overlaid, Usage, Less, AheadOf;
      NoneAhead(tx.writes.Keys);
      NoneAhead(tx.db.data.Keys);
      var own := new Cursor(tx.writes.Keys);
      var cursor: Cursor? := null;
      var below: TransactionIterator? := null;
      if tx.below == null {
        cursor := new Cursor(tx.db.data.Keys);
      } else {
        below := new TransactionIterator(tx.below);
      }
      this.tx, mine, theirs, under := tx, own, cursor, below;
      parentKey, curIsParent := [], false;
      new;
      NothingVisible(Hidden());
      OverlaidKeys(tx.ParentData(), tx.writes, tx.deletes);
    }

    /** parentIt->GetKey, or nothing if the parent's iterator is not valid. */
    method ParentPlace() returns (place: Place)
      requires Linked() && ParentOk()
      ensures place == if ParentRest() == {} then End else Here(Minimum(ParentRest()))
      decreases under != null, 0
    {
      if under == null {
        theirs.AtLeast();
        place := theirs.at;
      } else {
        place := under.GetKey();
      }
    }

    method ParentSeekToFirst()
      requires Linked() && ParentOk()
      modifies Lower()
      ensures ParentOk() && ParentRest() == ParentKeys()
      decreases under != null, 0
    {
      if under == null {
        theirs.SeekToFirst();
      } else {
        under.SeekToFirst();
      }
    }

    method ParentSeek(bound: Key)
      requires Linked() && ParentOk()
      modifies Lower()
      ensures ParentOk() && ParentRest() == From(ParentKeys(), bound)
      decreases under != null, 0
    {
      if under == null {
        theirs.Seek(bound);
      } else {
        under.Seek(bound);
      }
    }

    method ParentNext()
      requires Linked() && ParentOk() && ParentRest() != {}
      modifies Lower()
      ensures ParentOk() && ParentRest() == old(ParentRest()) - {Minimum(old(ParentRest()))}
      decreases under != null, 0
    {
      if under == null {
        theirs.AtLeast();
        theirs.Next();
      } else {
        under.Next();
      }
    }

    /** SkipDeletedAndOverwritten */
    method Skip()
      requires Linked() && ParentOk()
      modifies this`parentKey, Lower()
      ensures ParentOk() && Visible(ParentRest(), Hidden()) == old(Visible(ParentRest(), Hidden()))
      ensures ParentRest() != {} ==> parentKey == Minimum(ParentRest()) && parentKey !in Hidden()
      decreases under != null, 1
    {
      Apart();
      hide Linked, Lower, ParentOk, ParentRest, Visible;
      var place := ParentPlace();
      while place.Here?
        invariant ParentOk() && Visible(ParentRest(), Hidden()) == old(Visible(ParentRest(), Hidden()))
        invariant place == if ParentRest() == {} then End else Here(Minimum(ParentRest()))
        decreases ParentRest()
      {
        parentKey := place.key;
        if parentKey !in tx.deletes && parentKey !in tx.writes {
          break;
        }
        HiddenOne(ParentRest(), Hidden(), parentKey);
        ParentNext();
        place := ParentPlace();
      }
    }

    /** DecideCur */
    method Decide()
      requires Linked() && ParentOk() && mine.Sound() && mine.keys == tx.writes.Keys
      requires ParentRest() != {} ==> parentKey == Minimum(ParentRest()) && parentKey !in Hidden()
      modifies this`curIsParent
      ensures Valid()
      decreases under != null, 1
    {
      var place := ParentPlace();
      if mine.at.Here? && !place.Here? {
        curIsParent := false;
      } else if !mine.at.Here? && place.Here? {
        curIsParent := true;
      } else if mine.at.Here? && place.Here? {
        curIsParent := !Less(mine.at.key, parentKey);
      }
    }

    method SeekToFirst()
      requires Linked() && Valid()
      modifies this, mine, Lower()
      ensures Valid() && Rest() == Everything()
      decreases under != null, 2
    {
      Apart();
      hide Linked, Lower, ParentOk, ParentRest, ParentKeys, Hidden, Cursor.Ahead, Cursor.Sound, Visible;
      assert mine.keys == tx.writes.Keys;
      hide Settled;
      mine.SeekToFirst();
      ParentSeekToFirst();
      Skip();
      Decide();
    }

    method Seek(bound: Key)
      requires Linked() && Valid()
      modifies this, mine, Lower()
      ensures Valid() && Rest() == From(Everything(), bound)
      ensures forall k :: k in Rest() <==> k in Everything() && !Before(k, bound)
      decreases under != null, 2
    {
      FromMeans(Everything(), bound);
      Apart();
      hide Linked, Lower, ParentOk, ParentRest, ParentKeys, Hidden, Cursor.Ahead, Cursor.Sound, Visible;
      assert mine.keys == tx.writes.Keys;
      hide Settled, From, Before;
      FromVisible(mine.keys, ParentKeys(), Hidden(), bound);
      mine.Seek(bound);
      ParentSeek(bound);
      Skip();
      Decide();
    }

    /** The current key is the least of those still to be visited. */
    method GetKey() returns (place: Place)
      requires Linked() && Valid()
      ensures place == if Rest() == {} then End else Here(Minimum(Rest()))
      decreases under != null, 2
    {
      var parent := ParentPlace();
      CurrentIsLeast();
      if mine.at.End? && parent.End? {
        return End;
      }
      if curIsParent {
        return Here(parentKey);
      }
      return mine.at;
    }

    /** Whichever iterator is chosen is at the least key still to be visited. */
    lemma CurrentIsLeast()
      requires Linked() && Valid()
      ensures mine.at.End? && ParentRest() == {} <==> Rest() == {}
      ensures Rest() != {} && curIsParent ==> ParentRest() != {} && parentKey == Minimum(Rest())
      ensures Rest() != {} && !curIsParent ==> mine.at.Here? && mine.at.key == Minimum(Rest())
    {
      mine.AtLeast();
      if mine.at.Here? && !curIsParent {
        MergeLeast(mine.at.key, mine.Ahead(), parentKey, ParentRest(), Hidden());
        LeastUnique(Rest(), mine.at.key, Minimum(Rest()));
      } else if ParentRest() != {} {
        if mine.at.Here? {
          LessTotal(mine.at.key, parentKey);
        }
        MergeLeastParent(if mine.at.Here? then mine.at.key else [], mine.Ahead(), parentKey, ParentRest(), Hidden());
        LeastUnique(Rest(), parentKey, Minimum(Rest()));
      }
    }

    method NextOfParent()
      requires Linked() && Valid() && Rest() != {} && curIsParent
      modifies this, Lower()
      ensures Valid() && Rest() == old(Rest()) - {Minimum(old(Rest()))}
      decreases under != null, 2
    {
      Apart();
      hide Linked, Lower, ParentOk, ParentRest, Cursor.Ahead, Cursor.Sound, Less, Visible;
      CurrentIsLeast();
      mine.OnlyKeys();
      NextVisible(mine.Ahead(), ParentRest(), Hidden(), parentKey);
      ParentNext();
      Skip();
      Decide();
    }

    method NextOfMine()
      requires Linked() && Valid() && Rest() != {} && !curIsParent
      modifies this, mine
      ensures Valid() && Rest() == old(Rest()) - {Minimum(old(Rest()))}
      decreases under != null, 2
    {
      Apart();
      CurrentIsLeast();
      assert mine.Sound();
      hide Linked, Lower, ParentOk, ParentRest, Cursor.Ahead, Less, Visible;
      NextOwn(mine.Ahead(), ParentRest(), Hidden(), mine.at.key);
      mine.Next();
      Decide();
    }

    /** Moves past the current key and past nothing else. */
    method Next()
      requires Linked() && Valid()
      modifies this, mine, Lower()
      ensures Valid()
      ensures Rest() == if old(Rest()) == {} then {} else old(Rest()) - {Minimum(old(Rest()))}
      decreases under != null, 3
    {
      Apart();
      hide Linked, Lower, ParentOk, ParentRest, Cursor.Ahead, Cursor.Sound, Less, Visible, Settled;
      var place := ParentPlace();
      CurrentIsLeast();
      if !mine.at.Here? && !place.Here? {
        return;
      }
      if curIsParent {
        assert place.Here?;
        NextOfParent();
      } else {
        assert mine.at.Here?;
        NextOfMine();
      }
    }

    /** The value at the current key, as the transaction sees it. */
    method GetValue(kind: nat) returns (r: Reading)
      requires Linked() && Valid() && tx.Valid() && tx.db.Sound()
      ensures Rest() == {} ==> r == Missing
      ensures Rest() != {} ==>
        var k := Minimum(Rest());
        && (k !in tx.View() ==> r == Missing)
        && (k in tx.View() && tx.View()[k].kind == kind ==> r == Found(tx.View()[k]))
        && (tx.Pending(k) && tx.View()[k].kind != kind ==> r == Threw)
        && (k in tx.View() && !tx.Pending(k) ==> r == tx.db.cast(tx.View()[k], kind))
    {
      var place := GetKey();
      if place.End? {
        return Missing;
      }
      r := tx.Read(place.key, kind);
    }
  }

  /** From SeekToFirst to the end, an iterator visits the keys of the transaction's view, each once and in
      byte order. */
  method Walk(it: TransactionIterator) returns (visited: seq<Key>)
    requires it.Linked() && it.Valid() && it.Everything() == it.tx.View().Keys
    modifies it, it.mine, it.Lower()
    ensures visited == Sorted(it.tx.View().Keys) && Elements(visited) == it.tx.View().Keys
    ensures forall i, j :: 0 <= i < j < |visited| ==> Before(visited[i], visited[j])
  {
    ghost var all := it.Everything();
    SortedOrders(all);
    SortedNone();
    it.Apart();
    hide Transaction.View, Sorted, Ascending, Elements, TransactionIterator.Valid, TransactionIterator.Rest;
    hide TransactionIterator.Everything, TransactionIterator.Linked, TransactionIterator.Lower;
    it.SeekToFirst();
    assert [] + Sorted(all) == Sorted(all);
    visited := WalkOn(it, all, []);
    AscendingMeans(visited);
  }

  method WalkOn(it: TransactionIterator, ghost all: set<Key>, visited: seq<Key>) returns (r: seq<Key>)
    requires it.Linked() && it.Valid() && visited + Sorted(it.Rest()) == Sorted(all)
    modifies it, it.mine, it.Lower()
    ensures r == Sorted(all)
    decreases it.Rest()
  {
    hide TransactionIterator.Valid, TransactionIterator.Rest, Sorted;
    var place := it.GetKey();
    if place.End? {
      SortedNone();
      assert visited + [] == visited;
      return visited;
    }
    SortedStep(visited, it.Rest());
    it.Next();
    r := WalkOn(it, all, visited + [place.key]);
  }

  lemma SortedNone()
    ensures Sorted({}) == []
  {
  }

  lemma SortedStep(done: seq<Key>, rest: set<Key>)
    requires rest != {}
    ensures done + Sorted(rest) == done + [Minimum(rest)] + Sorted(rest - {Minimum(rest)})
  {
  }
}
