/** The two levels of transactions over one database, src/evo/evodb.h and src/evo/evodb.cpp. */
module EvoDb {
  import opened DbTransaction

  /** What the database holds, what the root transaction shows, what the current transaction shows, and whether
      anything was written or erased since the current transaction was last committed or rolled back. */
  datatype Layers = Layers(database: map<Key, Value>, root: map<Key, Value>, current: map<Key, Value>, touched: bool)

  class EvoDB {
    const db: Store
    const rootBatch: Batch
    const rootDBTransaction: Transaction
    const curDBTransaction: Transaction

    /** Everything the object is made of. */
    ghost function Parts(): set<object> {
      {db, rootBatch, rootDBTransaction, curDBTransaction}
    }

    /** Outside of CommitRootTransaction the batch is empty. */
    ghost predicate Valid()
      reads rootBatch, rootDBTransaction, curDBTransaction
    {
      && rootDBTransaction.below == null && rootDBTransaction.db == db && rootDBTransaction.batch == rootBatch
      && curDBTransaction.below == rootDBTransaction
      && curDBTransaction.Valid()
      && rootBatch.changes == []
    }

    ghost function State(): Layers
      requires Valid()
      reads db, rootBatch, rootDBTransaction, curDBTransaction
    {
      var root := Overlaid(db.data, rootDBTransaction.writes, rootDBTransaction.deletes);
      Layers(db.data, root, curDBTransaction.View(), !curDBTransaction.IsClean())
    }

    constructor (database: Store)
      ensures Valid() && db == database && fresh(Parts() - {database})
      ensures State() == Layers(database.data, database.data, database.data, false)
    {
      var batch := new Batch();
      var root := new Transaction.Root(database, batch);
      var current := new Transaction.Over(root);
      db, rootBatch, rootDBTransaction, curDBTransaction := database, batch, root, current;
      OverlaidNothing(database.data);
    }

    method Write(k: Key, v: Value)
      requires Valid()
      modifies curDBTransaction
      ensures Valid() && State() == Plain(old(State()), Put(k, v))
    {
      hide Overlaid;
      curDBTransaction.Write(k, v);
      assert k in curDBTransaction.writes;
    }

    method Erase(k: Key)
      requires Valid()
      modifies curDBTransaction
      ensures Valid() && State() == Plain(old(State()), Remove(k))
    {
      hide Overlaid;
      curDBTransaction.Erase(k);
      assert k in curDBTransaction.deletes;
    }

    /** Reads what the current transaction shows. */
    method Read(k: Key, kind: nat) returns (r: Reading)
      requires Valid() && db.Sound()
      ensures k !in State().current ==> r == Missing
      ensures k in State().current && State().current[k].kind == kind ==> r == Found(State().current[k])
      ensures curDBTransaction.Pending(k) && State().current[k].kind != kind ==> r == Threw
      ensures k in State().current && !curDBTransaction.Pending(k) ==> r == db.cast(State().current[k], kind)
    {
      r := curDBTransaction.Read(k, kind);
    }

    method Exists(k: Key) returns (r: bool)
      requires Valid()
      ensures r <==> k in State().current
    {
      r := curDBTransaction.Exists(k);
    }

    method CommitCurTransaction()
      requires Valid()
      modifies rootDBTransaction, curDBTransaction
      ensures Valid() && State() == Plain(old(State()), CommitCurrent)
    {
      hide Overlaid;
      curDBTransaction.Commit();
    }

    method RollbackCurTransaction()
      requires Valid()
      modifies curDBTransaction
      ensures Valid() && State() == Plain(old(State()), Rollback)
    {
      hide Overlaid;
      curDBTransaction.Clear();
    }

    /** Asserts that the current transaction is clean. */
    method CommitRootTransaction()
      requires Valid() && curDBTransaction.IsClean()
      modifies db, rootBatch, rootDBTransaction
      ensures Valid() && State() == Plain(old(State()), CommitRoot)
    {
      hide Overlaid;
      rootDBTransaction.Commit();
      db.WriteBatch(rootBatch);
      rootBatch.Clear();
      OverlaidNothing(old(db.data));
      OverlaidNothing(db.data);
    }
  }

  /** CEvoDBScopedCommitter: what is neither committed nor rolled back by the end of the scope is rolled back. */
  class ScopedCommitter {
    const evoDB: EvoDB
    var didCommitOrRollback: bool

    constructor (evo: EvoDB)
      ensures evoDB == evo && !didCommitOrRollback
    {
      evoDB, didCommitOrRollback := evo, false;
    }

    method Commit()
      requires evoDB.Valid() && !didCommitOrRollback
      modifies this, evoDB.rootDBTransaction, evoDB.curDBTransaction
      ensures evoDB.Valid() && didCommitOrRollback
      ensures evoDB.State() == Plain(old(evoDB.State()), CommitCurrent)
    {
      didCommitOrRollback := true;
      evoDB.CommitCurTransaction();
    }

    method Rollback()
      requires evoDB.Valid() && !didCommitOrRollback
      modifies this, evoDB.curDBTransaction
      ensures evoDB.Valid() && didCommitOrRollback
      ensures evoDB.State() == Plain(old(evoDB.State()), Op.Rollback)
    {
      didCommitOrRollback := true;
      evoDB.RollbackCurTransaction();
    }

    /** The destructor. */
    method Destroy()
      requires evoDB.Valid()
      modifies this, evoDB.curDBTransaction
      ensures evoDB.Valid() && didCommitOrRollback
      ensures evoDB.State() == if old(didCommitOrRollback) then old(evoDB.State())
        else Plain(old(evoDB.State()), Op.Rollback)
    {
      if !didCommitOrRollback {
        Rollback();
      }
    }
  }

  // ---------------------------------------------------------------- runs

  datatype Op = Put(k: Key, v: Value) | Remove(k: Key) | CommitCurrent | Rollback | CommitRoot

  /** The same operation on three plain maps. */
  function Plain(s: Layers, op: Op): Layers {
    match op
    case Put(k, v) => s.(current := s.current[k := v], touched := true)
    case Remove(k) => s.(current := s.current - {k}, touched := true)
    case CommitCurrent => s.(root := s.current, touched := false)
    case Rollback => s.(current := s.root, touched := false)
    case CommitRoot => s.(database := s.root)
  }

  function PlainRun(s: Layers, ops: seq<Op>): Layers {
    if ops == [] then s else Plain(PlainRun(s, ops[..|ops| - 1]), ops[|ops| - 1])
  }

  /** The root transaction is only ever committed when the current one has nothing pending. */
  predicate Allowed(s: Layers, ops: seq<Op>) {
    forall i :: 0 <= i < |ops| && ops[i].CommitRoot? ==> !PlainRun(s, ops[..i]).touched
  }

  /** Under any run, the database and the views of both transactions are three plain maps. */
  method Run(evo: EvoDB, ops: seq<Op>)
    requires evo.Valid() && Allowed(evo.State(), ops)
    modifies evo.Parts()
    ensures evo.Valid() && evo.State() == PlainRun(old(evo.State()), ops)
  {
    hide Overlaid, Plain, EvoDB.Valid;
    ghost var start := evo.State();
    for i := 0 to |ops|
      invariant evo.Valid() && evo.State() == PlainRun(start, ops[..i])
    {
      assert ops[..i + 1][..i] == ops[..i];
      match ops[i] {
        case Put(k, v) => evo.Write(k, v);
        case Remove(k) => evo.Erase(k);
        case CommitCurrent => evo.CommitCurTransaction();
        case Rollback => evo.RollbackCurTransaction();
        case CommitRoot => evo.CommitRootTransaction();
      }
    }
    assert ops[..|ops|] == ops;
  }

  /** A scope: writes and erases that end in one commit or one roll-back. */
  predicate Scope(ops: seq<Op>) {
    forall i :: 0 <= i < |ops| ==> ops[i].Put? || ops[i].Remove?
  }

  /** Until it ends, a scope is seen by its own readers only. A roll-back takes all of it back, whatever it did; a
      commit hands all of it to the root at once, and the next commit of the root hands it to the database. */
  lemma {:induction false} ScopeIsAtomic(s: Layers, ops: seq<Op>)
    requires s.current == s.root && !s.touched && Scope(ops)
    ensures
      var t := PlainRun(s, ops);
      && t.database == s.database && t.root == s.root
      && Plain(t, Op.Rollback) == s
      && Plain(t, CommitCurrent) == Layers(s.database, t.current, t.current, false)
      && Plain(Plain(t, CommitCurrent), CommitRoot) == Layers(t.current, t.current, t.current, false)
  {
    if ops != [] {
      ScopeIsAtomic(s, ops[..|ops| - 1]);
    }
  }
}
