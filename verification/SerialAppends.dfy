/**
 What the committed rows are: those of the calls of append_event and append_measurement that were
 committed, as if the transactions had run one after another (crates/trace-store/src/repo.rs).
 */
module SerialAppends {
  import opened Collections
  import opened HashChain
  import opened ChainStore

  /** One call of append_event or append_measurement. */
  datatype Call = Call(unit: UnitId, table: Table, payload: Text)

  /** The call a transaction is in, or was in last. */
  function CurrentCall(e: Execution, t: TxId): Option<Call> {
    match e
    case Start(_) => None
    case Then(before, LockUnit(t', u, table, payload), _) =>
      if t' == t then Some(Call(u, table, payload)) else CurrentCall(before, t)
    case Then(before, _, _) => CurrentCall(before, t)
  }

  /** The calls that an open transaction has carried out. */
  function CallsOf(e: Execution, t: TxId): seq<Call> {
    match e
    case Start(_) => []
    case Then(before, step, _) =>
      if step.tx != t then CallsOf(before, t)
      else
        match step
        case Insert(_) =>
          CallsOf(before, t) + if CurrentCall(before, t).Some? then [CurrentCall(before, t).value] else []
        case LockUnit(_, _, _, _) => CallsOf(before, t)
        case ReadTail(_, _) => CallsOf(before, t)
        case Begin(_) => []
        case Commit(_) => []
        case Rollback(_) => []
  }

  /** The calls of the committed transactions, in the order of their commits. */
  function CommittedCalls(e: Execution): seq<Call> {
    match e
    case Start(_) => []
    case Then(before, Commit(t), _) => CommittedCalls(before) + CallsOf(before, t)
    case Then(before, _, _) => CommittedCalls(before)
  }

  function CallsFor(calls: seq<Call>, u: UnitId): seq<Call> {
    Filter((c: Call) => c.unit == u, calls)
  }

  // ------------------------------------------------------------- one after another

  /** The chain that the calls build when they come one after another. */
  function SerialChain(hash: Hash, calls: seq<Call>): (chain: seq<Row>)
    ensures |chain| == |calls|
  {
    if calls == [] then [] else
      var earlier, last := SerialChain(hash, calls[..|calls| - 1]), calls[|calls| - 1];
      earlier + [Row(last.payload, Append(hash, TailOf(earlier), last.payload))]
  }

  /** The same rows, each in the table its call is about. */
  function SerialRows(hash: Hash, calls: seq<Call>): Rows {
    if calls == [] then Rows([], []) else
      var n := |calls| - 1;
      Add(SerialRows(hash, calls[..n]), calls[n].table, SerialChain(hash, calls)[n])
  }

  lemma {:induction false} SerialChainIsChain(hash: Hash, calls: seq<Call>)
    ensures IsChain(hash, SerialChain(hash, calls))
    ensures multiset(SerialChain(hash, calls)) == All(SerialRows(hash, calls))
  {
    if calls != [] {
      var n := |calls| - 1;
      var earlier := calls[..n];
      SerialChainIsChain(hash, earlier);
      ChainExtended(hash, SerialChain(hash, earlier), calls[n].payload);
      AllAdd(SerialRows(hash, earlier), calls[n].table, SerialChain(hash, calls)[n]);
    }
  }

  lemma SerialRowsExtended(hash: Hash, calls: seq<Call>, c: Call)
    ensures SerialRows(hash, calls + [c]) ==
      Add(SerialRows(hash, calls), c.table,
          Row(c.payload, Append(hash, TailOf(SerialChain(hash, calls)), c.payload)))
  {
    assert (calls + [c])[..|calls|] == calls;
  }

  lemma CallsForParts(a: seq<Call>, b: seq<Call>, u: UnitId)
    ensures CallsFor(a + b, u) == CallsFor(a, u) + CallsFor(b, u)
  {
    FilterParts((c: Call) => c.unit == u, a, b);
  }

  // ------------------------------------------------------------- the invariant

  /** A transaction has carried out `calls`, is in `current`, and sees the rows of `done` and of its own. */
  ghost predicate TxSerial(hash: Hash, db: Db, tx: Tx, done: seq<Call>, calls: seq<Call>, current: Option<Call>) {
    && (forall u :: u in tx.locks ==>
          Visible(db.committed, tx, u) == SerialRows(hash, CallsFor(done, u) + CallsFor(calls, u)))
    && (forall u :: u !in tx.locks ==> CallsFor(calls, u) == [])
    && (!tx.pc.Idle? ==> current == Some(Call(tx.pc.unit, tx.pc.table, tx.pc.payload)))
  }

  ghost predicate Serial(hash: Hash, e: Execution) {
    var db, done := StateOf(e), CommittedCalls(e);
    && (forall u :: Of(db.committed, u) == SerialRows(hash, CallsFor(done, u)))
    && (forall t :: t in db.txs ==> TxSerial(hash, db, db.txs[t], done, CallsOf(e, t), CurrentCall(e, t)))
  }

  lemma LockKeepsSerial(hash: Hash, db: Db, tx: Tx, done: seq<Call>, calls: seq<Call>, current: Option<Call>, c: Call)
    requires TxSerial(hash, db, tx, done, calls, current) && TxOk(hash, db.committed, tx)
    requires forall u :: Of(db.committed, u) == SerialRows(hash, CallsFor(done, u))
    ensures TxSerial(hash, db, Tx(tx.locks + {c.unit}, tx.pending, Locked(c.unit, c.table, c.payload)), done, calls,
                     Some(c))
  {
    var locked := Tx(tx.locks + {c.unit}, tx.pending, Locked(c.unit, c.table, c.payload));
    forall u | u in locked.locks
      ensures Visible(db.committed, locked, u) == SerialRows(hash, CallsFor(done, u) + CallsFor(calls, u))
    {
      if u !in tx.locks {
        BothEmpty(Of(db.committed, u));
        assert CallsFor(done, u) + [] == CallsFor(done, u);
      }
    }
  }

  lemma SeenAfterInsert(hash: Hash, db: Db, tx: Tx, done: seq<Call>, calls: seq<Call>, c: Call)
    requires TxSerial(hash, db, tx, done, calls, Some(c)) && TxOk(hash, db.committed, tx) && tx.pc.HaveTail?
    ensures Visible(db.committed, Inserted(hash, tx), c.unit) ==
      SerialRows(hash, CallsFor(done, c.unit) + CallsFor(calls, c.unit) + [c])
  {
    hide Filter, IsChain, All, Chained;
    var u := c.unit;
    var seen := CallsFor(done, u) + CallsFor(calls, u);
    VisibleAfterInsert(hash, db.committed, tx, u);
    SerialChainIsChain(hash, seen);
    TailIsLast(hash, SerialChain(hash, seen), Visible(db.committed, tx, u), tx.pc.tail);
    SerialRowsExtended(hash, seen, c);
  }

  lemma OneCallMore(calls: seq<Call>, c: Call, u: UnitId)
    ensures CallsFor(calls + [c], u) == if u == c.unit then CallsFor(calls, u) + [c] else CallsFor(calls, u)
  {
    FilterLast((d: Call) => d.unit == u, calls, c);
    assert CallsFor(calls, u) + [] == CallsFor(calls, u);
  }

  lemma InsertKeepsSerial(hash: Hash, db: Db, tx: Tx, done: seq<Call>, calls: seq<Call>, c: Call)
    requires TxSerial(hash, db, tx, done, calls, Some(c)) && TxOk(hash, db.committed, tx) && tx.pc.HaveTail?
    ensures TxSerial(hash, db, Inserted(hash, tx), done, calls + [c], Some(c))
  {
    hide CallsFor, SerialRows, Add, Append, Both, Chained;
    forall u | u in tx.locks
      ensures Visible(db.committed, Inserted(hash, tx), u) ==
        SerialRows(hash, CallsFor(done, u) + CallsFor(calls + [c], u))
    {
      OneCallMore(calls, c, u);
      if u == c.unit {
        SeenAfterInsert(hash, db, tx, done, calls, c);
        Assoc(CallsFor(done, u), CallsFor(calls, u), [c]);
      } else {
        VisibleAfterInsert(hash, db.committed, tx, u);
      }
    }
    forall u | u !in tx.locks
      ensures CallsFor(calls + [c], u) == []
    {
      OneCallMore(calls, c, u);
    }
  }

  /** Committing turns what the transaction sees into what is committed. */
  lemma CommitsSerial(hash: Hash, db: Db, tx: Tx, done: seq<Call>, calls: seq<Call>, current: Option<Call>, u: UnitId)
    requires TxSerial(hash, db, tx, done, calls, current) && TxOk(hash, db.committed, tx)
    requires forall v :: Of(db.committed, v) == SerialRows(hash, CallsFor(done, v))
    ensures Of(Merged(db.committed, tx.pending), u) == SerialRows(hash, CallsFor(done + calls, u))
    ensures u !in tx.locks ==>
              && Of(Merged(db.committed, tx.pending), u) == Of(db.committed, u)
              && CallsFor(done + calls, u) == CallsFor(done, u)
  {
    BothEmpty(Of(db.committed, u));
    assert Of(Merged(db.committed, tx.pending), u) == Visible(db.committed, tx, u);
    CallsForParts(done, calls, u);
    assert CallsFor(done, u) + [] == CallsFor(done, u);
  }

  lemma CommitKeepsSerial(hash: Hash, before: Execution, t: TxId, db: Db)
    requires Inv(hash, StateOf(before)) && Serial(hash, before) && Next(hash, StateOf(before), Commit(t), db)
    ensures Serial(hash, Then(before, Commit(t), db))
  {
    var e, was, done := Then(before, Commit(t), db), StateOf(before), CommittedCalls(before);
    var tx, calls := was.txs[t], CallsOf(before, t);
    forall u
      ensures Of(db.committed, u) == SerialRows(hash, CallsFor(done + calls, u))
      ensures u !in tx.locks ==> Of(db.committed, u) == Of(was.committed, u)
      ensures u !in tx.locks ==> CallsFor(done + calls, u) == CallsFor(done, u)
    {
      CommitsSerial(hash, was, tx, done, calls, CurrentCall(before, t), u);
    }
    forall o | o in db.txs
      ensures TxSerial(hash, db, db.txs[o], done + calls, CallsOf(e, o), CurrentCall(e, o))
    {
      assert was.txs[o].locks !! tx.locks;
      assert TxSerial(hash, was, was.txs[o], done, CallsOf(before, o), CurrentCall(before, o));
      forall u | u in db.txs[o].locks
        ensures Visible(db.committed, db.txs[o], u) == Visible(was.committed, was.txs[o], u)
      {
      }
    }
  }

  lemma StepKeepsTxSerial(hash: Hash, before: Execution, step: Step, db: Db, t: TxId)
    requires Inv(hash, StateOf(before)) && Serial(hash, before) && Next(hash, StateOf(before), step, db)
    requires !step.Commit? && t in db.txs
    ensures var e := Then(before, step, db);
      TxSerial(hash, db, db.txs[t], CommittedCalls(before), CallsOf(e, t), CurrentCall(e, t))
  {
    hide CallsFor, SerialRows, Chained, Both, Inserted;
    var was, done, calls := StateOf(before), CommittedCalls(before), CallsOf(before, t);
    if t != step.tx {
      assert TxSerial(hash, was, was.txs[t], done, calls, CurrentCall(before, t));
    } else {
      match step
      case Begin(_) => NoCalls();
      case LockUnit(_, u, table, payload) =>
        LockKeepsSerial(hash, was, was.txs[t], done, calls, CurrentCall(before, t), Call(u, table, payload));
      case ReadTail(_, _) => assert TxSerial(hash, was, was.txs[t], done, calls, CurrentCall(before, t));
      case Insert(_) => InsertKeepsSerial(hash, was, was.txs[t], done, calls, CurrentCall(before, t).value);
      case Rollback(_) =>
    }
  }

  lemma NoCalls()
    ensures forall u :: CallsFor([], u) == []
  {
  }

  lemma StepKeepsSerial(hash: Hash, before: Execution, step: Step, db: Db)
    requires Inv(hash, StateOf(before)) && Serial(hash, before) && Next(hash, StateOf(before), step, db)
    ensures Serial(hash, Then(before, step, db))
  {
    hide CallsFor, SerialRows, TxSerial, Inv;
    if step.Commit? {
      CommitKeepsSerial(hash, before, step.tx, db);
    } else {
      forall t | t in db.txs
        ensures var e := Then(before, step, db);
          TxSerial(hash, db, db.txs[t], CommittedCalls(before), CallsOf(e, t), CurrentCall(e, t))
      {
        StepKeepsTxSerial(hash, before, step, db, t);
      }
    }
  }

  lemma {:induction false} ExecutionIsSerial(hash: Hash, e: Execution)
    requires IsExecution(hash, e)
    ensures Serial(hash, e)
  {
    if e.Then? {
      ExecutionIsSerial(hash, e.before);
      ExecutionKeepsInv(hash, e.before);
      StepKeepsSerial(hash, e.before, e.step, e.db);
    }
  }

  // ------------------------------------------------------------- what is committed

  lemma {:induction false} SerialRowsBelow(hash: Hash, calls: seq<Call>, r: Row)
    requires r in SerialRows(hash, calls).events || r in SerialRows(hash, calls).measurements
    ensures r.link.position < |calls|
  {
    assert r in All(SerialRows(hash, calls));
    SerialChainIsChain(hash, calls);
    RowsBelowLast(hash, SerialChain(hash, calls), r);
  }

  lemma SerialChainLast(hash: Hash, calls: seq<Call>)
    requires calls != []
    ensures var n, rows := |calls| - 1, SerialRows(hash, calls);
      var row := SerialChain(hash, calls)[n];
      && row.payload == calls[n].payload && row.link.position == n
      && (row in rows.events <==> calls[n].table.UnitEvent?)
      && (row in rows.measurements <==> calls[n].table.Measurement?)
  {
    hide IsChain, All, Append;
    var n := |calls| - 1;
    SerialChainIsChain(hash, calls);
    ChainPositions(hash, SerialChain(hash, calls), n);
    forall r | r in SerialRows(hash, calls[..n]).events || r in SerialRows(hash, calls[..n]).measurements
      ensures r.link.position < n
    {
      SerialRowsBelow(hash, calls[..n], r);
    }
  }

  lemma {:induction false} SerialChainAt(hash: Hash, calls: seq<Call>, i: nat)
    requires i < |calls|
    ensures var row, rows := SerialChain(hash, calls)[i], SerialRows(hash, calls);
      && row.payload == calls[i].payload && row.link.position == i
      && (row in rows.events <==> calls[i].table.UnitEvent?)
      && (row in rows.measurements <==> calls[i].table.Measurement?)
  {
    hide IsChain, All, Append;
    SerialChainLast(hash, calls);
    if i < |calls| - 1 {
      SerialChainAt(hash, calls[..|calls| - 1], i);
    }
  }

  /**
   Every interleaving is as good as one transaction after another: the rows of a unit, in the order of
   chain_seq, are exactly those of the committed calls for it, in the order of the commits, each with
   its own payload and in its own table.
   */
  lemma CommittedIsSerial(hash: Hash, e: Execution, u: UnitId, q: seq<Row>)
    requires IsExecution(hash, e) && OrderedRows(q, Of(StateOf(e).committed, u))
    ensures var rows, calls := Of(StateOf(e).committed, u), CallsFor(CommittedCalls(e), u);
      && |q| == |calls|
      && forall i :: 0 <= i < |q| ==>
           && q[i].payload == calls[i].payload
           && (q[i] in rows.events <==> calls[i].table.UnitEvent?)
           && (q[i] in rows.measurements <==> calls[i].table.Measurement?)
  {
    ExecutionIsSerial(hash, e);
    var calls := CallsFor(CommittedCalls(e), u);
    SerialChainIsChain(hash, calls);
    OrderIsUnique(hash, q, SerialChain(hash, calls));
    forall i | 0 <= i < |q|
      ensures q[i].payload == calls[i].payload
      ensures q[i] in Of(StateOf(e).committed, u).events <==> calls[i].table.UnitEvent?
      ensures q[i] in Of(StateOf(e).committed, u).measurements <==> calls[i].table.Measurement?
    {
      SerialChainAt(hash, calls, i);
    }
  }

  ghost predicate AllFor(calls: seq<Call>, units: set<UnitId>) {
    forall c :: c in calls ==> c.unit in units
  }

  lemma {:induction false} OpenCallsAreForKnownUnits(hash: Hash, e: Execution, t: TxId)
    requires IsExecution(hash, e)
    ensures AllFor(CallsOf(e, t), StateOf(e).units)
    ensures CurrentCall(e, t).Some? ==> CurrentCall(e, t).value.unit in StateOf(e).units
  {
    if e.Then? {
      OpenCallsAreForKnownUnits(hash, e.before, t);
    }
  }

  /** Nothing is ever committed for a unit that does not exist. */
  lemma {:induction false} CommittedUnitsExist(hash: Hash, e: Execution)
    requires IsExecution(hash, e)
    ensures AllFor(CommittedCalls(e), StateOf(e).units)
  {
    if e.Then? {
      CommittedUnitsExist(hash, e.before);
      OpenCallsAreForKnownUnits(hash, e.before, e.step.tx);
    }
  }

  // ------------------------------------------------------------- what can be committed

  lemma TailExists(hash: Hash, rows: Rows) returns (tail: Option<ChainLink>)
    requires Chained(hash, rows)
    ensures IsTail(rows, tail)
  {
    var chain :| IsChain(hash, chain) && multiset(chain) == All(rows);
    tail := TailOf(chain);
    if chain != [] {
      LastInMultiset(chain);
      ChainPositions(hash, chain, |chain| - 1);
      forall r | r in All(rows)
        ensures r.link.position <= tail.value.position
      {
        RowsBelowLast(hash, chain, r);
      }
    }
  }

  lemma LockedSeesTail(hash: Hash, e: Execution, t: TxId) returns (tail: Option<ChainLink>)
    requires IsExecution(hash, e) && t in StateOf(e).txs && StateOf(e).txs[t].pc.Locked?
    ensures IsTail(Visible(StateOf(e).committed, StateOf(e).txs[t], StateOf(e).txs[t].pc.unit), tail)
  {
    ExecutionKeepsInv(hash, e);
    assert TxOk(hash, StateOf(e).committed, StateOf(e).txs[t]);
    tail := TailExists(hash, Visible(StateOf(e).committed, StateOf(e).txs[t], StateOf(e).txs[t].pc.unit));
  }

  lemma CallMade(hash: Hash, e: Execution, t: TxId, c: Call) returns (more: Execution)
    requires IsExecution(hash, e) && t in StateOf(e).txs && StateOf(e).txs[t].pc.Idle?
    requires c.unit in StateOf(e).units && Free(StateOf(e), t, c.unit)
    ensures IsExecution(hash, more) && CallsOf(more, t) == CallsOf(e, t) + [c]
    ensures CommittedCalls(more) == CommittedCalls(e) && StateOf(more).units == StateOf(e).units
    ensures t in StateOf(more).txs && StateOf(more).txs == StateOf(e).txs[t := StateOf(more).txs[t]]
    ensures StateOf(more).txs[t].pc.Idle?
  {
    hide Add, Both, Append, IsTail, All, IsChain, Chained;
    var db := StateOf(e);
    var tx := db.txs[t];
    var locked := db.(txs := db.txs[t := Tx(tx.locks + {c.unit}, tx.pending, Locked(c.unit, c.table, c.payload))]);
    var one := Then(e, LockUnit(t, c.unit, c.table, c.payload), locked);
    assert CallsOf(one, t) == CallsOf(e, t) && CommittedCalls(one) == CommittedCalls(e);
    var tail := LockedSeesTail(hash, one, t);
    var read := locked.(txs := locked.txs[t := TailRead(locked.txs[t], tail)]);
    var two := Then(one, ReadTail(t, tail), read);
    assert CurrentCall(one, t) == Some(c);
    assert CurrentCall(two, t) == CurrentCall(one, t);
    assert IsExecution(hash, one);
    assert IsExecution(hash, two);
    assert CallsOf(two, t) == CallsOf(e, t) && CommittedCalls(two) == CommittedCalls(e);
    more := Then(two, Insert(t), read.(txs := read.txs[t := Inserted(hash, read.txs[t])]));
  }

  lemma CallCommitted(hash: Hash, e: Execution, c: Call) returns (more: Execution)
    requires IsExecution(hash, e) && StateOf(e).txs == map[] && c.unit in StateOf(e).units
    ensures IsExecution(hash, more) && StateOf(more).txs == map[] && StateOf(more).units == StateOf(e).units
    ensures CommittedCalls(more) == CommittedCalls(e) + [c]
  {
    var begun := Then(e, Begin(0), StateOf(e).(txs := StateOf(e).txs[0 := Tx({}, map[], Idle)]));
    var made := CallMade(hash, begun, 0, c);
    var db := StateOf(made);
    more := Then(made, Commit(0), Db(db.units, Merged(db.committed, db.txs[0].pending), db.txs - {0}));
  }

  /** Whatever calls for units that exist are made one after another, all of them are committed. */
  lemma {:induction false} SerialRunExists(hash: Hash, units: set<UnitId>, calls: seq<Call>) returns (e: Execution)
    requires forall c :: c in calls ==> c.unit in units
    ensures IsExecution(hash, e) && CommittedCalls(e) == calls
    ensures StateOf(e).units == units && StateOf(e).txs == map[]
  {
    if calls == [] {
      e := Start(units);
    } else {
      var n := |calls| - 1;
      var earlier := SerialRunExists(hash, units, calls[..n]);
      e := CallCommitted(hash, earlier, calls[n]);
      assert calls == calls[..n] + [calls[n]];
    }
  }
}
