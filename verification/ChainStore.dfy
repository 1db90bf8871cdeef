/**
 Appending to a unit's chain from many transactions at once (crates/trace-store/src/repo.rs), and
 the auditor's check of what was committed (crates/trace-store/src/query.rs). A state machine over
 the statements of the transactions, at read-committed isolation and for one tenant.
 */
module ChainStore {
  import opened Collections
  import opened HashChain

  type UnitId = int
  type TxId = int

  datatype Table = UnitEvent | Measurement
  datatype Row = Row(payload: Text, link: ChainLink)

  /** The rows of one unit in the two evidence tables. */
  datatype Rows = Rows(events: seq<Row>, measurements: seq<Row>)

  /** Where a transaction is within append_event or append_measurement. */
  datatype Pc =
    | Idle
    | Locked(unit: UnitId, table: Table, payload: Text)
    | HaveTail(unit: UnitId, table: Table, payload: Text, tail: Option<ChainLink>)

  datatype Tx = Tx(locks: set<UnitId>, pending: map<UnitId, Rows>, pc: Pc)

  datatype Db = Db(units: set<UnitId>, committed: map<UnitId, Rows>, txs: map<TxId, Tx>)

  datatype Step =
    | Begin(tx: TxId)
    | LockUnit(tx: TxId, unit: UnitId, table: Table, payload: Text)
    | ReadTail(tx: TxId, tail: Option<ChainLink>)
    | Insert(tx: TxId)
    | Commit(tx: TxId)
    | Rollback(tx: TxId)

  function Of(store: map<UnitId, Rows>, u: UnitId): Rows {
    if u in store then store[u] else Rows([], [])
  }

  function Both(a: Rows, b: Rows): Rows {
    Rows(a.events + b.events, a.measurements + b.measurements)
  }

  function Add(rows: Rows, table: Table, row: Row): Rows {
    match table
    case UnitEvent => rows.(events := rows.events + [row])
    case Measurement => rows.(measurements := rows.measurements + [row])
  }

  function All(rows: Rows): multiset<Row> {
    multiset(rows.events) + multiset(rows.measurements)
  }

  function Merged(committed: map<UnitId, Rows>, pending: map<UnitId, Rows>): map<UnitId, Rows> {
    map u | u in committed.Keys + pending.Keys :: Both(Of(committed, u), Of(pending, u))
  }

  /** What a statement of `tx` sees of a unit: everything committed, and its own rows. */
  function Visible(committed: map<UnitId, Rows>, tx: Tx, u: UnitId): Rows {
    Both(Of(committed, u), Of(tx.pending, u))
  }

  /** A row that ORDER BY chain_seq DESC LIMIT 1 may return. */
  ghost predicate IsTail(rows: Rows, tail: Option<ChainLink>) {
    match tail
    case None => All(rows) == multiset{}
    case Some(link) =>
      && (exists r :: r in All(rows) && r.link == link)
      && forall r :: r in All(rows) ==> r.link.position <= link.position
  }

  ghost predicate Free(db: Db, tx: TxId, u: UnitId) {
    forall other :: other in db.txs && other != tx ==> u !in db.txs[other].locks
  }

  function TailRead(tx: Tx, tail: Option<ChainLink>): Tx
    requires tx.pc.Locked?
  {
    tx.(pc := HaveTail(tx.pc.unit, tx.pc.table, tx.pc.payload, tail))
  }

  /** The transaction after the new row, appended to the tail it read, has been inserted. */
  function Inserted(hash: Hash, tx: Tx): Tx
    requires tx.pc.HaveTail?
  {
    var HaveTail(u, table, payload, tail) := tx.pc;
    var row := Row(payload, Append(hash, tail, payload));
    Tx(tx.locks, tx.pending[u := Add(Of(tx.pending, u), table, row)], Idle)
  }

  /** One statement of one transaction. A lock is granted only while no other transaction holds it. */
  ghost predicate Next(hash: Hash, db: Db, step: Step, after: Db) {
    match step
    case Begin(t) => t !in db.txs && after == db.(txs := db.txs[t := Tx({}, map[], Idle)])
    case LockUnit(t, u, table, payload) =>
      && t in db.txs && db.txs[t].pc.Idle? && u in db.units && Free(db, t, u)
      && after == db.(txs := db.txs[t := Tx(db.txs[t].locks + {u}, db.txs[t].pending, Locked(u, table, payload))])
    case ReadTail(t, tail) =>
      && t in db.txs && db.txs[t].pc.Locked? && IsTail(Visible(db.committed, db.txs[t], db.txs[t].pc.unit), tail)
      && after == db.(txs := db.txs[t := TailRead(db.txs[t], tail)])
    case Insert(t) =>
      && t in db.txs && db.txs[t].pc.HaveTail?
      && after == db.(txs := db.txs[t := Inserted(hash, db.txs[t])])
    case Commit(t) =>
      && t in db.txs && db.txs[t].pc.Idle?
      && after == Db(db.units, Merged(db.committed, db.txs[t].pending), db.txs - {t})
    case Rollback(t) => t in db.txs && after == db.(txs := db.txs - {t})
  }

  /** The statements executed so far, with the state each one led to. */
  datatype Execution = Start(units: set<UnitId>) | Then(before: Execution, step: Step, db: Db)

  function StateOf(e: Execution): Db {
    match e
    case Start(units) => Db(units, map[], map[])
    case Then(_, _, db) => db
  }

  ghost predicate IsExecution(hash: Hash, e: Execution) {
    match e
    case Start(_) => true
    case Then(before, step, db) => IsExecution(hash, before) && Next(hash, StateOf(before), step, db)
  }

  // ------------------------------------------------------------- the chain

  function TailOf(chain: seq<Row>): Option<ChainLink> {
    if chain == [] then None else Some(chain[|chain| - 1].link)
  }

  /** Each row was appended to the one before it. */
  ghost predicate IsChain(hash: Hash, chain: seq<Row>) {
    chain == [] ||
    var earlier, last := chain[..|chain| - 1], chain[|chain| - 1];
    IsChain(hash, earlier) && last.link == Append(hash, TailOf(earlier), last.payload)
  }

  ghost predicate Chained(hash: Hash, rows: Rows) {
    exists chain {:trigger IsChain(hash, chain)} :: IsChain(hash, chain) && multiset(chain) == All(rows)
  }

  lemma {:induction false} ChainPositions(hash: Hash, chain: seq<Row>, i: nat)
    requires IsChain(hash, chain) && i < |chain|
    ensures chain[i].link.position == i
    ensures chain[i].link.prevHash == (if i == 0 then Genesis() else chain[i - 1].link.rowHash)
  {
    var earlier := chain[..|chain| - 1];
    if i < |earlier| {
      ChainPositions(hash, earlier, i);
    } else if earlier != [] {
      ChainPositions(hash, earlier, i - 1);
    }
  }

  lemma {:induction false} RowsBelowLast(hash: Hash, chain: seq<Row>, r: Row)
    requires IsChain(hash, chain) && r in multiset(chain)
    ensures r.link.position < |chain| && (r.link.position == |chain| - 1 ==> r == chain[|chain| - 1])
  {
    DropLast(chain);
    ChainPositions(hash, chain, |chain| - 1);
    if r in multiset(chain[..|chain| - 1]) {
      RowsBelowLast(hash, chain[..|chain| - 1], r);
    }
  }

  lemma LastInMultiset(s: seq<Row>)
    requires s != []
    ensures s[|s| - 1] in multiset(s)
  {
    DropLast(s);
  }

  /** In a chain only the last row can be the tail. */
  lemma {:induction false} TailIsLast(hash: Hash, chain: seq<Row>, rows: Rows, tail: Option<ChainLink>)
    requires IsChain(hash, chain) && multiset(chain) == All(rows) && IsTail(rows, tail)
    ensures tail == TailOf(chain)
  {
    if chain != [] {
      LastInMultiset(chain);
      ChainPositions(hash, chain, |chain| - 1);
      if tail.Some? {
        var r :| r in All(rows) && r.link == tail.value;
        RowsBelowLast(hash, chain, r);
      }
    }
  }

  lemma AllAdd(rows: Rows, table: Table, row: Row)
    ensures All(Add(rows, table, row)) == All(rows) + multiset{row}
  {
  }

  lemma ChainExtended(hash: Hash, chain: seq<Row>, payload: Text)
    requires IsChain(hash, chain)
    ensures var row := Row(payload, Append(hash, TailOf(chain), payload));
      IsChain(hash, chain + [row]) && multiset(chain + [row]) == multiset(chain) + multiset{row}
  {
    var row := Row(payload, Append(hash, TailOf(chain), payload));
    assert (chain + [row])[..|chain|] == chain;
  }

  lemma {:induction false} AppendKeepsChain(hash: Hash, rows: Rows, tail: Option<ChainLink>, table: Table,
                                            payload: Text)
    requires Chained(hash, rows) && IsTail(rows, tail)
    ensures Chained(hash, Add(rows, table, Row(payload, Append(hash, tail, payload))))
  {
    var chain :| IsChain(hash, chain) && multiset(chain) == All(rows);
    TailIsLast(hash, chain, rows, tail);
    ChainExtended(hash, chain, payload);
    AllAdd(rows, table, Row(payload, Append(hash, tail, payload)));
  }

  // ------------------------------------------------------------ the invariant

  ghost predicate CommittedChained(hash: Hash, db: Db) {
    forall u :: Chained(hash, Of(db.committed, u))
  }

  /** A transaction extends only units it has locked, and what it sees of them is a chain. */
  ghost predicate TxOk(hash: Hash, committed: map<UnitId, Rows>, tx: Tx) {
    && (forall u :: u in tx.locks ==> Chained(hash, Visible(committed, tx, u)))
    && (forall u :: u !in tx.locks ==> Of(tx.pending, u) == Rows([], []))
    && (!tx.pc.Idle? ==> tx.pc.unit in tx.locks)
    && (tx.pc.HaveTail? ==> IsTail(Visible(committed, tx, tx.pc.unit), tx.pc.tail))
  }

  ghost predicate Exclusive(db: Db) {
    forall t, o :: t in db.txs && o in db.txs && t != o ==> db.txs[t].locks !! db.txs[o].locks
  }

  ghost predicate Inv(hash: Hash, db: Db) {
    && CommittedChained(hash, db) && Exclusive(db)
    && forall t :: t in db.txs ==> TxOk(hash, db.committed, db.txs[t])
  }

  lemma BothEmpty(rows: Rows)
    ensures Both(rows, Rows([], [])) == rows
  {
    assert rows.events + [] == rows.events && rows.measurements + [] == rows.measurements;
  }

  lemma BothAdd(a: Rows, b: Rows, table: Table, row: Row)
    ensures Both(a, Add(b, table, row)) == Add(Both(a, b), table, row)
  {
    assert a.events + (b.events + [row]) == a.events + b.events + [row];
    assert a.measurements + (b.measurements + [row]) == a.measurements + b.measurements + [row];
  }

  lemma {:induction false} LockedTxOk(hash: Hash, committed: map<UnitId, Rows>, tx: Tx, u: UnitId, table: Table,
                                      payload: Text)
    requires TxOk(hash, committed, tx) && tx.pc.Idle? && Chained(hash, Of(committed, u))
    ensures TxOk(hash, committed, Tx(tx.locks + {u}, tx.pending, Locked(u, table, payload)))
  {
    BothEmpty(Of(committed, u));
    var locked := Tx(tx.locks + {u}, tx.pending, Locked(u, table, payload));
    forall v | v in locked.locks ensures Chained(hash, Visible(committed, locked, v)) {
      assert Visible(committed, locked, v) == Visible(committed, tx, v);
    }
  }

  lemma VisibleAfterInsert(hash: Hash, committed: map<UnitId, Rows>, tx: Tx, v: UnitId)
    requires tx.pc.HaveTail?
    ensures var row := Row(tx.pc.payload, Append(hash, tx.pc.tail, tx.pc.payload));
      Visible(committed, Inserted(hash, tx), v) ==
        if v == tx.pc.unit then Add(Visible(committed, tx, v), tx.pc.table, row) else Visible(committed, tx, v)
    ensures v != tx.pc.unit ==> Of(Inserted(hash, tx).pending, v) == Of(tx.pending, v)
  {
    BothAdd(Of(committed, v), Of(tx.pending, v), tx.pc.table,
            Row(tx.pc.payload, Append(hash, tx.pc.tail, tx.pc.payload)));
  }

  lemma {:induction false} InsertedTxOk(hash: Hash, committed: map<UnitId, Rows>, tx: Tx)
    requires TxOk(hash, committed, tx) && tx.pc.HaveTail?
    ensures TxOk(hash, committed, Inserted(hash, tx))
  {
    AppendKeepsChain(hash, Visible(committed, tx, tx.pc.unit), tx.pc.tail, tx.pc.table, tx.pc.payload);
    forall v
      ensures v in tx.locks ==> Chained(hash, Visible(committed, Inserted(hash, tx), v))
      ensures v !in tx.locks ==> Of(Inserted(hash, tx).pending, v) == Rows([], [])
    {
      VisibleAfterInsert(hash, committed, tx, v);
    }
  }

  /** A transaction is not disturbed by changes to units it has not locked. */
  lemma Undisturbed(hash: Hash, before: map<UnitId, Rows>, after: map<UnitId, Rows>, tx: Tx)
    requires TxOk(hash, before, tx) && forall u :: u in tx.locks ==> Of(after, u) == Of(before, u)
    ensures TxOk(hash, after, tx)
  {
    forall u | u in tx.locks ensures Visible(after, tx, u) == Visible(before, tx, u) {}
  }

  lemma {:induction false} CommitKeepsInv(hash: Hash, db: Db, t: TxId)
    requires Inv(hash, db) && t in db.txs
    ensures Inv(hash, Db(db.units, Merged(db.committed, db.txs[t].pending), db.txs - {t}))
  {
    var tx, merged := db.txs[t], Merged(db.committed, db.txs[t].pending);
    forall u
      ensures Chained(hash, Of(merged, u)) && (u !in tx.locks ==> Of(merged, u) == Of(db.committed, u))
    {
      BothEmpty(Of(db.committed, u));
      assert Of(merged, u) == Visible(db.committed, tx, u);
      assert Chained(hash, Of(db.committed, u));
    }
    forall o | o in db.txs && o != t ensures TxOk(hash, merged, db.txs[o]) {
      assert db.txs[o].locks !! tx.locks;
      Undisturbed(hash, db.committed, merged, db.txs[o]);
    }
  }

  /** Replacing one transaction keeps the invariant when it takes only free locks and stays in order itself. */
  lemma Replaced(hash: Hash, db: Db, t: TxId, tx: Tx)
    requires Inv(hash, db) && TxOk(hash, db.committed, tx)
    requires forall other :: other in db.txs && other != t ==> tx.locks !! db.txs[other].locks
    ensures Inv(hash, db.(txs := db.txs[t := tx]))
  {
  }

  lemma {:induction false} StepKeepsInv(hash: Hash, db: Db, step: Step, after: Db)
    requires Inv(hash, db) && Next(hash, db, step, after)
    ensures Inv(hash, after)
  {
    match step
    case Begin(t) => Replaced(hash, db, t, Tx({}, map[], Idle));
    case LockUnit(t, u, table, payload) =>
      LockedTxOk(hash, db.committed, db.txs[t], u, table, payload);
      Replaced(hash, db, t, Tx(db.txs[t].locks + {u}, db.txs[t].pending, Locked(u, table, payload)));
    case ReadTail(t, tail) => Replaced(hash, db, t, TailRead(db.txs[t], tail));
    case Insert(t) =>
      InsertedTxOk(hash, db.committed, db.txs[t]);
      Replaced(hash, db, t, Inserted(hash, db.txs[t]));
    case Commit(t) => CommitKeepsInv(hash, db, t);
    case Rollback(_) =>
  }

  /** After any interleaving, in every reachable state, each unit's committed rows form one chain. */
  lemma {:induction false} ExecutionKeepsInv(hash: Hash, e: Execution)
    requires IsExecution(hash, e)
    ensures Inv(hash, StateOf(e))
  {
    match e
    case Start(units) =>
      forall u ensures Chained(hash, Of(StateOf(e).committed, u)) {
        assert IsChain(hash, []) && multiset([]) == All(Of(StateOf(e).committed, u));
      }
    case Then(before, step, db) =>
      ExecutionKeepsInv(hash, before);
      StepKeepsInv(hash, StateOf(before), step, db);
  }

  // ------------------------------------------------------------- the audit

  function Links(rows: seq<Row>): (links: seq<ChainLink>)
    ensures |links| == |rows|
  {
    if rows == [] then [] else Links(rows[..|rows| - 1]) + [rows[|rows| - 1].link]
  }

  function Payloads(rows: seq<Row>): (payloads: seq<Text>)
    ensures |payloads| == |rows|
  {
    if rows == [] then [] else Payloads(rows[..|rows| - 1]) + [rows[|rows| - 1].payload]
  }

  /** A chain of rows is the chain that appending its payloads builds. */
  lemma {:induction false} ChainIsBuilt(hash: Hash, chain: seq<Row>)
    ensures IsChain(hash, chain) <==> Links(chain) == Build(hash, Payloads(chain))
  {
    if chain != [] {
      var earlier, last := chain[..|chain| - 1], chain[|chain| - 1];
      ChainIsBuilt(hash, earlier);
      var links, payloads := Links(chain), Payloads(chain);
      assert links[..|earlier|] == Links(earlier) && payloads[..|earlier|] == Payloads(earlier);
      var built := Build(hash, payloads);
      assert built[..|earlier|] == Build(hash, Payloads(earlier));
      assert links == Links(earlier) + [last.link];
      assert IsChain(hash, earlier) ==> TailOf(earlier) == Last(Links(earlier));
    }
  }

  /** No row comes before one with a smaller position. */
  ghost predicate Sorted(q: seq<Row>) {
    q == [] ||
    (Sorted(q[..|q| - 1]) && forall r :: r in multiset(q[..|q| - 1]) ==> r.link.position <= q[|q| - 1].link.position)
  }

  /** A result of SELECT ... ORDER BY chain_seq: rows with equal positions may come in any order. */
  ghost predicate OrderedRows(q: seq<Row>, rows: Rows) {
    multiset(q) == All(rows) && Sorted(q)
  }

  lemma SortedBelowLast(q: seq<Row>, r: Row)
    requires Sorted(q) && r in multiset(q)
    ensures r.link.position <= q[|q| - 1].link.position
  {
    DropLast(q);
  }

  /** A chain is the only sorted order of its rows. */
  lemma {:induction false} OrderIsUnique(hash: Hash, q: seq<Row>, chain: seq<Row>)
    requires multiset(q) == multiset(chain) && IsChain(hash, chain) && Sorted(q)
    ensures q == chain
  {
    assert |multiset(q)| == |multiset(chain)|;
    if q != [] {
      var n := |q| - 1;
      LastInMultiset(q);
      LastInMultiset(chain);
      RowsBelowLast(hash, chain, q[n]);
      SortedBelowLast(q, chain[n]);
      ChainPositions(hash, chain, n);
      DropLast(q);
      DropLast(chain);
      OrderIsUnique(hash, q[..n], chain[..n]);
    }
  }

  /** Each row points at the row hash of the one before it. */
  ghost predicate PrevLinked(rows: seq<Row>) {
    forall i :: 0 <= i < |rows| ==> LinkedAt(rows, i)
  }

  ghost predicate LinkedAt(rows: seq<Row>, i: nat)
    requires i < |rows|
  {
    rows[i].link.prevHash == PrevOf(rows, i)
  }

  function PrevOf(rows: seq<Row>, i: nat): Text
    requires i <= |rows|
  {
    if i == 0 then Genesis() else rows[i - 1].link.rowHash
  }

  ghost predicate FirstBroken(rows: seq<Row>, i: int, e: ChainError) {
    && 0 <= i < |rows|
    && (forall k :: 0 <= k < i ==> LinkedAt(rows, k)) && !LinkedAt(rows, i)
    && e == PrevMismatch(rows[i].link.position, PrevOf(rows, i), rows[i].link.prevHash)
  }

  /** The auditor's check of the stored links: counts the rows, or reports the first broken link. */
  method VerifyUnitChain(rows: seq<Row>) returns (res: Result<nat, ChainError>)
    ensures res.Ok? <==> PrevLinked(rows)
    ensures res.Ok? ==> res.value == |rows|
    ensures res.Err? ==> exists i :: FirstBroken(rows, i, res.error)
  {
    var expectedPrev: Text := Genesis();
    var i := 0;
    while i < |rows|
      invariant 0 <= i <= |rows| && expectedPrev == PrevOf(rows, i)
      invariant forall k :: 0 <= k < i ==> LinkedAt(rows, k)
    {
      var link := rows[i].link;
      assert LinkedAt(rows, i) <==> link.prevHash == expectedPrev;
      if link.prevHash != expectedPrev {
        assert FirstBroken(rows, i, PrevMismatch(link.position, expectedPrev, link.prevHash));
        return Err(PrevMismatch(link.position, expectedPrev, link.prevHash));
      }
      expectedPrev := link.rowHash;
      i := i + 1;
    }
    res := Ok(|rows|);
  }

  lemma ChainIsPrevLinked(hash: Hash, chain: seq<Row>)
    requires IsChain(hash, chain)
    ensures PrevLinked(chain)
  {
    forall i | 0 <= i < |chain| ensures LinkedAt(chain, i) {
      ChainPositions(hash, chain, i);
    }
  }

  /**
   Concurrent appends: after any interleaving of any number of transactions, the committed rows
   of a unit, taken from both tables and ordered by chain_seq in any way SQL may order them, carry
   the positions 0 to n-1 without gap or duplicate, are the chain built from their payloads, and
   pass the auditor's check.
   */
  lemma {:induction false} ConcurrentAppends(hash: Hash, e: Execution, u: UnitId, q: seq<Row>)
    requires IsExecution(hash, e) && OrderedRows(q, Of(StateOf(e).committed, u))
    ensures forall i :: 0 <= i < |q| ==> q[i].link.position == i
    ensures Links(q) == Build(hash, Payloads(q))
    ensures PrevLinked(q)
  {
    ExecutionKeepsInv(hash, e);
    assert Chained(hash, Of(StateOf(e).committed, u));
    var chain: seq<Row> :| IsChain(hash, chain) && multiset(chain) == All(Of(StateOf(e).committed, u));
    OrderIsUnique(hash, q, chain);
    forall i | 0 <= i < |q| ensures q[i].link.position == i {
      ChainPositions(hash, q, i);
    }
    ChainIsBuilt(hash, q);
    ChainIsPrevLinked(hash, q);
  }

  // ------------------------------------------------------------- deletion

  /** The rows left over when only those at the indices `kept` survive. */
  function Surviving(chain: seq<Row>, kept: seq<nat>): (rows: seq<Row>)
    requires forall i :: 0 <= i < |kept| ==> kept[i] < |chain|
    ensures |rows| == |kept| && forall i :: 0 <= i < |kept| ==> rows[i] == chain[kept[i]]
  {
    seq(|kept|, i requires 0 <= i < |kept| => chain[kept[i]])
  }

  /** Indices into a chain, in any order and with repetitions. */
  ghost predicate Indices(kept: seq<nat>, n: nat) {
    forall i :: 0 <= i < |kept| ==> kept[i] < n
  }

  lemma {:induction false} TipOfChain(hash: Hash, chain: seq<Row>, i: nat)
    requires IsChain(hash, chain) && i <= |chain|
    ensures PrevOf(chain, i) == Tip(hash, Payloads(chain)[..i])
  {
    ChainIsBuilt(hash, chain);
    var payloads := Payloads(chain);
    if i > 0 {
      BuiltAt(hash, payloads, i - 1);
      LinkAt(chain, i - 1);
    }
  }

  lemma {:induction false} LinkAt(chain: seq<Row>, i: nat)
    requires i < |chain|
    ensures Links(chain)[i] == chain[i].link
  {
    if i < |chain| - 1 { LinkAt(chain[..|chain| - 1], i); }
  }

  /** Two different places of a chain never expect the same previous hash. */
  lemma PlacesDiffer(hash: Hash, chain: seq<Row>, i: nat, j: nat) returns (e: Evidence)
    requires IsChain(hash, chain) && i <= |chain| && j <= |chain|
    requires PrevOf(chain, i) == PrevOf(chain, j)
    ensures Convicts(hash, e, i == j)
  {
    TipOfChain(hash, chain, i);
    TipOfChain(hash, chain, j);
    if i < j {
      e := RowHashesDistinct(hash, Payloads(chain), i, j);
    } else if j < i {
      e := RowHashesDistinct(hash, Payloads(chain), j, i);
    } else {
      e := Equal;
    }
  }

  /** What is left is a prefix of the chain. */
  ghost predicate IsPrefixOf(kept: seq<nat>, n: nat) {
    |kept| <= n && forall i :: 0 <= i < |kept| ==> kept[i] == i
  }

  /**
   Deletion, reordering and repetition: of all lists of rows of a chain the auditor's check accepts
   exactly the prefixes of the chain, unless the digest function is broken as shown.
   */
  lemma {:induction false} DeletionIsNoticed(hash: Hash, chain: seq<Row>, kept: seq<nat>) returns (e: Evidence)
    requires IsChain(hash, chain) && Indices(kept, |chain|)
    ensures IsPrefixOf(kept, |chain|) ==> PrevLinked(Surviving(chain, kept))
    ensures PrevLinked(Surviving(chain, kept)) ==> Convicts(hash, e, IsPrefixOf(kept, |chain|))
  {
    e := Equal;
    if IsPrefixOf(kept, |chain|) {
      PrefixIsAccepted(hash, chain, kept);
    } else if PrevLinked(Surviving(chain, kept)) {
      var i := FirstGap(kept, |chain|);
      GapPoints(hash, chain, kept, i);
      e := PlacesDiffer(hash, chain, i, kept[i]);
    }
  }

  lemma PrefixIsAccepted(hash: Hash, chain: seq<Row>, kept: seq<nat>)
    requires IsChain(hash, chain) && Indices(kept, |chain|) && IsPrefixOf(kept, |chain|)
    ensures PrevLinked(Surviving(chain, kept))
  {
    var rows := Surviving(chain, kept);
    forall i | 0 <= i < |rows| ensures LinkedAt(rows, i) {
      assert kept[i] == i < |chain| && rows[i] == chain[i];
      assert i > 0 ==> kept[i - 1] == i - 1 && rows[i - 1] == chain[i - 1];
      ChainPositions(hash, chain, i);
    }
  }

  /** The first row that is out of place points at a place of the chain other than the one it follows. */
  lemma GapPoints(hash: Hash, chain: seq<Row>, kept: seq<nat>, i: nat)
    requires IsChain(hash, chain) && Indices(kept, |chain|) && PrevLinked(Surviving(chain, kept))
    requires i < |kept| && i <= |chain| && (i > 0 ==> kept[i - 1] == i - 1)
    ensures PrevOf(chain, i) == PrevOf(chain, kept[i])
  {
    var rows := Surviving(chain, kept);
    assert LinkedAt(rows, i) && rows[i] == chain[kept[i]];
    assert i > 0 ==> rows[i - 1] == chain[i - 1];
    ChainPositions(hash, chain, kept[i]);
  }

  lemma FirstGap(kept: seq<nat>, n: nat) returns (i: nat)
    requires Indices(kept, n) && !IsPrefixOf(kept, n)
    ensures i < |kept| && i <= n && kept[i] != i && (i > 0 ==> kept[i - 1] == i - 1)
  {
    i := 0;
    while i < |kept| && kept[i] == i
      invariant i <= |kept|
      invariant forall k :: 0 <= k < i ==> kept[k] == k
    {
      i := i + 1;
    }
    assert i > 0 ==> kept[i - 1] < n;
  }

  /** Where the rows of a list are in a chain. */
  function PlacesIn(q: seq<Row>): (places: seq<nat>)
    ensures |places| == |q| && forall i :: 0 <= i < |q| ==> places[i] == q[i].link.position
  {
    seq(|q|, i requires 0 <= i < |q| => q[i].link.position)
  }

  lemma RowsInTheirPlaces(hash: Hash, chain: seq<Row>, q: seq<Row>)
    requires IsChain(hash, chain) && multiset(q) <= multiset(chain)
    ensures Indices(PlacesIn(q), |chain|) && Surviving(chain, PlacesIn(q)) == q
  {
    forall i | 0 <= i < |q|
      ensures q[i].link.position < |chain| && chain[q[i].link.position] == q[i]
    {
      assert q[i] in multiset(q);
      var k :| 0 <= k < |chain| && chain[k] == q[i];
      ChainPositions(hash, chain, k);
    }
  }

  /**
   The audit after any interleaving of appends and any deletion from the two tables: in whatever order
   SQL returns what is left, it passes exactly when that is a prefix of what had been committed.
   */
  lemma AuditSeesDeletion(hash: Hash, e: Execution, u: UnitId, all: seq<Row>, rest: Rows, q: seq<Row>)
    returns (evidence: Evidence)
    requires IsExecution(hash, e) && OrderedRows(all, Of(StateOf(e).committed, u))
    requires All(rest) <= All(Of(StateOf(e).committed, u)) && OrderedRows(q, rest)
    ensures q <= all ==> PrevLinked(q)
    ensures PrevLinked(q) ==> Convicts(hash, evidence, q <= all)
  {
    ExecutionKeepsInv(hash, e);
    assert Chained(hash, Of(StateOf(e).committed, u));
    var chain: seq<Row> :| IsChain(hash, chain) && multiset(chain) == All(Of(StateOf(e).committed, u));
    OrderIsUnique(hash, all, chain);
    RowsInTheirPlaces(hash, all, q);
    var places := PlacesIn(q);
    evidence := DeletionIsNoticed(hash, all, places);
    if q <= all {
      forall i | 0 <= i < |q|
        ensures places[i] == i
      {
        ChainPositions(hash, all, i);
      }
    }
  }

  /** The auditor's check reads no payload: rewriting payloads in place is left to `HashChain.Verify`. */
  lemma PayloadsAreNotRead(rows: seq<Row>, edited: seq<Row>)
    requires Links(rows) == Links(edited)
    ensures PrevLinked(rows) <==> PrevLinked(edited)
  {
    assert |rows| == |edited| by { assert |Links(rows)| == |Links(edited)|; }
    forall i | 0 <= i < |rows|
      ensures rows[i].link == edited[i].link
    {
      LinkAt(rows, i);
      LinkAt(edited, i);
    }
    forall i | 0 <= i < |rows| ensures LinkedAt(rows, i) <==> LinkedAt(edited, i) {}
  }
}
