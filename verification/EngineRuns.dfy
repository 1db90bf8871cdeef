/** Safety of whole engine runs: resolve an operation, attempt it, and again. */
module EngineRuns {
  import opened Collections
  import opened RouteModel
  import opened RouteGraph
  import opened Routes
  import opened Units
  import opened Engine

  /** One turn at a station: the state the unit was in, what the gates saw, and the outcome. */
  datatype Attempt = Attempt(state: UnitState, station: Station, ctx: Context, advance: Advance)

  datatype Run = NoTurns | Turn(before: Run, last: Attempt)

  /** The operations completed so far, in order. */
  function History(run: Run): seq<OperationSeq> {
    match run
    case NoTurns => []
    case Turn(before, last) =>
      if last.advance.Completed? then History(before) + [last.ctx.operation.seq_] else History(before)
  }

  /** What the last completed attempt reported as ready next. */
  function LastReported(run: Run): Option<seq<OperationSeq>> {
    match run
    case NoTurns => None
    case Turn(before, last) => if last.advance.Completed? then Some(last.advance.nextReady) else LastReported(before)
  }

  /** Each attempt is at an operation the engine resolved from what was completed before it. */
  ghost predicate IsRun(route: Route, run: Run) {
    match run
    case NoTurns => true
    case Turn(before, last) => IsRun(route, before) && IsTurn(route, Elements(History(before)), last)
  }

  ghost predicate IsTurn(route: Route, completed: set<OperationSeq>, a: Attempt) {
    && a.ctx.route == route && a.ctx.completed == completed
    && ResolveOperation(route, a.state, a.station, completed) == Ok(a.ctx.operation)
    && a.advance == Advanced(a.ctx)
  }

  ghost predicate IsRequired(route: Route, s: OperationSeq) {
    Operation(route, s).Some? && Operation(route, s).value.requirement.Required?
  }

  /** No operation is listed twice, and none before one of its required predecessors. */
  ghost predicate InOrder(route: Route, history: seq<OperationSeq>) {
    history == [] ||
    var earlier, last := history[..|history| - 1], history[|history| - 1];
    var g := GraphOf(route.operations);
    && InOrder(route, earlier)
    && last in g && last !in Elements(earlier)
    && forall p :: p in g[last] && IsRequired(route, p) ==> p in Elements(earlier)
  }

  // ------------------------------------------------------------ one attempt

  /** A station is given an operation exactly when it can perform one that is ready; it gets the first. */
  lemma ResolvesAReadyOperation(route: Route, state: UnitState, station: Station, completed: set<OperationSeq>)
    ensures ResolveOperation(route, state, station, completed) == Err(UnitNotWorkable) <==>
      state !in {Born, Marked, InProcess, Reworking}
    ensures ResolveOperation(route, state, station, completed).Ok? <==>
      state in {Born, Marked, InProcess, Reworking} && station.active &&
      exists op :: op in ReadyOperations(route, completed) && op.operationDefId in station.operations
    ensures match ResolveOperation(route, state, station, completed)
      case Err(_) => true
      case Ok(op) => op in route.operations && IsReady(route, op, completed) && op.operationDefId in station.operations
  {
    var can := (op: RouteOperation) => op.operationDefId in station.operations;
    var ready := ReadyOperations(route, completed);
    var served := Filter(can, ready);
    if served != [] {
      FilterMember(can, ready, served[0]);
      ReadyMember(route, completed, served[0]);
    }
    if op :| op in ready && can(op) {
      FilterMember(can, ready, op);
    }
  }

  lemma {:induction false} EntryResultsMember(gates: seq<Gate>, ctx: Context, r: GateResult)
    ensures r in EntryResults(gates, ctx) <==>
      r.gate in gates && !r.gate.IsOutput() && r.passed == GatePasses(r.gate, ctx)
  {
    if gates != [] {
      var init, last := gates[..|gates| - 1], gates[|gates| - 1];
      EntryResultsMember(init, ctx, r);
      assert gates == init + [last];
    }
  }

  lemma {:induction false} InterlocksMember(gates: seq<Gate>, device: RowId)
    ensures device in Interlocks(gates) <==> InterlockOut(device) in gates
  {
    if gates != [] {
      var init, last := gates[..|gates| - 1], gates[|gates| - 1];
      InterlocksMember(init, device);
      assert gates == init + [last];
    }
  }

  /**
   An attempt completes exactly when every entry gate passes, and only then releases its
   interlocks. A blocked attempt releases nothing and reports exactly the gates that failed.
   */
  lemma CompletesIffAllGreen(ctx: Context, gate: Gate, device: RowId)
    ensures Advanced(ctx).Completed? <==>
      forall g :: g in ctx.operation.gates && !g.IsOutput() ==> GatePasses(g, ctx)
    ensures Advanced(ctx).Completed? ==>
      (device in Advanced(ctx).effects <==> InterlockOut(device) in ctx.operation.gates)
    ensures Advanced(ctx).Blocked? ==>
      (GateResult(gate, false) in Advanced(ctx).failures <==>
         gate in ctx.operation.gates && !gate.IsOutput() && !GatePasses(gate, ctx))
  {
    var failed := (r: GateResult) => !r.passed;
    var gates := ctx.operation.gates;
    var entry := EntryResults(gates, ctx);
    var failures := Filter(failed, entry);
    if failures != [] {
      FilterMember(failed, entry, failures[0]);
      EntryResultsMember(gates, ctx, failures[0]);
    }
    forall g | g in gates && !g.IsOutput() && !GatePasses(g, ctx)
      ensures failures != []
    {
      FilterMember(failed, entry, GateResult(g, false));
      EntryResultsMember(gates, ctx, GateResult(g, false));
    }
    InterlocksMember(gates, device);
    FilterMember(failed, entry, GateResult(gate, false));
    EntryResultsMember(gates, ctx, GateResult(gate, false));
  }

  /** A precondition gate on a resolved operation never fails: readiness already implies it. */
  lemma PreconditionIsImplied(route: Route, completed: set<OperationSeq>, a: Attempt)
    requires IsTurn(route, completed, a)
    ensures GatePasses(Precondition, a.ctx)
  {
    ResolvesAReadyOperation(route, a.state, a.station, completed);
  }

  // --------------------------------------------------------- failed attempts

  /** How many times in a row an operation may be attempted from this attempt on, failing each time. */
  function AttemptsFrom(path: FailurePath, attempt: nat): nat
    decreases if path.Retry? && attempt < path.maxAttempts then path.maxAttempts - attempt else 0
  {
    if DispositionFor(path, attempt).RetryAgain? then 1 + AttemptsFrom(path, attempt + 1) else 1
  }

  /**
   Retries run out: a retry path allows exactly its configured number of attempts, the number of
   attempts reported as remaining is the number still to come, and the last failure quarantines.
   */
  lemma {:induction false} RetriesRunOut(path: FailurePath, attempt: nat)
    ensures AttemptsFrom(path, attempt) ==
      if path.Retry? && attempt < path.maxAttempts then path.maxAttempts - attempt + 1 else 1
    ensures DispositionFor(path, attempt).RetryAgain? ==>
      DispositionFor(path, attempt).attemptsRemaining == AttemptsFrom(path, attempt) - 1
    ensures path.Retry? && AttemptsFrom(path, attempt) == 1 ==> DispositionFor(path, attempt).QuarantineUnit?
    decreases AttemptsFrom(path, attempt)
  {
    if DispositionFor(path, attempt).RetryAgain? {
      RetriesRunOut(path, attempt + 1);
    }
  }

  // -------------------------------------------------------------- whole runs

  lemma SatisfiedPredecessors(route: Route, op: RouteOperation, completed: set<OperationSeq>)
    requires DistinctSeqs(route.operations) && op in route.operations && PredecessorsSatisfied(route, op, completed)
    ensures var g := GraphOf(route.operations);
      op.seq_ in g && forall p :: p in g[op.seq_] && IsRequired(route, p) ==> p in completed
  {
    var i :| 0 <= i < |route.operations| && route.operations[i] == op;
    GraphOfMember(route.operations, i);
  }

  /** In every run each operation completes at most once, and after its direct required predecessors. */
  lemma {:induction false} RunsAreInOrder(route: Route, run: Run)
    requires DistinctSeqs(route.operations) && IsRun(route, run)
    ensures InOrder(route, History(run))
  {
    match run
    case NoTurns =>
    case Turn(before, last) =>
      RunsAreInOrder(route, before);
      var completed := Elements(History(before));
      ResolvesAReadyOperation(route, last.state, last.station, completed);
      SatisfiedPredecessors(route, last.ctx.operation, completed);
      assert (History(before) + [last.ctx.operation.seq_])[..|History(before)|] == History(before);
  }

  /** A history in order lists no operation twice. */
  lemma {:induction false} InOrderIsDistinct(route: Route, history: seq<OperationSeq>)
    requires InOrder(route, history)
    ensures Distinct(history)
  {
    if history != [] {
      var earlier := history[..|history| - 1];
      InOrderIsDistinct(route, earlier);
      forall i, j | 0 <= i < j < |history| ensures history[i] != history[j] {
        assert history[i] == earlier[i];
        if j < |earlier| { assert history[j] == earlier[j]; }
      }
    }
  }

  /**
   Ordering is transitive through required operations: if all but the last entry of a walk are
   required, the first completes before the last. `SkippedOptional` shows it is not transitive
   through an optional one.
   */
  lemma {:induction false} RequiredWalkInOrder(route: Route, history: seq<OperationSeq>, walk: seq<OperationSeq>,
                                               j: nat)
    requires InOrder(route, history) && IsWalk(GraphOf(route.operations), walk)
    requires forall k :: 0 <= k < |walk| - 1 ==> IsRequired(route, walk[k])
    requires j < |history| && history[j] == walk[|walk| - 1]
    ensures walk[0] in history[..j]
    decreases |history| + |walk|
  {
    var g := GraphOf(route.operations);
    var earlier := history[..|history| - 1];
    if j < |earlier| {
      RequiredWalkInOrder(route, earlier, walk, j);
      assert earlier[..j] == history[..j];
    } else {
      var p := walk[|walk| - 2];
      assert Edge(g, walk, |walk| - 2);
      assert history[..j] == earlier && p in Elements(earlier);
      if |walk| > 2 {
        var shorter := walk[..|walk| - 1];
        forall k | 0 <= k < |shorter| - 1 ensures Edge(g, shorter, k) { assert Edge(g, walk, k); }
        var i :| 0 <= i < |earlier| && earlier[i] == p;
        RequiredWalkInOrder(route, earlier, shorter, i);
        var m :| 0 <= m < i && earlier[m] == walk[0];
      }
    }
  }

  lemma SeqsOfMember(ops: seq<RouteOperation>, op: RouteOperation)
    requires op in ops
    ensures op.seq_ in SeqsOf(ops)
  {
    MapMember((o: RouteOperation) => o.seq_, ops, op.seq_);
  }

  lemma {:induction false} LastReportIsCurrent(route: Route, run: Run)
    requires IsRun(route, run) && LastReported(run).Some?
    ensures LastReported(run).value == SeqsOf(ReadyOperations(route, Elements(History(run))))
  {
    var Turn(before, last) := run;
    if last.advance.Completed? {
      assert Elements(History(run)) == Elements(History(before)) + {last.ctx.operation.seq_};
    } else {
      LastReportIsCurrent(route, before);
    }
  }

  /** Whatever any station takes up next was in the last report of ready operations. */
  lemma NextWasReported(route: Route, run: Run, next: Attempt)
    requires IsRun(route, run) && IsTurn(route, Elements(History(run)), next) && LastReported(run).Some?
    ensures next.ctx.operation.seq_ in LastReported(run).value
  {
    var completed := Elements(History(run));
    LastReportIsCurrent(route, run);
    ResolvesAReadyOperation(route, next.state, next.station, completed);
    ReadyMember(route, completed, next.ctx.operation);
    SeqsOfMember(ReadyOperations(route, completed), next.ctx.operation);
  }

  /** 10 is required, 20 after it is optional, and 30 after 20 is required. */
  function SkippingRoute(): Route {
    Route([RouteOperation(10, 1, Required, [], [], FailurePath.Scrap),
           RouteOperation(20, 2, Optional, [10], [], FailurePath.Scrap),
           RouteOperation(30, 3, Required, [20], [], FailurePath.Scrap)])
  }

  lemma SkippingGraph()
    ensures GraphOf(SkippingRoute().operations) == map[10 := [], 20 := [10], 30 := [20]]
  {
    var ops := SkippingRoute().operations;
    var two, one := ops[..2], ops[..1];
    assert two[..1] == one && one[..0] == [];
    assert GraphOf(one) == map[10 := []];
    assert GraphOf(two) == map[10 := [], 20 := [10]];
  }

  lemma SkippingOrder()
    ensures VisitOrder(GraphOf(SkippingRoute().operations), [10, 20, 30])
  {
    var g := GraphOf(SkippingRoute().operations);
    SkippingGraph();
    assert [] + [10] == [10] && [10] + [20] == [10, 20] && [10, 20] + [30] == [10, 20, 30];
    VisitNext(g, [], 10);
    VisitNext(g, [10], 20);
    VisitNext(g, [10, 20], 30);
  }

  lemma SkippingRouteIsValid()
    ensures Valid(SkippingRoute())
  {
    SkippingGraph();
    SkippingOrder();
    OrderRulesOutCycles(GraphOf(SkippingRoute().operations), [10, 20, 30]);
  }

  /**
   The limit of the ordering: this route is valid, and yet 30 is ready before anything has been
   done, although the required 10 leads to it through the optional 20.
   */
  lemma SkippedOptional()
    ensures Valid(SkippingRoute())
    ensures SkippingRoute().operations[2] in ReadyOperations(SkippingRoute(), {})
  {
    SkippingRouteIsValid();
    FindsOperation(SkippingRoute().operations, 1);
    ReadyMember(SkippingRoute(), {}, SkippingRoute().operations[2]);
  }
}
