/** Between which operations the engine keeps an order, exactly (crates/trace-core/src/engine.rs and route.rs). */
module EngineOrder {
  import opened Collections
  import opened RouteModel
  import opened RouteGraph
  import opened Routes
  import opened Units
  import opened Engine
  import opened EngineRuns

  /** A walk along predecessors from `a` to `b` on which every operation before `b` is required. */
  ghost predicate RequiredWalk(route: Route, walk: seq<OperationSeq>, a: OperationSeq, b: OperationSeq) {
    && IsWalk(GraphOf(route.operations), walk)
    && walk[0] == a && walk[|walk| - 1] == b
    && forall k :: 0 <= k < |walk| - 1 ==> IsRequired(route, walk[k])
  }

  ghost predicate LeadsTo(route: Route, a: OperationSeq, b: OperationSeq) {
    exists walk :: RequiredWalk(route, walk, a, b)
  }

  /** Wherever `b` is in the history, `a` is before it. */
  ghost predicate Precedes(history: seq<OperationSeq>, a: OperationSeq, b: OperationSeq) {
    forall j :: 0 <= j < |history| && history[j] == b ==> a in history[..j]
  }

  /** In every order the engine may take, `a` comes before `b`. */
  ghost predicate HistoriesOrdered(route: Route, a: OperationSeq, b: OperationSeq) {
    forall history :: InOrder(route, history) ==> Precedes(history, a, b)
  }

  /** In every run of the engine. */
  ghost predicate RunsOrdered(route: Route, a: OperationSeq, b: OperationSeq) {
    forall run :: IsRun(route, run) ==> Precedes(History(run), a, b)
  }

  // ------------------------------------------------------------ a visit order of all operations

  /** Short of a cycle, some operation not visited yet has all its predecessors visited. */
  lemma SomethingIsNext(g: Graph, order: seq<OperationSeq>) returns (s: OperationSeq)
    requires KnownPredecessors(g) && !HasCycle(g) && VisitOrder(g, order) && !(g.Keys <= Elements(order))
    ensures s in g && VisitOrder(g, order + [s]) && s !in Elements(order)
  {
    var rest := g.Keys - Elements(order);
    var left :| left in g.Keys && left !in Elements(order);
    assert left in rest;
    if SelfBlocked(g, rest) {
      BlockedSetHasCycle(g, rest);
      assert false;
    }
    s :| s in rest && !WaitsFor(g, s, rest);
    forall p | p in g[s]
      ensures p in order
    {
      assert p in Elements(g[s]);
    }
    VisitNext(g, order, s);
  }

  lemma {:induction false} OrderExtends(g: Graph, order: seq<OperationSeq>) returns (all: seq<OperationSeq>)
    requires KnownPredecessors(g) && !HasCycle(g) && VisitOrder(g, order)
    ensures VisitOrder(g, all) && Elements(all) == g.Keys
    decreases |g.Keys| - |order|
  {
    VisitedFits(g, order);
    VisitOrderSize(g, order);
    if g.Keys <= Elements(order) {
      all := order;
    } else {
      var s := SomethingIsNext(g, order);
      VisitedFits(g, order + [s]);
      all := OrderExtends(g, order + [s]);
    }
  }

  /** The operations of an order that are in `kept`. */
  function Kept(order: seq<OperationSeq>, kept: set<OperationSeq>): seq<OperationSeq> {
    if order == [] then []
    else if order[|order| - 1] in kept then Kept(order[..|order| - 1], kept) + [order[|order| - 1]]
    else Kept(order[..|order| - 1], kept)
  }

  lemma {:induction false} KeptElements(order: seq<OperationSeq>, kept: set<OperationSeq>)
    ensures Elements(Kept(order, kept)) == Elements(order) * kept
  {
    if order != [] {
      var init, last := order[..|order| - 1], order[|order| - 1];
      KeptElements(init, kept);
      assert Elements(order) == Elements(init) + {last};
      if last in kept {
        assert Elements(Kept(init, kept) + [last]) == Elements(Kept(init, kept)) + {last};
      }
    }
  }

  /** With every operation it keeps, `kept` keeps the required predecessors. */
  ghost predicate Closed(route: Route, kept: set<OperationSeq>) {
    forall x, p :: Needs(route, x, p) && x in kept ==> p in kept
  }

  ghost predicate Needs(route: Route, x: OperationSeq, p: OperationSeq) {
    x in GraphOf(route.operations) && p in GraphOf(route.operations)[x] && IsRequired(route, p)
  }

  lemma {:induction false} KeptInOrder(route: Route, order: seq<OperationSeq>, kept: set<OperationSeq>)
    requires VisitOrder(GraphOf(route.operations), order) && Closed(route, kept)
    ensures InOrder(route, Kept(order, kept))
  {
    if order != [] {
      var g, init, last := GraphOf(route.operations), order[..|order| - 1], order[|order| - 1];
      KeptInOrder(route, init, kept);
      KeptElements(init, kept);
      if last in kept {
        assert (Kept(init, kept) + [last])[..|Kept(init, kept)|] == Kept(init, kept);
        forall p | p in g[last] && IsRequired(route, p)
          ensures p in Elements(Kept(init, kept))
        {
          assert Needs(route, last, p) && p in Elements(g[last]);
        }
      }
    }
  }

  // ------------------------------------------------------------ the exact order

  /** The operation itself and everything that leads to it through required operations. */
  ghost function Behind(route: Route, b: OperationSeq): set<OperationSeq> {
    set x | x in GraphOf(route.operations) && (x == b || LeadsTo(route, x, b))
  }

  lemma BehindIsClosed(route: Route, b: OperationSeq)
    requires KnownPredecessors(GraphOf(route.operations))
    ensures Closed(route, Behind(route, b))
  {
    var g := GraphOf(route.operations);
    forall x, p | Needs(route, x, p) && x in Behind(route, b)
      ensures p in Behind(route, b)
    {
      assert p in Elements(g[x]);
      if x == b {
        assert Edge(g, [p, b], 0);
        assert RequiredWalk(route, [p, b], p, b);
      } else {
        var walk :| RequiredWalk(route, walk, x, b);
        var longer := [p] + walk;
        forall k | 0 <= k < |longer| - 1
          ensures Edge(g, longer, k) && IsRequired(route, longer[k])
        {
          if k > 0 {
            assert Edge(g, walk, k - 1) && longer[k] == walk[k - 1] && longer[k + 1] == walk[k];
          }
        }
        assert RequiredWalk(route, longer, p, b);
      }
    }
  }

  /** A history in which `b` is done with nothing but what leads to it. */
  lemma ShortestHistory(route: Route, b: OperationSeq) returns (history: seq<OperationSeq>)
    requires Valid(route) && b in GraphOf(route.operations)
    ensures InOrder(route, history) && Elements(history) == Behind(route, b)
  {
    var order := OrderExtends(GraphOf(route.operations), []);
    BehindIsClosed(route, b);
    history := Kept(order, Behind(route, b));
    KeptInOrder(route, order, Behind(route, b));
    KeptElements(order, Behind(route, b));
  }

  /**
   One operation comes before another in every order the engine may take if and only if a walk leads
   from it to the other on which everything before the end is required.
   */
  lemma OrderedIffRequiredWalk(route: Route, a: OperationSeq, b: OperationSeq)
    requires Valid(route) && b in GraphOf(route.operations) && a != b
    ensures HistoriesOrdered(route, a, b) <==> LeadsTo(route, a, b)
  {
    if walk :| RequiredWalk(route, walk, a, b) {
      forall history | InOrder(route, history)
        ensures Precedes(history, a, b)
      {
        forall j | 0 <= j < |history| && history[j] == b
          ensures a in history[..j]
        {
          RequiredWalkInOrder(route, history, walk, j);
        }
      }
    }
    if HistoriesOrdered(route, a, b) {
      var history := ShortestHistory(route, b);
      assert b in Behind(route, b);
      var j :| 0 <= j < |history| && history[j] == b;
      assert a in history[..j] && a in Elements(history);
    }
  }

  // ------------------------------------------------------------ histories and runs

  /** No two operations are of the same template, which is what a station is equipped for. */
  ghost predicate DistinctTemplates(ops: seq<RouteOperation>) {
    forall i, j :: 0 <= i < j < |ops| ==> ops[i].operationDefId != ops[j].operationDefId
  }

  /** Scans of every component that some gate asks for. */
  function Scans(gates: seq<Gate>): seq<Option<RowId>> {
    if gates == [] then []
    else
      var last := gates[|gates| - 1];
      Scans(gates[..|gates| - 1]) +
      if last.ComponentVerify? then Map((line: RowId) => Some(line), last.bomLineIds) else []
  }

  lemma {:induction false} ScansCover(gates: seq<Gate>, gate: Gate, line: RowId)
    ensures None !in Scans(gates)
    ensures gate in gates && gate.ComponentVerify? && line in gate.bomLineIds ==> Some(line) in Scans(gates)
  {
    if gates != [] {
      var init, last := gates[..|gates| - 1], gates[|gates| - 1];
      ScansCover(init, gate, line);
      assert gates == init + [last];
      if last.ComponentVerify? {
        MapMember((l: RowId) => Some(l), last.bomLineIds, None);
        MapMember((l: RowId) => Some(l), last.bomLineIds, Some(line));
      }
    }
  }

  /** A passing verdict for every test that some gate asks for. */
  function Verdicts(gates: seq<Gate>): map<string, Verdict> {
    map gate | gate in gates && gate.TestPass? :: gate.testName := VerdictPass
  }

  /** What the gates of an operation see when everything about it is in order. */
  function GoodContext(route: Route, op: RouteOperation, completed: set<OperationSeq>): Context {
    Context("", 0, false, None, route, op, None, Some(Operator(true, {})), completed, Some(""), Scans(op.gates), [], [],
            Verdicts(op.gates), None, 1)
  }

  lemma GoodContextCompletes(route: Route, op: RouteOperation, completed: set<OperationSeq>)
    requires PredecessorsSatisfied(route, op, completed)
    ensures Advanced(GoodContext(route, op, completed)).Completed?
  {
    var ctx := GoodContext(route, op, completed);
    forall g | g in op.gates && !g.IsOutput()
      ensures GatePasses(g, ctx)
    {
      if g.ComponentVerify? {
        ScansCover(op.gates, g, 0);
        forall line | line in g.bomLineIds
          ensures Some(line) in ctx.componentScans
        {
          ScansCover(op.gates, g, line);
        }
      }
    }
    CompletesIffAllGreen(ctx, Identity, 0);
  }

  /** Operation i is ready, and no ready operation of the same template is listed before it. */
  predicate Offered(route: Route, completed: set<OperationSeq>, i: nat) {
    var ops := route.operations;
    && i < |ops| && IsReady(route, ops[i], completed)
    && forall j :: 0 <= j < i && IsReady(route, ops[j], completed) ==> ops[j].operationDefId != ops[i].operationDefId
  }

  /** A history each step of which some station can be given. */
  ghost predicate Runnable(route: Route, history: seq<OperationSeq>) {
    history == [] ||
    var earlier, last := history[..|history| - 1], history[|history| - 1];
    && Runnable(route, earlier)
    && exists i: nat :: Offered(route, Elements(earlier), i) && route.operations[i].seq_ == last
  }

  /** What a station is given is the first operation on the list that is ready and that it can perform. */
  lemma ResolvesFirst(route: Route, state: UnitState, station: Station, completed: set<OperationSeq>) returns (i: nat)
    requires ResolveOperation(route, state, station, completed).Ok?
    ensures Offered(route, completed, i)
    ensures ResolveOperation(route, state, station, completed) == Ok(route.operations[i])
    ensures forall j :: 0 <= j < i && IsReady(route, route.operations[j], completed) ==>
              route.operations[j].operationDefId !in station.operations
  {
    var ready := (op: RouteOperation) => IsReady(route, op, completed);
    var can := (op: RouteOperation) => op.operationDefId in station.operations;
    var both := (op: RouteOperation) => IsReady(route, op, completed) && op.operationDefId in station.operations;
    FilterTwice(ready, can, both, route.operations);
    assert ReadyOperations(route, completed) == Filter(ready, route.operations);
    i := FilterHead(both, route.operations);
  }

  /** A station equipped for one operation only is given that one, or one of its template before it. */
  lemma OwnStationServes(route: Route, completed: set<OperationSeq>, i: nat)
    requires Offered(route, completed, i)
    ensures var op := route.operations[i];
      ResolveOperation(route, InProcess, Station(true, {op.operationDefId}), completed) == Ok(op)
  {
    var op := route.operations[i];
    var station := Station(true, {op.operationDefId});
    ReadyMember(route, completed, op);
    assert op in ReadyOperations(route, completed) && op.operationDefId in station.operations;
    ResolvesAReadyOperation(route, InProcess, station, completed);
    var k := ResolvesFirst(route, InProcess, station, completed);
    assert k == i;
  }

  lemma NextIsReady(route: Route, history: seq<OperationSeq>) returns (op: RouteOperation)
    requires Valid(route) && InOrder(route, history) && history != []
    ensures op in route.operations && op.seq_ == history[|history| - 1]
    ensures IsReady(route, op, Elements(history[..|history| - 1]))
  {
    var earlier, last, ops := history[..|history| - 1], history[|history| - 1], route.operations;
    GraphOfKey(ops, last);
    var i :| 0 <= i < |ops| && ops[i].seq_ == last;
    op := ops[i];
    GraphOfMember(ops, i);
    forall p | p in op.predecessors
      ensures p in Elements(earlier) || (Operation(route, p).Some? && Operation(route, p).value.requirement.Optional?)
    {
      assert p in Elements(GraphOf(ops)[last]);
      GraphOfKey(ops, p);
      var k :| 0 <= k < |ops| && ops[k].seq_ == p;
      FindsOperation(ops, k);
    }
  }

  lemma NextTurn(route: Route, before: Run, i: nat) returns (run: Run)
    requires IsRun(route, before) && Offered(route, Elements(History(before)), i)
    ensures IsRun(route, run) && History(run) == History(before) + [route.operations[i].seq_]
  {
    var op, completed := route.operations[i], Elements(History(before));
    OwnStationServes(route, completed, i);
    GoodContextCompletes(route, op, completed);
    var ctx := GoodContext(route, op, completed);
    run := Turn(before, Attempt(InProcess, Station(true, {op.operationDefId}), ctx, Advanced(ctx)));
  }

  lemma {:induction false} RunnableIsOfARun(route: Route, history: seq<OperationSeq>) returns (run: Run)
    requires Runnable(route, history)
    ensures IsRun(route, run) && History(run) == history
  {
    if history == [] {
      run := NoTurns;
    } else {
      var earlier := history[..|history| - 1];
      var i: nat :| Offered(route, Elements(earlier), i) && route.operations[i].seq_ == history[|history| - 1];
      var before := RunnableIsOfARun(route, earlier);
      run := NextTurn(route, before, i);
      assert history == earlier + [route.operations[i].seq_];
    }
  }

  lemma {:induction false} RunIsRunnable(route: Route, run: Run)
    requires IsRun(route, run)
    ensures Runnable(route, History(run))
  {
    match run
    case NoTurns =>
    case Turn(before, last) =>
      RunIsRunnable(route, before);
      if last.advance.Completed? {
        var i := ResolvesFirst(route, last.state, last.station, Elements(History(before)));
        assert (History(before) + [last.ctx.operation.seq_])[..|History(before)|] == History(before);
      }
  }

  /** The histories of runs are exactly these: each step was ready, and first of its template among the ready. */
  lemma RunnableIff(route: Route, history: seq<OperationSeq>)
    ensures Runnable(route, history) <==> exists run :: IsRun(route, run) && History(run) == history
  {
    if Runnable(route, history) {
      var run := RunnableIsOfARun(route, history);
    }
    if run :| IsRun(route, run) && History(run) == history {
      RunIsRunnable(route, run);
    }
  }

  lemma {:induction false} InOrderIsRunnable(route: Route, history: seq<OperationSeq>)
    requires Valid(route) && DistinctTemplates(route.operations) && InOrder(route, history)
    ensures Runnable(route, history)
  {
    if history != [] {
      var earlier := history[..|history| - 1];
      InOrderIsRunnable(route, earlier);
      var op := NextIsReady(route, history);
      var i :| 0 <= i < |route.operations| && route.operations[i] == op;
      assert Offered(route, Elements(earlier), i);
    }
  }

  /** With a template for each operation, every history in order is that of some run of the engine. */
  lemma HistoryIsOfARun(route: Route, history: seq<OperationSeq>) returns (run: Run)
    requires Valid(route) && DistinctTemplates(route.operations) && InOrder(route, history)
    ensures IsRun(route, run) && History(run) == history
  {
    InOrderIsRunnable(route, history);
    run := RunnableIsOfARun(route, history);
  }

  /** So on such a route these walks are exactly what orders the runs of the engine. */
  lemma RunsOrderedIffRequiredWalk(route: Route, a: OperationSeq, b: OperationSeq)
    requires Valid(route) && DistinctTemplates(route.operations) && b in GraphOf(route.operations) && a != b
    ensures RunsOrdered(route, a, b) <==> LeadsTo(route, a, b)
  {
    OrderedIffRequiredWalk(route, a, b);
    if LeadsTo(route, a, b) {
      forall run | IsRun(route, run)
        ensures Precedes(History(run), a, b)
      {
        RunsAreInOrder(route, run);
      }
    }
    if RunsOrdered(route, a, b) {
      forall history | InOrder(route, history)
        ensures Precedes(history, a, b)
      {
        var run := HistoryIsOfARun(route, history);
      }
    }
  }

  /** Two required operations of one template, with no predecessors. */
  function TwinRoute(): Route {
    Route([RouteOperation(10, 1, Required, [], [], FailurePath.Scrap),
           RouteOperation(20, 1, Required, [], [], FailurePath.Scrap)])
  }

  lemma TwinsHaveNoWalk()
    ensures Valid(TwinRoute()) && !LeadsTo(TwinRoute(), 10, 20)
  {
    var ops := TwinRoute().operations;
    assert ops[..1][..0] == [] && GraphOf(ops[..1]) == map[10 := []];
    assert GraphOf(ops) == map[10 := [], 20 := []];
    forall walk | |walk| >= 2
      ensures !IsWalk(GraphOf(ops), walk)
    {
      assert !Edge(GraphOf(ops), walk, 0);
    }
  }

  lemma TwinsResolveInListOrder(state: UnitState, station: Station)
    requires ResolveOperation(TwinRoute(), state, station, {}).Ok?
    ensures ResolveOperation(TwinRoute(), state, station, {}).value.seq_ == 10
  {
    var route := TwinRoute();
    var ops := route.operations;
    var ready := (op: RouteOperation) => IsReady(route, op, {});
    assert Filter(ready, ops) == [ops[0]] + Filter(ready, ops[1..]);
    var can := (op: RouteOperation) => op.operationDefId in station.operations;
    ResolvesAReadyOperation(route, state, station, {});
    assert ReadyOperations(route, {})[0] == ops[0];
    assert can(ops[0]);
  }

  /**
   Where two operations share a template their place in the list orders them as well: no walk leads from
   10 to 20, and yet no run does 20 first.
   */
  lemma {:induction false} TwinsAreOrdered(run: Run)
    requires IsRun(TwinRoute(), run)
    ensures History(run) != [] ==> History(run)[0] == 10
  {
    match run
    case NoTurns =>
    case Turn(before, last) =>
      TwinsAreOrdered(before);
      if History(before) == [] && last.advance.Completed? {
        assert Elements(History(before)) == {};
        TwinsResolveInListOrder(last.state, last.station);
      }
  }
}
