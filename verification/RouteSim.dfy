/** The dry run that pushes one unit through a whole route (tools/route-sim/src/main.rs). */
module RouteSim {
  import opened Collections
  import opened RouteModel
  import opened RouteGraph
  import opened Routes
  import opened Units
  import opened Engine
  import opened EngineRuns
  import opened Gates

  datatype OperationInput = OperationInput(
    identityScanned: bool,
    componentScans: seq<Option<RowId>>,
    captured: seq<CapturedValue>,
    testVerdicts: map<string, Verdict>,
    markVerification: Option<MarkVerification>)

  /**
   `defs` gives the skill each operation template asks for; `unitUid` is None where the scenario gives a
   text that is no unit identifier.
   */
  datatype Scenario = Scenario(
    route: Route,
    defs: map<RowId, Option<RowId>>,
    dcps: map<OperationSeq, seq<DataCollectionPoint>>,
    stations: seq<Station>,
    operator: Operator,
    carriesMark: bool,
    minMarkGrade: Option<char>,
    unitUid: Option<string>,
    inputs: map<OperationSeq, OperationInput>)

  datatype SimError =
    | InvalidRoute(problem: RouteError)
    | InvalidUid
    | UnknownDef(op: OperationSeq)
    | DidNotConverge
    | IllegalMove(error: TransitionError)

  datatype Report = Report(finalState: UnitState, completed: set<OperationSeq>, log: Run)

  function InputFor(s: Scenario, op: OperationSeq): OperationInput {
    if op in s.inputs then s.inputs[op] else OperationInput(false, [], [], map[], None)
  }

  function Uid(s: Scenario): string {
    s.unitUid.GetOr("")
  }

  function ContextFor(s: Scenario, completed: set<OperationSeq>, op: RouteOperation, skill: Option<RowId>): Context {
    var input := InputFor(s, op.seq_);
    Context(Uid(s), 0, s.carriesMark, s.minMarkGrade, s.route, op, skill, Some(s.operator), completed,
            if input.identityScanned then Some(Uid(s)) else None, input.componentScans, input.captured,
            if op.seq_ in s.dcps then s.dcps[op.seq_] else [], input.testVerdicts, input.markVerification, 1)
  }

  datatype Serving = Serving(station: Station, operation: RouteOperation)

  /** The first station that can take the unit, with the operation it takes. */
  function FirstServing(route: Route, state: UnitState, stations: seq<Station>, completed: set<OperationSeq>)
    : Option<Serving>
  {
    if stations == [] then None else
      match ResolveOperation(route, state, stations[0], completed)
      case Ok(op) => Some(Serving(stations[0], op))
      case Err(_) => FirstServing(route, state, stations[1..], completed)
  }

  /** The i-th station can take the unit, and none before it can. */
  ghost predicate FirstToServe(route: Route, state: UnitState, stations: seq<Station>, completed: set<OperationSeq>,
                               i: int, v: Serving)
  {
    && 0 <= i < |stations| && stations[i] == v.station
    && ResolveOperation(route, state, stations[i], completed) == Ok(v.operation)
    && forall j :: 0 <= j < i ==> ResolveOperation(route, state, stations[j], completed).Err?
  }

  lemma {:induction false} FirstServingIsFirst(route: Route, state: UnitState, stations: seq<Station>,
                                               completed: set<OperationSeq>) returns (i: nat)
    requires FirstServing(route, state, stations, completed).Some?
    ensures FirstToServe(route, state, stations, completed, i, FirstServing(route, state, stations, completed).value)
  {
    if ResolveOperation(route, state, stations[0], completed).Ok? {
      i := 0;
    } else {
      var later := FirstServingIsFirst(route, state, stations[1..], completed);
      i := later + 1;
    }
  }

  lemma {:induction false} NobodyServing(route: Route, state: UnitState, stations: seq<Station>,
                                         completed: set<OperationSeq>, station: Station)
    requires FirstServing(route, state, stations, completed).None? && station in stations
    ensures ResolveOperation(route, state, station, completed).Err?
  {
    if station != stations[0] {
      NobodyServing(route, state, stations[1..], completed, station);
    }
  }

  /** The first station that can take the unit is given, or none of them can. */
  lemma FirstServingResolves(route: Route, state: UnitState, stations: seq<Station>, completed: set<OperationSeq>)
    ensures match FirstServing(route, state, stations, completed)
      case Some(v) => exists i :: FirstToServe(route, state, stations, completed, i, v)
      case None => forall station :: station in stations ==> ResolveOperation(route, state, station, completed).Err?
  {
    if FirstServing(route, state, stations, completed).Some? {
      var i := FirstServingIsFirst(route, state, stations, completed);
    } else {
      forall station | station in stations
        ensures ResolveOperation(route, state, station, completed).Err?
      {
        NobodyServing(route, state, stations, completed, station);
      }
    }
  }

  ghost predicate Served(s: Scenario, op: RouteOperation) {
    && op.operationDefId in s.defs
    && exists station :: station in s.stations && station.active && op.operationDefId in station.operations
  }

  /** Every operation has a template and an active station equipped for it. */
  ghost predicate Staffed(s: Scenario) {
    forall op {:trigger Served(s, op)} :: op in s.route.operations ==> Served(s, op)
  }

  /** A gate of `op` fails when it is attempted with `completed` done. */
  ghost predicate BlocksAt(s: Scenario, op: RouteOperation, completed: set<OperationSeq>) {
    op.operationDefId in s.defs && Advanced(ContextFor(s, completed, op, s.defs[op.operationDefId])).Blocked?
  }

  /** No gate fails at a ready operation, whatever has been completed. */
  ghost predicate NeverBlocks(s: Scenario) {
    forall op, completed {:trigger BlocksAt(s, op, completed)} ::
      op in s.route.operations && IsReady(s.route, op, completed) ==> !BlocksAt(s, op, completed)
  }

  /** While the route has unfinished operations, a staffed line can take up one of them. */
  lemma StaffedLineServes(s: Scenario, completed: set<OperationSeq>, op: RouteOperation)
    requires Valid(s.route) && Staffed(s) && op in s.route.operations && op.seq_ !in completed
    ensures FirstServing(s.route, InProcess, s.stations, completed).Some?
  {
    NoDeadlock(s.route, completed);
    var ready := ReadyOperations(s.route, completed);
    ReadyMember(s.route, completed, ready[0]);
    assert Served(s, ready[0]);
    var station :| station in s.stations && station.active && ready[0].operationDefId in station.operations;
    ResolvesAReadyOperation(s.route, InProcess, station, completed);
    FirstServingResolves(s.route, InProcess, s.stations, completed);
  }

  function Turns(log: Run): nat {
    match log
    case NoTurns => 0
    case Turn(before, _) => Turns(before) + 1
  }

  /** The attempt is made with what the scenario says about its operation. */
  ghost predicate Follows(s: Scenario, completed: set<OperationSeq>, ctx: Context) {
    && ctx.operation.operationDefId in s.defs
    && ctx == ContextFor(s, completed, ctx.operation, s.defs[ctx.operation.operationDefId])
  }

  /** The attempt is at the first station that can take the unit. */
  ghost predicate AtFirstStation(s: Scenario, completed: set<OperationSeq>, a: Attempt) {
    && a.state.InProcess?
    && exists i :: FirstToServe(s.route, InProcess, s.stations, completed, i, Serving(a.station, a.ctx.operation))
  }

  ghost predicate IsScripted(s: Scenario, log: Run) {
    log.Turn? ==>
      var completed := Elements(History(log.before));
      IsScripted(s, log.before) && Follows(s, completed, log.last.ctx) && AtFirstStation(s, completed, log.last)
  }

  /** A log of completed attempts is never longer than the route. */
  ghost predicate AllCompleted(route: Route, log: Run) {
    && IsRun(route, log)
    && |History(log)| == Turns(log) && Turns(log) <= |route.operations|
  }

  lemma {:induction false} InOrderFits(route: Route, history: seq<OperationSeq>)
    requires InOrder(route, history)
    ensures |Elements(history)| == |history| && Elements(history) <= GraphOf(route.operations).Keys
  {
    if history != [] {
      var earlier, last := history[..|history| - 1], history[|history| - 1];
      InOrderFits(route, earlier);
      assert Elements(history) == Elements(earlier) + {last};
    }
  }

  /** A run completes at most as many operations as the route has. */
  lemma RunFits(route: Route, run: Run)
    requires DistinctSeqs(route.operations) && IsRun(route, run)
    ensures |History(run)| <= |route.operations|
  {
    RunsAreInOrder(route, run);
    InOrderFits(route, History(run));
    GraphOfSize(route.operations);
    SubsetSize(Elements(History(run)), GraphOf(route.operations).Keys);
  }

  lemma {:induction false} LoggedOneMore(route: Route, log: Run, a: Attempt)
    requires Valid(route) && AllCompleted(route, log) && IsTurn(route, Elements(History(log)), a)
    ensures IsRun(route, Turn(log, a))
    ensures a.advance.Completed? ==> AllCompleted(route, Turn(log, a))
    ensures a.advance.Completed? ==> Elements(History(Turn(log, a))) == Elements(History(log)) + {a.ctx.operation.seq_}
    ensures a.advance.Blocked? ==> History(Turn(log, a)) == History(log)
  {
    RunFits(route, Turn(log, a));
  }

  function StateAfter(disposition: Disposition): UnitState {
    match disposition
    case RetryAgain(_) => InProcess
    case ReworkFrom(_, _) => Reworking
    case QuarantineUnit => Quarantined
    case ScrapUnit => Scrapped
  }

  /** Why a run ends: the route is complete, no station can go on, or a gate blocked the last attempt. */
  ghost predicate EndsFor(s: Scenario, finalState: UnitState, completed: set<OperationSeq>, log: Run) {
    || (finalState.Completed? && IsComplete(s.route, completed))
    || (finalState.InProcess? && FirstServing(s.route, InProcess, s.stations, completed).None? && !Staffed(s))
    || (log.Turn? && log.last.advance.Blocked? && !NeverBlocks(s) &&
        finalState == StateAfter(log.last.advance.disposition))
  }

  /** What a report says about the run behind it. */
  ghost predicate Faithful(s: Scenario, r: Report) {
    && IsRun(s.route, r.log) && IsScripted(s, r.log) && r.completed == Elements(History(r.log))
    && |History(r.log)| <= |s.route.operations|
    && EndsFor(s, r.finalState, r.completed, r.log)
  }

  /** What the engine offers the unit at the top of the loop. */
  lemma ServingTurn(s: Scenario, completed: set<OperationSeq>, log: Run)
    requires Valid(s.route) && (log.NoTurns? ==> completed == {}) && (log.NoTurns? || !IsComplete(s.route, completed))
    ensures match FirstServing(s.route, InProcess, s.stations, completed)
      case Some(v) =>
        && ResolveOperation(s.route, InProcess, v.station, completed) == Ok(v.operation)
        && v.operation in s.route.operations && IsReady(s.route, v.operation, completed)
        && exists i :: FirstToServe(s.route, InProcess, s.stations, completed, i, v)
      case None => !Staffed(s)
  {
    FirstServingResolves(s.route, InProcess, s.stations, completed);
    match FirstServing(s.route, InProcess, s.stations, completed) {
      case Some(v) => ResolvesAReadyOperation(s.route, InProcess, v.station, completed);
      case None =>
        if Staffed(s) {
          var op :| op in s.route.operations && op.seq_ !in completed;
          StaffedLineServes(s, completed, op);
        }
    }
  }

  datatype Next = NobodyServes | TemplateMissing(op: OperationSeq) | Took(attempt: Attempt)

  /** Finds a station for the unit and attempts the operation it takes; says what the log has become. */
  method TakeTurn(s: Scenario, completed: set<OperationSeq>, ghost log: Run) returns (next: Next)
    requires Valid(s.route) && AllCompleted(s.route, log) && completed == Elements(History(log))
    requires IsScripted(s, log) && (log.NoTurns? || !IsComplete(s.route, completed))
    ensures next.NobodyServes? ==> EndsFor(s, InProcess, completed, log) && !Staffed(s)
    ensures next.TemplateMissing? ==> !Staffed(s)
    ensures next.TemplateMissing? ==>
      exists o :: o in s.route.operations && o.seq_ == next.op && o.operationDefId !in s.defs
    ensures next.Took? ==>
      var a := next.attempt;
      var after := if a.advance.Completed? then completed + {a.ctx.operation.seq_} else completed;
      && IsRun(s.route, Turn(log, a)) && IsScripted(s, Turn(log, a)) && Elements(History(Turn(log, a))) == after
      && (a.advance.Completed? ==>
            AllCompleted(s.route, Turn(log, a)) && a.advance.routeComplete == IsComplete(s.route, after))
      && (a.advance.Blocked? ==>
            EndsFor(s, StateAfter(a.advance.disposition), after, Turn(log, a)) && !NeverBlocks(s))
  {
    ServingTurn(s, completed, log);
    var serving := FirstServing(s.route, InProcess, s.stations, completed);
    if serving.None? {
      return NobodyServes;
    }
    var Serving(station, op) := serving.value;
    if op.operationDefId !in s.defs {
      assert !Served(s, op);
      return TemplateMissing(op.seq_);
    }
    var ctx := ContextFor(s, completed, op, s.defs[op.operationDefId]);
    var advance := TryAdvance(ctx);
    var a := Attempt(InProcess, station, ctx, advance);
    LoggedOneMore(s.route, log, a);
    assert advance.Blocked? <==> BlocksAt(s, op, completed);
    next := Took(a);
  }

  /** What the outcome of a dry run says about the scenario. */
  ghost predicate Explains(s: Scenario, res: Result<Report, SimError>) {
    match res
    case Ok(report) => Valid(s.route) && s.unitUid.Some? && Faithful(s, report)
    case Err(InvalidRoute(problem)) => !Valid(s.route) && FirstProblem(s.route.operations, problem)
    case Err(InvalidUid) => Valid(s.route) && s.unitUid.None?
    case Err(UnknownDef(op)) => exists o :: o in s.route.operations && o.seq_ == op && o.operationDefId !in s.defs
    case Err(_) => false
  }

  /**
   Runs the unit until the route is complete, a gate blocks it or no station can take it. The
   bail-out is unreachable and every report follows an engine run. A staffed line where no gate
   blocks always takes the unit through a valid route to Completed.
   */
  method Run(s: Scenario) returns (res: Result<Report, SimError>)
    ensures Explains(s, res)
    ensures Valid(s.route) && s.unitUid.None? ==> res == Err(InvalidUid)
    ensures Valid(s.route) && s.unitUid.Some? && Staffed(s) ==> res.Ok?
    ensures Valid(s.route) && s.unitUid.Some? && Staffed(s) && NeverBlocks(s) ==>
              res.Ok? && res.value.finalState.Completed?
  {
    var checked := Validate(s.route);
    if checked.Fail? {
      return Err(InvalidRoute(checked.error));
    }
    if s.unitUid.None? {
      return Err(InvalidUid);
    }
    res := Drive(s);
  }

  lemma BlockedRunIsFaithful(s: Scenario, completed: set<OperationSeq>, log: Run, a: Attempt)
    requires Valid(s.route) && IsRun(s.route, Turn(log, a)) && completed == Elements(History(Turn(log, a)))
    requires IsScripted(s, Turn(log, a)) && a.advance.Blocked? && !NeverBlocks(s)
    ensures Faithful(s, Report(StateAfter(a.advance.disposition), completed, Turn(log, a)))
  {
    RunFits(s.route, Turn(log, a));
  }

  /** Moves the unit where the blocked attempt sends it, and reports. */
  method EndBlocked(s: Scenario, unit: Unit, completed: set<OperationSeq>, log: Run, a: Attempt)
    returns (res: Result<Report, SimError>)
    requires Valid(s.route) && s.unitUid.Some? && unit.state == InProcess
    requires IsRun(s.route, Turn(log, a)) && completed == Elements(History(Turn(log, a)))
    requires IsScripted(s, Turn(log, a)) && a.advance.Blocked? && !NeverBlocks(s)
    modifies unit
    ensures Explains(s, res) && res.Ok?
  {
    BlockedRunIsFaithful(s, completed, log, a);
    var moved := ApplyDisposition(unit, a.advance.disposition);
    match moved {
      case Pass => res := Ok(Report(unit.state, completed, Turn(log, a)));
      case Fail(e) =>
        assert false;
        res := Err(IllegalMove(e));
    }
  }

  lemma NothingLogged(route: Route)
    ensures AllCompleted(route, NoTurns)
  {
  }

  lemma EndIsFaithful(s: Scenario, finalState: UnitState, completed: set<OperationSeq>, log: Run)
    requires Valid(s.route) && s.unitUid.Some? && AllCompleted(s.route, log) && completed == Elements(History(log))
    requires IsScripted(s, log)
    requires EndsFor(s, finalState, completed, log) || (finalState.Completed? && IsComplete(s.route, completed))
    ensures Explains(s, Ok(Report(finalState, completed, log)))
  {
  }

  method Drive(s: Scenario) returns (res: Result<Report, SimError>)
    requires Valid(s.route) && s.unitUid.Some?
    ensures Explains(s, res) && res != Err(InvalidUid)
    ensures Staffed(s) ==> res.Ok?
  {
    hide FirstServing, Staffed, Follows, AtFirstStation, NeverBlocks, EndsFor, Faithful, IsRun, IsComplete;
    var unit := new Unit(Uid(s), 0, InProcess);
    var completed: set<OperationSeq> := {};
    var log := NoTurns;
    var guard := 0;
    NothingLogged(s.route);
    while true
      invariant unit.state == InProcess && fresh(unit)
      invariant guard == Turns(log) && AllCompleted(s.route, log) && completed == Elements(History(log))
      invariant IsScripted(s, log) && (log.NoTurns? || !IsComplete(s.route, completed))
      decreases |s.route.operations| - Turns(log)
    {
      guard := guard + 1;
      if guard > |s.route.operations| * 4 {
        assert false;
        return Err(DidNotConverge);
      }
      var next := TakeTurn(s, completed, log);
      if next.NobodyServes? {
        EndIsFaithful(s, InProcess, completed, log);
        return Ok(Report(unit.state, completed, log));
      }
      if next.TemplateMissing? {
        return Err(UnknownDef(next.op));
      }
      var attempt := next.attempt;
      if attempt.advance.Blocked? {
        res := EndBlocked(s, unit, completed, log, attempt);
        return;
      }
      log := Turn(log, attempt);
      completed := completed + {attempt.ctx.operation.seq_};
      unit.currentOperation := Some(attempt.ctx.operation.seq_);
      if attempt.advance.routeComplete {
        EndIsFaithful(s, UnitState.Completed, completed, log);
        var moved := unit.TransitionTo(UnitState.Completed);
        match moved {
          case Pass => return Ok(Report(unit.state, completed, log));
          case Fail(e) =>
            assert false;
            return Err(IllegalMove(e));
        }
      }
    }
  }
}
