/** The route engine: gates, advancement and what every run of it keeps (crates/trace-core/src/engine.rs). */
module Engine {
  import opened Collections
  import opened RouteModel
  import opened RouteGraph
  import opened Routes
  import opened Units

  datatype Verdict = VerdictPass | VerdictFail

  datatype SampleRule = Every | FirstOff | EveryNth(n: nat)
  {
    predicate AppliesTo(indexInJob: nat) {
      match this
      case Every => true
      case FirstOff => indexInJob == 0
      case EveryNth(n) => n == 0 || indexInJob % n == 0
    }
  }

  datatype Operator = Operator(active: bool, certifications: set<RowId>)
  datatype Station = Station(active: bool, operations: set<RowId>)
  datatype CapturedValue = CapturedValue(dcpId: RowId, verdict: Verdict)
  datatype DataCollectionPoint = DataCollectionPoint(id: RowId, mandatory: bool, sampleRule: SampleRule)
  datatype MarkVerification = MarkVerification(decoded: string, grade: Option<char>)

  /** Everything a gate may look at. A component scan is the BOM line it matched, if any. */
  datatype Context = Context(
    unitUid: string,
    indexInJob: nat,
    carriesMark: bool,
    minMarkGrade: Option<char>,
    route: Route,
    operation: RouteOperation,
    requiredSkill: Option<RowId>,
    operator: Option<Operator>,
    completed: set<OperationSeq>,
    scannedIdentity: Option<string>,
    componentScans: seq<Option<RowId>>,
    captured: seq<CapturedValue>,
    dcps: seq<DataCollectionPoint>,
    testVerdicts: map<string, Verdict>,
    markVerification: Option<MarkVerification>,
    attempt: nat)

  datatype GateResult = GateResult(gate: Gate, passed: bool)

  datatype Disposition =
    | RetryAgain(attemptsRemaining: nat)
    | ReworkFrom(toOperation: OperationSeq, invalidates: seq<OperationSeq>)
    | QuarantineUnit
    | ScrapUnit

  datatype Advance =
    | Completed(gates: seq<GateResult>, effects: seq<RowId>, nextReady: seq<OperationSeq>, routeComplete: bool)
    | Blocked(gates: seq<GateResult>, failures: seq<GateResult>, disposition: Disposition)

  datatype ResolveError = UnitNotWorkable | StationCannotServe

  // ------------------------------------------------------------------ gates

  /** The verdict captured for a data collection point: the last one, as in a map built in order. */
  function LastCapture(captured: seq<CapturedValue>, id: RowId): Option<Verdict> {
    if captured == [] then None
    else if captured[|captured| - 1].dcpId == id then Some(captured[|captured| - 1].verdict)
    else LastCapture(captured[..|captured| - 1], id)
  }

  predicate CaptureAccepted(dcp: DataCollectionPoint, ctx: Context) {
    dcp.sampleRule.AppliesTo(ctx.indexInJob) ==>
      match LastCapture(ctx.captured, dcp.id)
      case None => !dcp.mandatory
      case Some(verdict) => verdict.VerdictPass?
  }

  predicate MarkAccepted(ctx: Context) {
    ctx.carriesMark ==>
      match ctx.markVerification
      case None => false
      case Some(v) =>
        v.decoded == ctx.unitUid &&
        match ctx.minMarkGrade
        case None => true
        case Some(min) => v.grade.Some? && v.grade.value <= min
  }

  predicate GatePasses(gate: Gate, ctx: Context) {
    match gate
    case Identity => ctx.scannedIdentity == Some(ctx.unitUid)
    case OperatorAuth =>
      ctx.operator.Some? && ctx.operator.value.active &&
      (ctx.requiredSkill.Some? ==> ctx.requiredSkill.value in ctx.operator.value.certifications)
    case Precondition => PredecessorsSatisfied(ctx.route, ctx.operation, ctx.completed)
    case ComponentVerify(lines) =>
      None !in ctx.componentScans && forall line :: line in lines ==> Some(line) in ctx.componentScans
    case DataCapture => forall dcp :: dcp in ctx.dcps ==> CaptureAccepted(dcp, ctx)
    case TestPass(name) => name in ctx.testVerdicts && ctx.testVerdicts[name].VerdictPass?
    case MarkVerified => MarkAccepted(ctx)
    case InterlockOut(_) => true
  }

  // ------------------------------------------------------------- one attempt

  function ResolveOperation(route: Route, state: UnitState, station: Station, completed: set<OperationSeq>)
    : Result<RouteOperation, ResolveError>
  {
    if !state.AcceptsWork() then Err(UnitNotWorkable)
    else if !station.active then Err(StationCannotServe)
    else
      var can := (op: RouteOperation) => op.operationDefId in station.operations;
      var served := Filter(can, ReadyOperations(route, completed));
      if served == [] then Err(StationCannotServe) else Ok(served[0])
  }

  function DispositionFor(path: FailurePath, attempt: nat): Disposition {
    match path
    case Retry(max) => if attempt < max then RetryAgain(max - attempt) else QuarantineUnit
    case Rework(to, invalidates) => ReworkFrom(to, invalidates)
    case Quarantine => QuarantineUnit
    case Scrap => ScrapUnit
  }

  /** The results of the entry gates among `gates`, in order. */
  function EntryResults(gates: seq<Gate>, ctx: Context): seq<GateResult> {
    if gates == [] then [] else
      var last := gates[|gates| - 1];
      EntryResults(gates[..|gates| - 1], ctx)
      + (if last.IsOutput() then [] else [GateResult(last, GatePasses(last, ctx))])
  }

  /** The devices of the interlocks among `gates`, in order. */
  function Interlocks(gates: seq<Gate>): seq<RowId> {
    if gates == [] then [] else
      var last := gates[|gates| - 1];
      Interlocks(gates[..|gates| - 1]) + (if last.IsOutput() then [last.deviceId] else [])
  }

  function InterlockResults(devices: seq<RowId>): seq<GateResult> {
    if devices == [] then []
    else InterlockResults(devices[..|devices| - 1]) + [GateResult(InterlockOut(devices[|devices| - 1]), true)]
  }

  function SeqsOf(ops: seq<RouteOperation>): seq<OperationSeq> {
    Map((op: RouteOperation) => op.seq_, ops)
  }

  /** The result of an attempt, as a function of its context. */
  function Advanced(ctx: Context): Advance {
    var entry := EntryResults(ctx.operation.gates, ctx);
    var failures := Filter((r: GateResult) => !r.passed, entry);
    if failures != [] then
      Blocked(entry, failures, DispositionFor(ctx.operation.failurePath, ctx.attempt))
    else
      var effects := Interlocks(ctx.operation.gates);
      var after := ctx.completed + {ctx.operation.seq_};
      Advance.Completed(entry + InterlockResults(effects), effects,
                        SeqsOf(ReadyOperations(ctx.route, after)), IsComplete(ctx.route, after))
  }

  method EvaluateEntry(all: seq<Gate>, ctx: Context) returns (gates: seq<GateResult>)
    ensures gates == EntryResults(all, ctx)
  {
    gates := [];
    var i := 0;
    while i < |all|
      invariant 0 <= i <= |all|
      invariant gates == EntryResults(all[..i], ctx)
    {
      assert all[..i + 1][..i] == all[..i];
      if !all[i].IsOutput() {
        gates := gates + [GateResult(all[i], GatePasses(all[i], ctx))];
      }
      i := i + 1;
    }
    assert all[..|all|] == all;
  }

  method FireOutputs(all: seq<Gate>, entry: seq<GateResult>) returns (gates: seq<GateResult>, effects: seq<RowId>)
    ensures effects == Interlocks(all) && gates == entry + InterlockResults(effects)
  {
    gates, effects := entry, [];
    var i := 0;
    while i < |all|
      invariant 0 <= i <= |all|
      invariant effects == Interlocks(all[..i])
      invariant gates == entry + InterlockResults(effects)
    {
      assert all[..i + 1][..i] == all[..i];
      if all[i].InterlockOut? {
        assert (effects + [all[i].deviceId])[..|effects|] == effects;
        effects := effects + [all[i].deviceId];
        gates := gates + [GateResult(all[i], true)];
      }
      i := i + 1;
    }
    assert all[..|all|] == all;
  }

  /** Evaluates every entry gate, and only then releases the outputs. */
  method TryAdvance(ctx: Context) returns (advance: Advance)
    ensures advance == Advanced(ctx)
  {
    var gates := EvaluateEntry(ctx.operation.gates, ctx);
    var failures := Filter((r: GateResult) => !r.passed, gates);
    if failures != [] {
      return Blocked(gates, failures, DispositionFor(ctx.operation.failurePath, ctx.attempt));
    }
    var effects;
    gates, effects := FireOutputs(ctx.operation.gates, gates);
    var after := ctx.completed + {ctx.operation.seq_};
    advance := Advance.Completed(gates, effects, SeqsOf(ReadyOperations(ctx.route, after)),
                                 IsComplete(ctx.route, after));
  }

  /** Moves the unit where a disposition sends it. */
  method ApplyDisposition(unit: Unit, disposition: Disposition) returns (res: Outcome<TransitionError>)
    modifies unit
    ensures res == (match disposition
                    case RetryAgain(_) => Pass
                    case ReworkFrom(_, _) => Requested(unit.uid, old(unit.state), Reworking)
                    case QuarantineUnit => Requested(unit.uid, old(unit.state), Quarantined)
                    case ScrapUnit => Requested(unit.uid, old(unit.state), Scrapped))
    ensures unit.state == (match disposition
                           case RetryAgain(_) => old(unit.state)
                           case ReworkFrom(_, _) => if res.Pass? then Reworking else old(unit.state)
                           case QuarantineUnit => if res.Pass? then Quarantined else old(unit.state)
                           case ScrapUnit => if res.Pass? then Scrapped else old(unit.state))
    ensures unit.currentOperation ==
      if disposition.ReworkFrom? && res.Pass? then Some(disposition.toOperation) else old(unit.currentOperation)
  {
    match disposition {
      case RetryAgain(_) => res := Pass;
      case ReworkFrom(to, _) =>
        res := unit.TransitionTo(Reworking);
        if res.Pass? {
          unit.currentOperation := Some(to);
        }
      case QuarantineUnit => res := unit.TransitionTo(Quarantined);
      case ScrapUnit => res := unit.TransitionTo(Scrapped);
    }
  }
}
