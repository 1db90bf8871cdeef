/** What the outcome of a dry run says about its scenario, gate by gate (tools/route-sim/src/main.rs). */
module RouteScenario {
  import opened Collections
  import opened RouteModel
  import opened RouteGraph
  import opened Routes
  import opened Units
  import opened Engine
  import opened EngineRuns
  import opened Gates
  import opened RouteSim

  /** What the scenario captures at an operation, and the bill-of-materials lines it scans there. */
  function CapturedAt(s: Scenario, op: RouteOperation): seq<CapturedValue> {
    if op.seq_ in s.inputs then s.inputs[op.seq_].captured else []
  }

  function ScannedAt(s: Scenario, op: RouteOperation): seq<Option<RowId>> {
    if op.seq_ in s.inputs then s.inputs[op.seq_].componentScans else []
  }

  /** The values captured for a point end with one that passed, or there are none and the point is optional. */
  ghost predicate Captured(values: seq<CapturedValue>, dcp: DataCollectionPoint) {
    || (exists j :: LastFor(values, dcp.id, j) && values[j].verdict.VerdictPass?)
    || (!dcp.mandatory && forall j :: 0 <= j < |values| ==> values[j].dcpId != dcp.id)
  }

  /**
   What the scenario has to provide for a gate of an operation. The unit is the first of its job, so every
   sampling rule asks for its points.
   */
  ghost predicate Provides(s: Scenario, op: RouteOperation, gate: Gate)
    requires s.unitUid.Some?
  {
    match gate
    case Identity => op.seq_ in s.inputs && s.inputs[op.seq_].identityScanned
    case OperatorAuth =>
      && s.operator.active
      && (op.operationDefId in s.defs && s.defs[op.operationDefId].Some? ==>
            s.defs[op.operationDefId].value in s.operator.certifications)
    case ComponentVerify(lines) =>
      && (forall i :: 0 <= i < |ScannedAt(s, op)| ==> ScannedAt(s, op)[i].Some?)
      && forall line :: line in lines ==> Some(line) in ScannedAt(s, op)
    case DataCapture => forall dcp :: op.seq_ in s.dcps && dcp in s.dcps[op.seq_] ==> Captured(CapturedAt(s, op), dcp)
    case TestPass(name) =>
      op.seq_ in s.inputs && name in s.inputs[op.seq_].testVerdicts && s.inputs[op.seq_].testVerdicts[name].VerdictPass?
    case MarkVerified =>
      s.carriesMark ==>
        && op.seq_ in s.inputs && s.inputs[op.seq_].markVerification.Some?
        && var mark := s.inputs[op.seq_].markVerification.value;
           && mark.decoded == s.unitUid.value
           && (s.minMarkGrade.Some? ==> mark.grade.Some? && mark.grade.value <= s.minMarkGrade.value)
    case Precondition => true
    case InterlockOut(_) => true
  }

  /** An attempt of a ready operation fails exactly the gates that the scenario does not provide for. */
  lemma FailsWhatIsNotProvided(s: Scenario, completed: set<OperationSeq>, ctx: Context, gate: Gate)
    requires s.unitUid.Some? && Follows(s, completed, ctx) && PredecessorsSatisfied(s.route, ctx.operation, completed)
    requires HasEntryGate(ctx, gate)
    ensures Fails(ctx, gate) <==> !Provides(s, ctx.operation, gate)
  {
    match gate
    case Identity => IdentityGate(ctx);
    case OperatorAuth => OperatorGate(ctx);
    case Precondition => FailsIffNotPassed(ctx, gate);
    case ComponentVerify(lines) => ScansProvided(s, completed, ctx, lines);
    case DataCapture => PointsProvided(s, completed, ctx);
    case TestPass(name) => TestGate(ctx, name);
    case MarkVerified => MarkGate(ctx);
  }

  lemma ScansProvided(s: Scenario, completed: set<OperationSeq>, ctx: Context, lines: seq<RowId>)
    requires s.unitUid.Some? && Follows(s, completed, ctx) && HasEntryGate(ctx, ComponentVerify(lines))
    ensures Fails(ctx, ComponentVerify(lines)) <==> !Provides(s, ctx.operation, ComponentVerify(lines))
  {
    hide Fails, Advanced;
    ComponentGate(ctx, lines);
    assert ctx.componentScans == ScannedAt(s, ctx.operation);
  }

  /** The first unit of a job is sampled under every rule. */
  lemma FirstIsSampled(rule: SampleRule)
    ensures Sampled(rule, 0)
  {
    if rule.EveryNth? {
      assert 0 == 0 * rule.n;
    }
  }

  lemma CapturedIffNotUnmet(s: Scenario, completed: set<OperationSeq>, ctx: Context, dcp: DataCollectionPoint)
    requires s.unitUid.Some? && Follows(s, completed, ctx)
    ensures Unmet(ctx, dcp) <==> !Captured(CapturedAt(s, ctx.operation), dcp)
  {
    assert ctx.captured == CapturedAt(s, ctx.operation);
    FirstIsSampled(dcp.sampleRule);
    LastForIsOne(ctx.captured, dcp.id);
  }

  lemma PointsProvided(s: Scenario, completed: set<OperationSeq>, ctx: Context)
    requires s.unitUid.Some? && Follows(s, completed, ctx) && HasEntryGate(ctx, DataCapture)
    ensures Fails(ctx, DataCapture) <==> !Provides(s, ctx.operation, DataCapture)
  {
    hide Fails, Advanced, Unmet, Captured;
    CaptureGate(ctx);
    forall dcp: DataCollectionPoint
      ensures Unmet(ctx, dcp) <==> !Captured(CapturedAt(s, ctx.operation), dcp)
    {
      CapturedIffNotUnmet(s, completed, ctx, dcp);
    }
  }

  lemma {:induction false} LastForIsOne(captured: seq<CapturedValue>, id: RowId)
    ensures (exists j :: LastFor(captured, id, j)) <==> exists j :: 0 <= j < |captured| && captured[j].dcpId == id
    ensures forall i, j :: LastFor(captured, id, i) && LastFor(captured, id, j) ==> i == j
  {
    LastCaptureIs(captured, id);
  }

  /** The scenario provides for every gate of the operation. */
  ghost predicate ProvidesAll(s: Scenario, op: RouteOperation)
    requires s.unitUid.Some?
  {
    forall gate :: gate in op.gates ==> Provides(s, op, gate)
  }

  lemma CompletesWhatIsProvided(s: Scenario, completed: set<OperationSeq>, ctx: Context)
    requires s.unitUid.Some? && Follows(s, completed, ctx) && PredecessorsSatisfied(s.route, ctx.operation, completed)
    ensures Advanced(ctx).Completed? <==> ProvidesAll(s, ctx.operation)
  {
    BlockedNamesAGate(ctx);
    forall gate | HasEntryGate(ctx, gate)
      ensures Fails(ctx, gate) <==> !Provides(s, ctx.operation, gate)
    {
      FailsWhatIsNotProvided(s, completed, ctx, gate);
    }
  }

  /** No gate ever blocks exactly when the scenario provides for all gates of all operations. */
  lemma NeverBlocksIff(s: Scenario)
    requires Valid(s.route) && s.unitUid.Some? && Staffed(s)
    ensures NeverBlocks(s) <==> forall op :: op in s.route.operations ==> ProvidesAll(s, op)
  {
    forall op, completed | op in s.route.operations && IsReady(s.route, op, completed)
      ensures BlocksAt(s, op, completed) <==> !ProvidesAll(s, op)
    {
      assert Served(s, op);
      CompletesWhatIsProvided(s, completed, ContextFor(s, completed, op, s.defs[op.operationDefId]));
    }
    forall op | op in s.route.operations
      ensures exists completed :: IsReady(s.route, op, completed)
    {
      ReadyAtTheEnd(s.route, op);
    }
  }

  lemma ReadyAtTheEnd(route: Route, op: RouteOperation)
    requires Valid(route) && op in route.operations
    ensures IsReady(route, op, GraphOf(route.operations).Keys - {op.seq_})
  {
    var ops := route.operations;
    var i :| 0 <= i < |ops| && ops[i] == op;
    GraphOfMember(ops, i);
    forall p | p in op.predecessors
      ensures p in GraphOf(ops).Keys - {op.seq_}
    {
      assert p in Elements(GraphOf(ops)[op.seq_]);
      if p == op.seq_ {
        SelfLoopIsCycle(GraphOf(ops), p);
      }
    }
  }

  /** Every operation a report calls completed was provided for. */
  lemma {:induction false} CompletedWasProvided(s: Scenario, log: Run, op: RouteOperation)
    requires Valid(s.route) && s.unitUid.Some? && IsRun(s.route, log) && IsScripted(s, log)
    requires op in s.route.operations && op.seq_ in History(log)
    ensures ProvidesAll(s, op)
  {
    var completed, ctx := Elements(History(log.before)), log.last.ctx;
    ResolvesAReadyOperation(s.route, log.last.state, log.last.station, completed);
    CompletesWhatIsProvided(s, completed, ctx);
    if op.seq_ in History(log.before) {
      CompletedWasProvided(s, log.before, op);
    } else {
      var i :| 0 <= i < |s.route.operations| && s.route.operations[i] == op;
      var j :| 0 <= j < |s.route.operations| && s.route.operations[j] == ctx.operation;
      assert op == ctx.operation;
    }
  }

  /** Where a unit is after its first attempt at an operation was blocked. */
  function BlockedState(path: FailurePath): UnitState {
    match path
    case Retry(max) => if max > 1 then InProcess else Quarantined
    case Rework(_, _) => Reworking
    case Quarantine => Quarantined
    case Scrap => Scrapped
  }

  /**
   What a report means: completed means that every required operation was provided for; otherwise either
   nobody could go on with the unit, or the last operation was not provided for and the unit is where the
   failure path of that operation sends it.
   */
  lemma ReportMeans(s: Scenario, r: Report)
    requires Valid(s.route) && s.unitUid.Some? && Faithful(s, r)
    ensures forall op :: op in s.route.operations && op.seq_ in r.completed ==> ProvidesAll(s, op)
    ensures r.finalState.Completed? ==>
              forall op :: op in s.route.operations && op.requirement.Required? ==> op.seq_ in r.completed
    ensures !r.finalState.Completed? ==>
              || (r.finalState.InProcess? && !Staffed(s))
              || exists op :: op in s.route.operations && !ProvidesAll(s, op)
                              && r.finalState == BlockedState(op.failurePath)
  {
    forall op | op in s.route.operations && op.seq_ in r.completed
      ensures ProvidesAll(s, op)
    {
      CompletedWasProvided(s, r.log, op);
    }
    if !r.finalState.Completed? && !(r.finalState.InProcess? && !Staffed(s)) {
      var completed, ctx := Elements(History(r.log.before)), r.log.last.ctx;
      ResolvesAReadyOperation(s.route, r.log.last.state, r.log.last.station, completed);
      CompletesWhatIsProvided(s, completed, ctx);
      DispositionIs(ctx);
    }
  }
}
