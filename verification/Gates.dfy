/**
 What the gates of an operation ask for, seen from the outcome of an attempt
 (crates/trace-core/src/engine.rs, try_advance and evaluate_gate).
 */
module Gates {
  import opened Collections
  import opened RouteModel
  import opened Routes
  import opened Engine
  import opened EngineRuns

  /** The attempt is blocked, and the gate is among its failures. */
  predicate Fails(ctx: Context, gate: Gate) {
    Advanced(ctx).Blocked? && GateResult(gate, false) in Advanced(ctx).failures
  }

  predicate HasEntryGate(ctx: Context, gate: Gate) {
    gate in ctx.operation.gates && !gate.InterlockOut?
  }

  lemma FailsIffNotPassed(ctx: Context, gate: Gate)
    requires HasEntryGate(ctx, gate)
    ensures Fails(ctx, gate) <==> !GatePasses(gate, ctx)
  {
    CompletesIffAllGreen(ctx, gate, 0);
  }

  /** A blocked attempt names a gate that fails, and a completed one has none. */
  lemma BlockedNamesAGate(ctx: Context)
    ensures Advanced(ctx).Blocked? <==> exists gate :: HasEntryGate(ctx, gate) && Fails(ctx, gate)
  {
    CompletesIffAllGreen(ctx, Identity, 0);
    if Advanced(ctx).Blocked? {
      var gate :| gate in ctx.operation.gates && !gate.IsOutput() && !GatePasses(gate, ctx);
      FailsIffNotPassed(ctx, gate);
    }
  }

  /** An identity gate wants the uid of the very unit at the station. */
  lemma IdentityGate(ctx: Context)
    requires HasEntryGate(ctx, Identity)
    ensures Fails(ctx, Identity) <==> ctx.scannedIdentity.None? || ctx.scannedIdentity.value != ctx.unitUid
  {
    FailsIffNotPassed(ctx, Identity);
  }

  /** An operator gate wants an active operator, with the skill of the operation if it asks for one. */
  lemma OperatorGate(ctx: Context)
    requires HasEntryGate(ctx, OperatorAuth)
    ensures Fails(ctx, OperatorAuth) <==>
              || ctx.operator.None? || !ctx.operator.value.active
              || (ctx.requiredSkill.Some? && ctx.requiredSkill.value !in ctx.operator.value.certifications)
  {
    FailsIffNotPassed(ctx, OperatorAuth);
  }

  /** The first operation of the route with that number is optional. */
  ghost predicate NamesOptional(route: Route, p: OperationSeq) {
    exists i :: FirstWith(route.operations, p, i) && route.operations[i].requirement.Optional?
  }

  ghost predicate FirstWith(ops: seq<RouteOperation>, p: OperationSeq, i: int) {
    0 <= i < |ops| && ops[i].seq_ == p && forall j :: 0 <= j < i ==> ops[j].seq_ != p
  }

  lemma {:induction false} FindsFirst(ops: seq<RouteOperation>, p: OperationSeq)
    ensures match FindOperation(ops, p)
      case Some(op) => exists i :: FirstWith(ops, p, i) && ops[i] == op
      case None => forall i :: 0 <= i < |ops| ==> ops[i].seq_ != p
  {
    if ops != [] {
      if ops[0].seq_ == p {
        assert FirstWith(ops, p, 0);
      } else {
        FindsFirst(ops[1..], p);
        if i :| FirstWith(ops[1..], p, i) && FindOperation(ops, p) == Some(ops[1..][i]) {
          assert FirstWith(ops, p, i + 1);
        }
      }
    }
  }

  /** A predecessor is settled when it is completed or optional. */
  ghost predicate Settled(route: Route, completed: set<OperationSeq>, p: OperationSeq) {
    p in completed || NamesOptional(route, p)
  }

  lemma PredecessorsSettled(route: Route, op: RouteOperation, completed: set<OperationSeq>)
    ensures PredecessorsSatisfied(route, op, completed) <==>
              forall p :: p in op.predecessors ==> Settled(route, completed, p)
  {
    forall p | p in op.predecessors
      ensures Settled(route, completed, p) <==>
                p in completed || (Operation(route, p).Some? && Operation(route, p).value.requirement.Optional?)
    {
      FindsFirst(route.operations, p);
    }
  }

  /** A precondition gate wants every predecessor completed or optional; one that is unknown blocks. */
  lemma PreconditionGate(ctx: Context)
    requires HasEntryGate(ctx, Precondition)
    ensures Fails(ctx, Precondition) <==>
              exists p :: p in ctx.operation.predecessors && !Settled(ctx.route, ctx.completed, p)
  {
    FailsIffNotPassed(ctx, Precondition);
    PredecessorsSettled(ctx.route, ctx.operation, ctx.completed);
  }

  /** A component gate wants every scan on the bill of materials, and every listed line scanned. */
  lemma ComponentGate(ctx: Context, lines: seq<RowId>)
    requires HasEntryGate(ctx, ComponentVerify(lines))
    ensures Fails(ctx, ComponentVerify(lines)) <==>
              || (exists i :: 0 <= i < |ctx.componentScans| && ctx.componentScans[i].None?)
              || (exists line :: line in lines && Some(line) !in ctx.componentScans)
  {
    FailsIffNotPassed(ctx, ComponentVerify(lines));
  }

  /** The rule picks this unit: every one, the first one, or one in n, where n = 0 means every one. */
  ghost predicate Sampled(rule: SampleRule, index: nat) {
    rule.Every? || (rule.FirstOff? && index == 0)
    || (rule.EveryNth? && (rule.n == 0 || exists m: nat :: index == m * rule.n))
  }

  lemma SampledIff(rule: SampleRule, index: nat)
    ensures rule.AppliesTo(index) <==> Sampled(rule, index)
  {
    if rule.EveryNth? && rule.n > 0 {
      if index % rule.n == 0 {
        assert index == (index / rule.n) * rule.n;
      }
      if m: nat :| index == m * rule.n {
        RestIs(index, rule.n, m, 0);
      }
    }
  }

  /** The last value captured for the point is the j-th one. */
  ghost predicate LastFor(captured: seq<CapturedValue>, id: RowId, j: int) {
    0 <= j < |captured| && captured[j].dcpId == id && forall k :: j < k < |captured| ==> captured[k].dcpId != id
  }

  lemma {:induction false} LastCaptureIs(captured: seq<CapturedValue>, id: RowId)
    ensures match LastCapture(captured, id)
      case Some(verdict) => exists j :: LastFor(captured, id, j) && captured[j].verdict == verdict
      case None => forall j :: 0 <= j < |captured| ==> captured[j].dcpId != id
  {
    if captured != [] {
      var n := |captured| - 1;
      if captured[n].dcpId == id {
        assert LastFor(captured, id, n);
      } else {
        LastCaptureIs(captured[..n], id);
        if j :| LastFor(captured[..n], id, j) && LastCapture(captured, id) == Some(captured[..n][j].verdict) {
          assert LastFor(captured, id, j);
        }
      }
    }
  }

  /** The point is due for the unit, and its last value failed, or there is none although it is mandatory. */
  ghost predicate Unmet(ctx: Context, dcp: DataCollectionPoint) {
    Sampled(dcp.sampleRule, ctx.indexInJob) &&
    ((exists j :: LastFor(ctx.captured, dcp.id, j) && ctx.captured[j].verdict.VerdictFail?)
     || (dcp.mandatory && forall j :: 0 <= j < |ctx.captured| ==> ctx.captured[j].dcpId != dcp.id))
  }

  /** A capture gate wants every point that is due captured within its limits, or not captured if it is optional. */
  lemma CaptureGate(ctx: Context)
    requires HasEntryGate(ctx, DataCapture)
    ensures Fails(ctx, DataCapture) <==> exists dcp :: dcp in ctx.dcps && Unmet(ctx, dcp)
  {
    FailsIffNotPassed(ctx, DataCapture);
    forall dcp | dcp in ctx.dcps
      ensures CaptureAccepted(dcp, ctx) <==> !Unmet(ctx, dcp)
    {
      SampledIff(dcp.sampleRule, ctx.indexInJob);
      LastCaptureIs(ctx.captured, dcp.id);
    }
  }

  /** A test gate wants a passing verdict for the test it names. */
  lemma TestGate(ctx: Context, name: string)
    requires HasEntryGate(ctx, TestPass(name))
    ensures Fails(ctx, TestPass(name)) <==> name !in ctx.testVerdicts || ctx.testVerdicts[name].VerdictFail?
  {
    FailsIffNotPassed(ctx, TestPass(name));
  }

  /**
   A mark gate wants, on revisions that carry a mark, the unit's own uid read back, with a grade that is
   not behind the minimum in the alphabet if there is a minimum.
   */
  lemma MarkGate(ctx: Context)
    requires HasEntryGate(ctx, MarkVerified)
    ensures Fails(ctx, MarkVerified) <==>
              && ctx.carriesMark
              && (|| ctx.markVerification.None?
                  || ctx.markVerification.value.decoded != ctx.unitUid
                  || (ctx.minMarkGrade.Some?
                      && (ctx.markVerification.value.grade.None?
                          || ctx.markVerification.value.grade.value > ctx.minMarkGrade.value)))
  {
    FailsIffNotPassed(ctx, MarkVerified);
  }

  // ------------------------------------------------------------ what an attempt reports

  /** Where a blocked unit goes: another attempt only while the path is a retry with attempts left. */
  lemma DispositionIs(ctx: Context)
    requires Advanced(ctx).Blocked?
    ensures var path, d := ctx.operation.failurePath, Advanced(ctx).disposition;
      && (d.ScrapUnit? <==> path.Scrap?)
      && (d.QuarantineUnit? <==> path.Quarantine? || (path.Retry? && ctx.attempt >= path.maxAttempts))
      && (d.RetryAgain? <==> path.Retry? && ctx.attempt < path.maxAttempts)
      && (d.RetryAgain? ==> ctx.attempt + d.attemptsRemaining == path.maxAttempts)
      && (d.ReworkFrom? <==> path.Rework?)
      && (d.ReworkFrom? ==> d.toOperation == path.toOperation && d.invalidates == path.invalidates)
  {
  }

  /** What is ready after an attempt: not done, and every predecessor settled; in the order of the route. */
  ghost predicate ReadyAfter(ctx: Context, op: RouteOperation) {
    var after := ctx.completed + {ctx.operation.seq_};
    op.seq_ !in after && forall p :: p in op.predecessors ==> Settled(ctx.route, after, p)
  }

  ghost predicate ListsReady(ctx: Context, ready: seq<RouteOperation>, seqs: seq<OperationSeq>) {
    && IsKeptOf(op => ReadyAfter(ctx, op), ctx.route.operations, ready)
    && |seqs| == |ready| && forall i :: 0 <= i < |seqs| ==> seqs[i] == ready[i].seq_
  }

  lemma {:induction false} SeqsOfEach(ops: seq<RouteOperation>)
    ensures |SeqsOf(ops)| == |ops| && forall i :: 0 <= i < |ops| ==> SeqsOf(ops)[i] == ops[i].seq_
  {
    if ops != [] {
      SeqsOfEach(ops[1..]);
    }
  }

  /** A completed attempt reports exactly the operations ready next, and whether all required ones are done. */
  lemma CompletedReports(ctx: Context)
    requires Advanced(ctx).Completed?
    ensures exists ready :: ListsReady(ctx, ready, Advanced(ctx).nextReady)
    ensures Advanced(ctx).routeComplete <==>
              forall i :: 0 <= i < |ctx.route.operations| && ctx.route.operations[i].requirement.Required? ==>
                ctx.route.operations[i].seq_ == ctx.operation.seq_ || ctx.route.operations[i].seq_ in ctx.completed
  {
    var after, ops := ctx.completed + {ctx.operation.seq_}, ctx.route.operations;
    var ready := ReadyOperations(ctx.route, after);
    var isReady := (op: RouteOperation) => IsReady(ctx.route, op, after);
    var kept := FilterKeeps(isReady, ops);
    forall op: RouteOperation
      ensures isReady(op) <==> ReadyAfter(ctx, op)
    {
      PredecessorsSettled(ctx.route, op, after);
    }
    assert KeptAt((op: RouteOperation) => ReadyAfter(ctx, op), ops, ready, kept);
    SeqsOfEach(ready);
    assert ListsReady(ctx, ready, Advanced(ctx).nextReady);
    assert forall i :: 0 <= i < |ops| ==> ops[i] in ops;
  }

  function GatesOf(results: seq<GateResult>): (gates: seq<Gate>)
    ensures |gates| == |results| && forall i :: 0 <= i < |gates| ==> gates[i] == results[i].gate
  {
    seq(|results|, i requires 0 <= i < |results| => results[i].gate)
  }

  lemma {:induction false} EntryInOrder(gates: seq<Gate>, ctx: Context)
    ensures GatesOf(EntryResults(gates, ctx)) == Filter((g: Gate) => !g.IsOutput(), gates)
  {
    if gates != [] {
      var init, last := gates[..|gates| - 1], gates[|gates| - 1];
      EntryInOrder(init, ctx);
      FilterLast((g: Gate) => !g.IsOutput(), init, last);
      assert gates == init + [last];
    }
  }

  lemma {:induction false} InterlocksAre(gates: seq<Gate>)
    ensures var fired, outputs := Interlocks(gates), Filter((g: Gate) => g.IsOutput(), gates);
      |fired| == |outputs| && forall i :: 0 <= i < |fired| ==> outputs[i] == InterlockOut(fired[i])
  {
    if gates != [] {
      var init, last := gates[..|gates| - 1], gates[|gates| - 1];
      InterlocksAre(init);
      FilterLast((g: Gate) => g.IsOutput(), init, last);
      assert gates == init + [last];
    }
  }

  lemma {:induction false} InterlocksPass(devices: seq<RowId>)
    ensures |InterlockResults(devices)| == |devices|
    ensures forall i :: 0 <= i < |devices| ==>
              InterlockResults(devices)[i] == GateResult(InterlockOut(devices[i]), true)
  {
    if devices != [] {
      InterlocksPass(devices[..|devices| - 1]);
    }
  }

  lemma InterlocksInOrder(gates: seq<Gate>)
    ensures GatesOf(InterlockResults(Interlocks(gates))) == Filter((g: Gate) => g.IsOutput(), gates)
  {
    InterlocksAre(gates);
    InterlocksPass(Interlocks(gates));
  }

  /**
   An attempt reports its entry gates in the order of the operation, and behind them, if none failed, the
   interlocks in that order, which are the effects; the failures are the entries that did not pass, in order.
   */
  lemma ReportsInOrder(ctx: Context) returns (entry: seq<GateResult>, outputs: seq<GateResult>)
    ensures Advanced(ctx).gates == entry + outputs
    ensures IsKeptOf((g: Gate) => !g.InterlockOut?, ctx.operation.gates, GatesOf(entry))
    ensures forall r :: r in entry ==> (r.passed <==> !Fails(ctx, r.gate))
    ensures Advanced(ctx).Blocked? ==>
              outputs == [] && IsKeptOf((r: GateResult) => !r.passed, entry, Advanced(ctx).failures)
    ensures Advanced(ctx).Completed? ==>
              && IsKeptOf((g: Gate) => g.InterlockOut?, ctx.operation.gates, GatesOf(outputs))
              && |Advanced(ctx).effects| == |outputs|
              && forall i :: 0 <= i < |outputs| ==>
                   outputs[i] == GateResult(InterlockOut(Advanced(ctx).effects[i]), true)
  {
    var gates := ctx.operation.gates;
    entry := EntryResults(gates, ctx);
    outputs := if Advanced(ctx).Completed? then InterlockResults(Interlocks(gates)) else [];
    EntryInOrder(gates, ctx);
    InterlocksInOrder(gates);
    var keptIn := FilterKeeps((g: Gate) => !g.IsOutput(), gates);
    var keptOut := FilterKeeps((g: Gate) => g.IsOutput(), gates);
    assert KeptAt((g: Gate) => !g.InterlockOut?, gates, GatesOf(entry), keptIn);
    assert KeptAt((g: Gate) => g.InterlockOut?, gates, GatesOf(InterlockResults(Interlocks(gates))), keptOut);
    var keptFailures := FilterKeeps((r: GateResult) => !r.passed, entry);
    forall r | r in entry
      ensures r.passed <==> !Fails(ctx, r.gate)
    {
      EntryResultsMember(gates, ctx, r);
      FailsIffNotPassed(ctx, r.gate);
    }
    InterlocksPass(Interlocks(gates));
    assert entry + [] == entry;
  }
}
