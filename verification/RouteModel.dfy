/** A route as configured: its operations, their gates and failure paths (crates/trace-core/src/route.rs). */
module RouteModel {
  import opened Collections

  type OperationSeq = nat
  type RowId = int

  datatype Requirement = Required | Optional

  datatype FailurePath =
    | Retry(maxAttempts: nat)
    | Rework(toOperation: OperationSeq, invalidates: seq<OperationSeq>)
    | Quarantine
    | Scrap

  datatype Gate =
    | Identity
    | OperatorAuth
    | Precondition
    | ComponentVerify(bomLineIds: seq<RowId>)
    | DataCapture
    | TestPass(testName: string)
    | MarkVerified
    | InterlockOut(deviceId: RowId)
  {
    predicate IsOutput() { InterlockOut? }
  }

  datatype RouteOperation = RouteOperation(
    seq_: OperationSeq,
    operationDefId: RowId,
    requirement: Requirement,
    predecessors: seq<OperationSeq>,
    gates: seq<Gate>,
    failurePath: FailurePath)

  datatype Route = Route(operations: seq<RouteOperation>)

  datatype RouteError =
    | NoOperations
    | DuplicateSeq(op: OperationSeq)
    | SelfPredecessor(op: OperationSeq)
    | UnknownPredecessor(op: OperationSeq, pred: OperationSeq)
    | NoEntry
    | CycleDetected(stuck: seq<OperationSeq>)
}
