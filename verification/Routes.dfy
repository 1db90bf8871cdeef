/** Load-time validation of a route, and which operations are ready (crates/trace-core/src/route.rs). */
module Routes {
  import opened Collections
  import opened RouteModel
  import opened RouteGraph
  import opened Acyclicity

  /** What validation promises: distinct operations, known predecessors and no cycle. */
  ghost predicate Valid(route: Route) {
    var g := GraphOf(route.operations);
    route.operations != [] && DistinctSeqs(route.operations) && KnownPredecessors(g) && !HasCycle(g)
  }

  // ------------------------------------------------------------ validation

  /** Every predecessor listed before position `j` of operation `i` names another known operation. */
  ghost predicate EdgesFine(ops: seq<RouteOperation>, i: nat, j: nat)
    requires i <= |ops|
  {
    && (forall k :: 0 <= k < i ==> OwnEdgesFine(ops, ops[k], |ops[k].predecessors|))
    && (i < |ops| && j <= |ops[i].predecessors| ==> OwnEdgesFine(ops, ops[i], j))
  }

  ghost predicate OwnEdgesFine(ops: seq<RouteOperation>, op: RouteOperation, j: nat)
    requires j <= |op.predecessors|
  {
    forall k :: 0 <= k < j ==> EdgeFine(ops, op, k)
  }

  ghost predicate EdgeFine(ops: seq<RouteOperation>, op: RouteOperation, k: nat)
    requires k < |op.predecessors|
  {
    op.predecessors[k] != op.seq_ && op.predecessors[k] in GraphOf(ops)
  }

  ghost predicate FirstBadEdge(ops: seq<RouteOperation>, i: int, j: int) {
    && DistinctSeqs(ops)
    && 0 <= i < |ops| && 0 <= j < |ops[i].predecessors|
    && EdgesFine(ops, i, j) && !EdgeFine(ops, ops[i], j)
  }

  /** `e` is the problem met first when the checks are made in the order of the source. */
  ghost predicate FirstProblem(ops: seq<RouteOperation>, e: RouteError) {
    match e
    case NoOperations => ops == []
    case DuplicateSeq(s) =>
      exists i :: 0 <= i < |ops| && ops[i].seq_ == s && DistinctSeqs(ops[..i]) && s in GraphOf(ops[..i])
    case SelfPredecessor(s) =>
      exists i, j :: FirstBadEdge(ops, i, j) && ops[i].seq_ == s == ops[i].predecessors[j]
    case UnknownPredecessor(s, p) =>
      exists i, j :: FirstBadEdge(ops, i, j) && ops[i].seq_ == s != p == ops[i].predecessors[j] && p !in GraphOf(ops)
    case NoEntry =>
      && ops != [] && DistinctSeqs(ops) && EdgesFine(ops, |ops|, 0)
      && forall op :: op in ops ==> op.predecessors != []
    case CycleDetected(stuck) =>
      && DistinctSeqs(ops) && EdgesFine(ops, |ops|, 0)
      && (exists op :: op in ops && op.predecessors == [])
      && exists blocked :: blocked != {} && LargestSelfBlocked(GraphOf(ops), blocked) && stuck == Ascending(blocked)
  }

  method CheckDistinct(ops: seq<RouteOperation>) returns (res: Outcome<RouteError>, seen: set<OperationSeq>)
    ensures res.Pass? <==> DistinctSeqs(ops)
    ensures res.Fail? ==> FirstProblem(ops, res.error)
    ensures res.Pass? ==> seen == GraphOf(ops).Keys
  {
    seen := {};
    var i := 0;
    while i < |ops|
      invariant 0 <= i <= |ops|
      invariant DistinctSeqs(ops[..i]) && seen == GraphOf(ops[..i]).Keys
    {
      assert ops[..i + 1][..i] == ops[..i];
      GraphOfKey(ops[..i], ops[i].seq_);
      if ops[i].seq_ in seen {
        ghost var k :| 0 <= k < i && ops[k].seq_ == ops[i].seq_;
        return Fail(DuplicateSeq(ops[i].seq_)), seen;
      }
      seen := seen + {ops[i].seq_};
      i := i + 1;
    }
    assert ops[..|ops|] == ops;
    res := Pass;
  }

  method CheckEdges(ops: seq<RouteOperation>, seen: set<OperationSeq>) returns (res: Outcome<RouteError>)
    requires DistinctSeqs(ops) && seen == GraphOf(ops).Keys
    ensures res.Pass? <==> EdgesFine(ops, |ops|, 0)
    ensures res.Fail? ==> FirstProblem(ops, res.error)
  {
    var i := 0;
    while i < |ops|
      invariant 0 <= i <= |ops|
      invariant EdgesFine(ops, i, 0)
    {
      var op := ops[i];
      var j := 0;
      while j < |op.predecessors|
        invariant 0 <= j <= |op.predecessors|
        invariant EdgesFine(ops, i, j)
      {
        var p := op.predecessors[j];
        assert p == op.seq_ || p !in seen ==> FirstBadEdge(ops, i, j);
        if p == op.seq_ {
          return Fail(SelfPredecessor(op.seq_));
        }
        if p !in seen {
          return Fail(UnknownPredecessor(op.seq_, p));
        }
        j := j + 1;
      }
      i := i + 1;
    }
    res := Pass;
  }

  lemma FineEdgesAreKnown(ops: seq<RouteOperation>)
    requires DistinctSeqs(ops) && EdgesFine(ops, |ops|, 0)
    ensures KnownPredecessors(GraphOf(ops))
  {
    var g := GraphOf(ops);
    forall s | s in g
      ensures Elements(g[s]) <= g.Keys
    {
      GraphOfKey(ops, s);
      var i :| 0 <= i < |ops| && ops[i].seq_ == s;
      GraphOfMember(ops, i);
      forall p | p in g[s]
        ensures p in g
      {
        var k :| 0 <= k < |g[s]| && g[s][k] == p;
        assert EdgeFine(ops, ops[i], k);
      }
    }
  }

  lemma SelfLoopIsCycle(g: Graph, s: OperationSeq)
    requires s in g && s in g[s]
    ensures HasCycle(g)
  {
    var loop := [s, s];
    assert Edge(g, loop, 0);
    assert IsWalk(g, loop) && loop[0] == loop[|loop| - 1];
  }

  lemma ValidEdgesAreFine(ops: seq<RouteOperation>)
    requires DistinctSeqs(ops) && KnownPredecessors(GraphOf(ops)) && !HasCycle(GraphOf(ops))
    ensures EdgesFine(ops, |ops|, 0)
  {
    var g := GraphOf(ops);
    forall i | 0 <= i < |ops|
      ensures OwnEdgesFine(ops, ops[i], |ops[i].predecessors|)
    {
      GraphOfMember(ops, i);
      forall k | 0 <= k < |ops[i].predecessors|
        ensures EdgeFine(ops, ops[i], k)
      {
        var p := ops[i].predecessors[k];
        assert p in Elements(ops[i].predecessors);
        if p == ops[i].seq_ { SelfLoopIsCycle(g, p); }
      }
    }
  }

  /** If every operation waits for a known one, the whole route blocks itself. */
  lemma NoEntryMeansCycle(ops: seq<RouteOperation>)
    requires ops != [] && DistinctSeqs(ops) && KnownPredecessors(GraphOf(ops))
    requires forall op :: op in ops ==> op.predecessors != []
    ensures HasCycle(GraphOf(ops))
  {
    var g := GraphOf(ops);
    forall s | s in g
      ensures WaitsFor(g, s, g.Keys)
    {
      GraphOfKey(ops, s);
      var i :| 0 <= i < |ops| && ops[i].seq_ == s;
      GraphOfMember(ops, i);
      assert g[s][0] in Elements(g[s]);
    }
    GraphOfMember(ops, 0);
    BlockedSetHasCycle(g, g.Keys);
  }

  /** Accepts exactly the valid routes; otherwise it reports the first problem in its order of checks. */
  method Validate(route: Route) returns (res: Outcome<RouteError>)
    ensures res.Pass? <==> Valid(route)
    ensures res.Fail? ==> FirstProblem(route.operations, res.error)
  {
    var ops := route.operations;
    if ops == [] {
      return Fail(NoOperations);
    }
    var seen;
    res, seen := CheckDistinct(ops);
    if res.Fail? {
      return;
    }
    res := CheckEdges(ops, seen);
    if res.Fail? {
      if Valid(route) { ValidEdgesAreFine(ops); }
      return;
    }
    FineEdgesAreKnown(ops);
    if forall op :: op in ops ==> op.predecessors != [] {
      NoEntryMeansCycle(ops);
      return Fail(NoEntry);
    }
    ghost var visited;
    res, visited := AssertAcyclic(ops);
  }

  lemma FirstDuplicateIsUnique(ops: seq<RouteOperation>, i: nat, k: nat)
    requires i < |ops| && DistinctSeqs(ops[..i]) && ops[i].seq_ in GraphOf(ops[..i])
    requires k < |ops| && DistinctSeqs(ops[..k]) && ops[k].seq_ in GraphOf(ops[..k])
    ensures i == k && !DistinctSeqs(ops)
  {
    GraphOfKey(ops[..i], ops[i].seq_);
    GraphOfKey(ops[..k], ops[k].seq_);
    var a :| 0 <= a < i && ops[a].seq_ == ops[i].seq_;
    var b :| 0 <= b < k && ops[b].seq_ == ops[k].seq_;
  }

  lemma FirstBadEdgeIsUnique(ops: seq<RouteOperation>, i: int, j: int, k: int, l: int)
    requires FirstBadEdge(ops, i, j) && FirstBadEdge(ops, k, l)
    ensures i == k && j == l
  {
  }

  lemma LargestIsUnique(g: Graph, b: set<OperationSeq>, c: set<OperationSeq>)
    requires LargestSelfBlocked(g, b) && LargestSelfBlocked(g, c)
    ensures b == c
  {
    assert SelfBlocked(g, b) && SelfBlocked(g, c);
  }

  /** The reported problem is determined by the route: two different ones are never both the first. */
  lemma {:induction false} FirstProblemIsUnique(ops: seq<RouteOperation>, e: RouteError, f: RouteError)
    requires FirstProblem(ops, e) && FirstProblem(ops, f)
    ensures e == f
    decreases f.DuplicateSeq?, f.SelfPredecessor? || f.UnknownPredecessor?
  {
    if e.DuplicateSeq? {
      var i :| 0 <= i < |ops| && ops[i].seq_ == e.op && DistinctSeqs(ops[..i]) && e.op in GraphOf(ops[..i]);
      FirstDuplicateIsUnique(ops, i, i);
      if k :| f.DuplicateSeq? && 0 <= k < |ops| && ops[k].seq_ == f.op && DistinctSeqs(ops[..k])
              && f.op in GraphOf(ops[..k])
      {
        FirstDuplicateIsUnique(ops, i, k);
      }
    } else if f.DuplicateSeq? {
      FirstProblemIsUnique(ops, f, e);
    } else if e.SelfPredecessor? || e.UnknownPredecessor? {
      var i, j :| FirstBadEdge(ops, i, j) && ops[i].seq_ == e.op &&
        ops[i].predecessors[j] == (if e.SelfPredecessor? then e.op else e.pred);
      assert !EdgesFine(ops, |ops|, 0);
      if f.SelfPredecessor? || f.UnknownPredecessor? {
        var k, l :| FirstBadEdge(ops, k, l) && ops[k].seq_ == f.op &&
          ops[k].predecessors[l] == (if f.SelfPredecessor? then f.op else f.pred);
        FirstBadEdgeIsUnique(ops, i, j, k, l);
      }
    } else if f.SelfPredecessor? || f.UnknownPredecessor? {
      FirstProblemIsUnique(ops, f, e);
    } else if e.CycleDetected? && f.CycleDetected? {
      var b :| LargestSelfBlocked(GraphOf(ops), b) && e.stuck == Ascending(b);
      var c :| LargestSelfBlocked(GraphOf(ops), c) && f.stuck == Ascending(c);
      LargestIsUnique(GraphOf(ops), b, c);
    }
  }

  // -------------------------------------------------------------- readiness

  function Operation(route: Route, s: OperationSeq): Option<RouteOperation> {
    FindOperation(route.operations, s)
  }

  function FindOperation(ops: seq<RouteOperation>, s: OperationSeq): Option<RouteOperation> {
    if ops == [] then None
    else if ops[0].seq_ == s then Some(ops[0])
    else FindOperation(ops[1..], s)
  }

  predicate PredecessorsSatisfied(route: Route, op: RouteOperation, completed: set<OperationSeq>) {
    forall p :: p in op.predecessors ==>
      p in completed ||
      match Operation(route, p)
      case Some(pred) => pred.requirement.Optional?
      case None => false
  }

  predicate IsReady(route: Route, op: RouteOperation, completed: set<OperationSeq>) {
    op.seq_ !in completed && PredecessorsSatisfied(route, op, completed)
  }

  function ReadyOperations(route: Route, completed: set<OperationSeq>): seq<RouteOperation> {
    Filter((op: RouteOperation) => IsReady(route, op, completed), route.operations)
  }

  predicate IsComplete(route: Route, completed: set<OperationSeq>) {
    forall op :: op in route.operations && op.requirement.Required? ==> op.seq_ in completed
  }

  lemma {:induction false} FindsOperation(ops: seq<RouteOperation>, i: nat)
    requires i < |ops| && DistinctSeqs(ops)
    ensures FindOperation(ops, ops[i].seq_) == Some(ops[i])
  {
    if i > 0 {
      FindsOperation(ops[1..], i - 1);
    }
  }

  lemma ReadyMember(route: Route, completed: set<OperationSeq>, op: RouteOperation)
    ensures op in ReadyOperations(route, completed) <==> op in route.operations && IsReady(route, op, completed)
  {
    FilterMember((o: RouteOperation) => IsReady(route, o, completed), route.operations, op);
  }

  /**
   No deadlock: whatever has been completed or voided, a valid route with work left has a
   ready operation. Were there none, the unfinished operations would block themselves.
   */
  lemma NoDeadlock(route: Route, completed: set<OperationSeq>)
    requires Valid(route)
    ensures ReadyOperations(route, completed) == [] <==> forall op :: op in route.operations ==> op.seq_ in completed
  {
    var ops, g := route.operations, GraphOf(route.operations);
    if ReadyOperations(route, completed) == [] {
      var unfinished := g.Keys - completed;
      forall s | s in unfinished
        ensures WaitsFor(g, s, unfinished)
      {
        GraphOfKey(ops, s);
        var i :| 0 <= i < |ops| && ops[i].seq_ == s;
        GraphOfMember(ops, i);
        ReadyMember(route, completed, ops[i]);
        var p :| p in ops[i].predecessors && p !in completed;
        assert p in Elements(g[s]);
      }
      if unfinished != {} {
        BlockedSetHasCycle(g, unfinished);
        assert false;
      }
      forall op | op in ops
        ensures op.seq_ in completed
      {
        var i :| 0 <= i < |ops| && ops[i] == op;
        GraphOfMember(ops, i);
        assert op.seq_ !in unfinished;
      }
    } else {
      ReadyMember(route, completed, ReadyOperations(route, completed)[0]);
    }
  }
}
