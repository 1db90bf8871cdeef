/** Kahn's algorithm as the route validation runs it, with counters, a queue and a stuck set. */
module Acyclicity {
  import opened Collections
  import opened RouteModel
  import opened RouteGraph

  // -------------------------------------------------------- the edge lists

  /** One entry per edge leaving `p`, in the order the edges are listed. */
  ghost function SuccessorList(ops: seq<RouteOperation>, p: OperationSeq): seq<OperationSeq> {
    if ops == [] then []
    else SuccessorList(ops[..|ops| - 1], p) + Repeated(ops[|ops| - 1].predecessors, p, ops[|ops| - 1].seq_)
  }

  /** One copy of `s` for each occurrence of `p` among `preds`. */
  ghost function Repeated(preds: seq<OperationSeq>, p: OperationSeq, s: OperationSeq): seq<OperationSeq> {
    if preds == [] then []
    else Repeated(preds[..|preds| - 1], p, s) + (if preds[|preds| - 1] == p then [s] else [])
  }

  lemma {:induction false} RepeatedCount(preds: seq<OperationSeq>, p: OperationSeq, s: OperationSeq, t: OperationSeq)
    ensures multiset(Repeated(preds, p, s))[t] == if t == s then multiset(preds)[p] else 0
  {
    if preds != [] {
      assert preds == preds[..|preds| - 1] + [preds[|preds| - 1]];
      RepeatedCount(preds[..|preds| - 1], p, s, t);
    }
  }

  function Get(m: Graph, k: OperationSeq): seq<OperationSeq> {
    if k in m then m[k] else []
  }

  /** `s` occurs among the successors of `p` as often as `p` occurs among the predecessors of `s`. */
  lemma {:induction false} SuccessorCount(ops: seq<RouteOperation>, p: OperationSeq, s: OperationSeq)
    requires DistinctSeqs(ops)
    ensures multiset(SuccessorList(ops, p))[s] == multiset(Get(GraphOf(ops), s))[p]
  {
    if ops != [] {
      var init, last := ops[..|ops| - 1], ops[|ops| - 1];
      SuccessorCount(init, p, s);
      RepeatedCount(last.predecessors, p, last.seq_, s);
      GraphOfKey(init, s);
    }
  }

  /** The successor map after the predecessors `preds` of `s` have been entered. */
  ghost function WithEdges(successors: Graph, preds: seq<OperationSeq>, s: OperationSeq): Graph {
    if preds == [] then successors else
      var before, p := WithEdges(successors, preds[..|preds| - 1], s), preds[|preds| - 1];
      before[p := Get(before, p) + [s]]
  }

  lemma {:induction false} EdgesAdded(successors: Graph, preds: seq<OperationSeq>, s: OperationSeq, q: OperationSeq)
    ensures Get(WithEdges(successors, preds, s), q) == Get(successors, q) + Repeated(preds, q, s)
  {
    if preds != [] {
      EdgesAdded(successors, preds[..|preds| - 1], s, q);
    }
  }

  ghost function SuccessorMap(ops: seq<RouteOperation>): Graph {
    if ops == [] then map[]
    else WithEdges(SuccessorMap(ops[..|ops| - 1]), ops[|ops| - 1].predecessors, ops[|ops| - 1].seq_)
  }

  lemma {:induction false} SuccessorMapLists(ops: seq<RouteOperation>, q: OperationSeq)
    ensures Get(SuccessorMap(ops), q) == SuccessorList(ops, q)
  {
    if ops != [] {
      var init, last := ops[..|ops| - 1], ops[|ops| - 1];
      SuccessorMapLists(init, q);
      EdgesAdded(SuccessorMap(init), last.predecessors, last.seq_, q);
    }
  }

  /** `successors` lists the edges of `g` from the other end. */
  ghost predicate Transposed(g: Graph, successors: Graph) {
    forall p, s :: multiset(Get(successors, p))[s] == multiset(Get(g, s))[p]
  }

  method BuildSuccessors(ops: seq<RouteOperation>) returns (successors: Graph)
    requires DistinctSeqs(ops)
    ensures Transposed(GraphOf(ops), successors)
  {
    successors := map[];
    var i := 0;
    while i < |ops|
      invariant 0 <= i <= |ops|
      invariant successors == SuccessorMap(ops[..i])
    {
      var op := ops[i];
      var j := 0;
      while j < |op.predecessors|
        invariant 0 <= j <= |op.predecessors|
        invariant successors == WithEdges(SuccessorMap(ops[..i]), op.predecessors[..j], op.seq_)
      {
        var p := op.predecessors[j];
        assert op.predecessors[..j + 1][..j] == op.predecessors[..j];
        successors := successors[p := Get(successors, p) + [op.seq_]];
        j := j + 1;
      }
      assert op.predecessors[..|op.predecessors|] == op.predecessors;
      assert ops[..i + 1][..i] == ops[..i];
      i := i + 1;
    }
    assert ops[..|ops|] == ops;
    forall p, s
      ensures multiset(Get(successors, p))[s] == multiset(Get(GraphOf(ops), s))[p]
    {
      SuccessorMapLists(ops, p);
      SuccessorCount(ops, p, s);
    }
  }

  method BuildIndegree(ops: seq<RouteOperation>) returns (indegree: map<OperationSeq, nat>)
    ensures indegree.Keys == GraphOf(ops).Keys
    ensures forall s :: s in indegree ==> indegree[s] == |GraphOf(ops)[s]|
  {
    indegree := map[];
    var i := 0;
    while i < |ops|
      invariant 0 <= i <= |ops|
      invariant indegree.Keys == GraphOf(ops[..i]).Keys
      invariant forall s :: s in indegree ==> indegree[s] == |GraphOf(ops[..i])[s]|
    {
      assert ops[..i + 1][..i] == ops[..i];
      indegree := indegree[ops[i].seq_ := |ops[i].predecessors|];
      i := i + 1;
    }
    assert ops[..|ops|] == ops;
  }

  // ------------------------------------------------------ Kahn's algorithm

  datatype Search = Search(indegree: map<OperationSeq, nat>, queue: seq<OperationSeq>)

  /**
   In-degrees count the predecessors outside `counted`, less the ones in `released`. What has
   reached zero was either popped before or waits in the queue, exactly once.
   */
  ghost predicate Counted(g: Graph, search: Search, counted: set<OperationSeq>, popped: set<OperationSeq>,
                          released: multiset<OperationSeq>) {
    && search.indegree.Keys == g.Keys
    && (forall s :: s in g ==> search.indegree[s] + released[s] == CountOutside(g[s], counted))
    && (forall s :: s in popped ==> s in g && search.indegree[s] == 0)
    && (forall s :: multiset(search.queue)[s] == if s in g && search.indegree[s] == 0 && s !in popped then 1 else 0)
  }

  /** The state between two queue pops, after `done` has been popped. */
  ghost predicate Searching(g: Graph, search: Search, done: seq<OperationSeq>) {
    VisitOrder(g, done) && Counted(g, search, Elements(done), Elements(done), multiset{})
  }

  /** Takes one edge into `s` off its in-degree, and queues it when that was the last one. */
  function Decrement(search: Search, s: OperationSeq): Search
    requires s in search.indegree ==> search.indegree[s] > 0
  {
    if s !in search.indegree then search
    else Search(search.indegree[s := search.indegree[s] - 1],
                if search.indegree[s] == 1 then search.queue + [s] else search.queue)
  }

  lemma ReleasedOne(g: Graph, search: Search, done: set<OperationSeq>, node: OperationSeq,
                    released: multiset<OperationSeq>, s: OperationSeq)
    requires node !in done && s in g
    requires released[s] < multiset(g[s])[node]
    requires Counted(g, search, done, done + {node}, released)
    ensures search.indegree[s] > 0
    ensures Counted(g, Decrement(search, s), done, done + {node}, released + multiset{s})
  {
    CountOutsideStep(g[s], done, node);
  }

  lemma ReleasedAll(g: Graph, successors: Graph, search: Search, done: set<OperationSeq>, node: OperationSeq)
    requires Transposed(g, successors) && node !in done
    requires Counted(g, search, done, done + {node}, multiset(Get(successors, node)))
    ensures Counted(g, search, done + {node}, done + {node}, multiset{})
  {
    forall s | s in g
      ensures search.indegree[s] == CountOutside(g[s], done + {node})
    {
      assert multiset(Get(successors, node))[s] == multiset(Get(g, s))[node];
      CountOutsideStep(g[s], done, node);
    }
  }

  lemma EdgeLeft(g: Graph, successors: Graph, node: OperationSeq, k: nat)
    requires Transposed(g, successors) && k < |Get(successors, node)|
    ensures var next := Get(successors, node);
      && next[k] in g
      && multiset(next[..k])[next[k]] < multiset(g[next[k]])[node]
      && multiset(next[..k + 1]) == multiset(next[..k]) + multiset{next[k]}
  {
    var next := Get(successors, node);
    assert next == next[..k] + ([next[k]] + next[k + 1..]);
    assert next[..k + 1] == next[..k] + [next[k]];
    assert multiset(next)[next[k]] == multiset(Get(g, next[k]))[node];
  }

  /**
   Removes `node` from the counts of its successors. Decrementing never underflows: the
   in-degree is a `nat` and each decrement is proved to start from at least one.
   */
  method Release(ghost g: Graph, successors: Graph, search0: Search, ghost done: set<OperationSeq>, node: OperationSeq)
    returns (search: Search)
    requires Transposed(g, successors) && node !in done
    requires Counted(g, search0, done, done + {node}, multiset{})
    ensures Counted(g, search, done + {node}, done + {node}, multiset{})
  {
    search := search0;
    var next := Get(successors, node);
    var k := 0;
    while k < |next|
      invariant 0 <= k <= |next|
      invariant Counted(g, search, done, done + {node}, multiset(next[..k]))
    {
      EdgeLeft(g, successors, node, k);
      ReleasedOne(g, search, done, node, multiset(next[..k]), next[k]);
      search := Decrement(search, next[k]);
      k := k + 1;
    }
    assert next[..|next|] == next;
    ReleasedAll(g, successors, search, done, node);
  }

  lemma PoppedInOrder(g: Graph, search: Search, done: seq<OperationSeq>)
    requires Searching(g, search, done) && search.queue != []
    ensures var node := search.queue[0];
      && Counted(g, search.(queue := search.queue[1..]), Elements(done), Elements(done) + {node}, multiset{})
      && node !in Elements(done)
      && VisitOrder(g, done + [node])
      && Elements(done + [node]) == Elements(done) + {node}
  {
    var node, rest := search.queue[0], search.queue[1..];
    assert search.queue == [node] + rest;
    assert multiset(search.queue)[node] == multiset(rest)[node] + 1;
    CountOutsideZero(g[node], Elements(done));
    assert (done + [node])[..|done|] == done;
  }

  function Stuck(indegree: map<OperationSeq, nat>): set<OperationSeq> {
    set s | s in indegree && indegree[s] > 0
  }

  /** When the queue runs dry, what still has a positive in-degree is the largest self-blocked set. */
  lemma StuckIsLargest(g: Graph, search: Search, done: seq<OperationSeq>)
    requires KnownPredecessors(g) && Searching(g, search, done) && search.queue == []
    ensures LargestSelfBlocked(g, Stuck(search.indegree))
    ensures Stuck(search.indegree) == g.Keys - Elements(done)
  {
    var stuck := Stuck(search.indegree);
    assert stuck == g.Keys - Elements(done) by {
      assert forall s :: s in g ==> multiset(search.queue)[s] == 0;
    }
    forall s | s in stuck
      ensures WaitsFor(g, s, stuck)
    {
      CountOutsideZero(g[s], Elements(done));
      var p :| p in g[s] && p !in Elements(done);
      assert p in Elements(g[s]);
      assert p in stuck;
    }
    forall other | SelfBlocked(g, other)
      ensures other <= stuck
    {
      OrderAvoidsBlocked(g, done, other);
    }
  }

  lemma DryQueue(g: Graph, search: Search, done: seq<OperationSeq>)
    requires KnownPredecessors(g) && Searching(g, search, done) && search.queue == []
    ensures LargestSelfBlocked(g, Stuck(search.indegree))
    ensures |done| == |g.Keys| <==> Elements(done) == g.Keys
    ensures |done| == |g.Keys| <==> !HasCycle(g)
    ensures |done| == |g.Keys| <==> Stuck(search.indegree) == {}
  {
    StuckIsLargest(g, search, done);
    VisitedFits(g, done);
    VisitOrderSize(g, done);
    if Elements(done) == g.Keys {
      OrderRulesOutCycles(g, done);
    } else {
      assert !(g.Keys <= Elements(done));
      var s :| s in g && s !in Elements(done);
      assert s in Stuck(search.indegree);
      BlockedSetHasCycle(g, Stuck(search.indegree));
    }
  }

  lemma {:induction false} CountOutsideNone(s: seq<OperationSeq>)
    ensures CountOutside(s, {}) == |s|
  {
    if s != [] { CountOutsideNone(s[1..]); }
  }

  lemma SearchStarts(g: Graph, indegree: map<OperationSeq, nat>, ready: set<OperationSeq>)
    requires indegree.Keys == g.Keys && forall s :: s in indegree ==> indegree[s] == |g[s]|
    requires ready == set s | s in indegree && indegree[s] == 0
    ensures Searching(g, Search(indegree, Ascending(ready)), [])
  {
    assert Elements([]) == {};
    forall s | s in g ensures indegree[s] == CountOutside(g[s], {}) {
      CountOutsideNone(g[s]);
    }
    forall s: OperationSeq ensures multiset(Ascending(ready))[s] == if s in ready then 1 else 0 {
      AscendingOnce(ready, s);
    }
  }

  method PopAll(ghost g: Graph, successors: Graph, search0: Search, size: nat)
    returns (search: Search, count: nat, ghost visited: seq<OperationSeq>)
    requires Transposed(g, successors) && Searching(g, search0, []) && size == |g.Keys|
    ensures Searching(g, search, visited) && search.queue == [] && count == |visited|
  {
    search, count, visited := search0, 0, [];
    while search.queue != []
      invariant Searching(g, search, visited)
      invariant count == |visited| <= size
      decreases size - count
    {
      var node := search.queue[0];
      PoppedInOrder(g, search, visited);
      count := count + 1;
      search := Release(g, successors, search.(queue := search.queue[1..]), Elements(visited), node);
      visited := visited + [node];
      VisitedFits(g, visited);
    }
  }

  /**
   Kahn's algorithm. It passes exactly when the graph has no cycle, and then `visited` is a
   topological order of all operations. Otherwise it reports, in increasing order, the largest
   set in which every operation waits for another one. No operation is visited twice.
   */
  method AssertAcyclic(ops: seq<RouteOperation>) returns (res: Outcome<RouteError>, ghost visited: seq<OperationSeq>)
    requires DistinctSeqs(ops) && KnownPredecessors(GraphOf(ops))
    ensures res.Pass? <==> !HasCycle(GraphOf(ops))
    ensures res.Pass? <==> Elements(visited) == GraphOf(ops).Keys
    ensures VisitOrder(GraphOf(ops), visited)
    ensures res.Fail? ==>
      exists blocked ::
        && blocked != {} && LargestSelfBlocked(GraphOf(ops), blocked)
        && res.error == CycleDetected(Ascending(blocked))
  {
    var indegree := BuildIndegree(ops);
    var successors := BuildSuccessors(ops);
    var ready := set s | s in indegree && indegree[s] == 0;
    SearchStarts(GraphOf(ops), indegree, ready);
    GraphOfSize(ops);
    var search, count;
    search, count, visited := PopAll(GraphOf(ops), successors, Search(indegree, Ascending(ready)), |ops|);
    DryQueue(GraphOf(ops), search, visited);
    if count == |ops| {
      res := Pass;
    } else {
      res := Fail(CycleDetected(Ascending(Stuck(search.indegree))));
    }
  }
}
