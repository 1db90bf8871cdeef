/** The predecessor graph of a route: cycles, visit orders and self-blocked sets. */
module RouteGraph {
  import opened Collections
  import opened RouteModel

  // ------------------------------------------------------------ the graph

  /** Each operation number with its predecessors; one number may be listed more than once. */
  type Graph = map<OperationSeq, seq<OperationSeq>>

  function GraphOf(ops: seq<RouteOperation>): Graph {
    if ops == [] then map[]
    else GraphOf(ops[..|ops| - 1])[ops[|ops| - 1].seq_ := ops[|ops| - 1].predecessors]
  }

  function Elements(s: seq<OperationSeq>): set<OperationSeq> {
    set x | x in s
  }

  ghost predicate DistinctSeqs(ops: seq<RouteOperation>) {
    forall i, j :: 0 <= i < j < |ops| ==> ops[i].seq_ != ops[j].seq_
  }

  ghost predicate KnownPredecessors(g: Graph) {
    forall s :: s in g ==> Elements(g[s]) <= g.Keys
  }

  /** The i-th entry of a walk is a predecessor of the next one. */
  ghost predicate Edge(g: Graph, walk: seq<OperationSeq>, i: nat)
    requires i + 1 < |walk|
  {
    walk[i + 1] in g && walk[i] in g[walk[i + 1]]
  }

  ghost predicate IsWalk(g: Graph, walk: seq<OperationSeq>) {
    |walk| >= 2 && forall i :: 0 <= i < |walk| - 1 ==> Edge(g, walk, i)
  }

  ghost predicate HasCycle(g: Graph) {
    exists walk :: IsWalk(g, walk) && walk[0] == walk[|walk| - 1]
  }

  ghost predicate WaitsFor(g: Graph, s: OperationSeq, blocked: set<OperationSeq>)
    requires s in g
  {
    exists p :: p in blocked && p in g[s]
  }

  /** Every member of `blocked` waits for a member of `blocked`. */
  ghost predicate SelfBlocked(g: Graph, blocked: set<OperationSeq>) {
    blocked <= g.Keys && forall s {:trigger WaitsFor(g, s, blocked)} :: s in blocked ==> WaitsFor(g, s, blocked)
  }

  ghost predicate LargestSelfBlocked(g: Graph, blocked: set<OperationSeq>) {
    && SelfBlocked(g, blocked)
    && forall other :: SelfBlocked(g, other) ==> other <= blocked
  }

  /** Lists distinct operations, each one after all of its predecessors. */
  ghost predicate VisitOrder(g: Graph, order: seq<OperationSeq>) {
    order == [] ||
    var earlier, last := order[..|order| - 1], order[|order| - 1];
    && VisitOrder(g, earlier)
    && last in g && last !in Elements(earlier)
    && Elements(g[last]) <= Elements(earlier)
  }

  /** With distinct numbers the graph has one node per operation, holding its predecessors. */
  lemma {:induction false} GraphOfMember(ops: seq<RouteOperation>, i: nat)
    requires i < |ops| && DistinctSeqs(ops)
    ensures ops[i].seq_ in GraphOf(ops) && GraphOf(ops)[ops[i].seq_] == ops[i].predecessors
  {
    if i < |ops| - 1 {
      GraphOfMember(ops[..|ops| - 1], i);
    }
  }

  lemma {:induction false} GraphOfKey(ops: seq<RouteOperation>, s: OperationSeq)
    ensures s in GraphOf(ops) <==> exists i :: 0 <= i < |ops| && ops[i].seq_ == s
  {
    if ops != [] {
      var init := ops[..|ops| - 1];
      GraphOfKey(init, s);
      if s in GraphOf(init) {
        var i :| 0 <= i < |init| && init[i].seq_ == s;
        assert ops[i].seq_ == s;
      } else if i :| 0 <= i < |ops| && ops[i].seq_ == s {
        assert i < |init| ==> init[i].seq_ == s;
      }
    }
  }

  lemma {:induction false} GraphOfSize(ops: seq<RouteOperation>)
    requires DistinctSeqs(ops)
    ensures |GraphOf(ops).Keys| == |ops|
  {
    if ops != [] {
      var init, last := ops[..|ops| - 1], ops[|ops| - 1];
      GraphOfSize(init);
      GraphOfKey(init, last.seq_);
      assert GraphOf(ops).Keys == GraphOf(init).Keys + {last.seq_};
    }
  }

  // ------------------------------------------- cycles, orders and blocked sets

  lemma CycleIsBlockedSet(g: Graph, walk: seq<OperationSeq>)
    requires IsWalk(g, walk) && walk[0] == walk[|walk| - 1]
    ensures SelfBlocked(g, Elements(walk)) && walk[0] in Elements(walk)
  {
    forall s | s in Elements(walk)
      ensures s in g && WaitsFor(g, s, Elements(walk))
    {
      var i :| 0 <= i < |walk| && walk[i] == s;
      var j := if i == 0 then |walk| - 1 else i;
      assert Edge(g, walk, j - 1) && walk[j - 1] in Elements(walk);
    }
  }

  /** Inside a self-blocked set one can walk backwards for as long as one likes. */
  lemma {:induction false} BackwardWalk(g: Graph, blocked: set<OperationSeq>, s: OperationSeq, n: nat)
    returns (walk: seq<OperationSeq>)
    requires SelfBlocked(g, blocked) && s in blocked
    ensures |walk| == n + 1 && walk[n] == s
    ensures forall x :: x in walk ==> x in blocked
    ensures forall i :: 0 <= i < n ==> Edge(g, walk, i)
    decreases n
  {
    if n == 0 {
      walk := [s];
    } else {
      assert WaitsFor(g, s, blocked);
      var p :| p in blocked && p in g[s];
      var before := BackwardWalk(g, blocked, p, n - 1);
      walk := before + [s];
      forall i | 0 <= i < n ensures Edge(g, walk, i) {
        if i < n - 1 { assert Edge(g, before, i); }
      }
    }
  }

  lemma BlockedSetHasCycle(g: Graph, blocked: set<OperationSeq>)
    requires SelfBlocked(g, blocked) && blocked != {}
    ensures HasCycle(g)
  {
    var s :| s in blocked;
    var walk := BackwardWalk(g, blocked, s, |blocked|);
    if Distinct(walk) {
      DistinctFits(walk, blocked);
      assert false;
    }
    var i, j :| 0 <= i < j < |walk| && walk[i] == walk[j];
    var loop := walk[i..j + 1];
    forall k | 0 <= k < |loop| - 1 ensures Edge(g, loop, k) { assert Edge(g, walk, i + k); }
    assert loop[0] == loop[|loop| - 1];
  }

  /** A graph has a cycle exactly when some non-empty set of operations is self-blocked. */
  lemma CycleIffBlockedSet(g: Graph)
    ensures HasCycle(g) <==> exists blocked :: SelfBlocked(g, blocked) && blocked != {}
  {
    if HasCycle(g) {
      var walk :| IsWalk(g, walk) && walk[0] == walk[|walk| - 1];
      CycleIsBlockedSet(g, walk);
    }
    if blocked :| SelfBlocked(g, blocked) && blocked != {} {
      BlockedSetHasCycle(g, blocked);
    }
  }

  lemma {:induction false} OrderAvoidsBlocked(g: Graph, order: seq<OperationSeq>, blocked: set<OperationSeq>)
    requires VisitOrder(g, order) && SelfBlocked(g, blocked)
    ensures Elements(order) !! blocked
  {
    if order != [] {
      var earlier, last := order[..|order| - 1], order[|order| - 1];
      OrderAvoidsBlocked(g, earlier, blocked);
      assert Elements(order) == Elements(earlier) + {last};
      assert last in blocked ==> WaitsFor(g, last, blocked);
    }
  }

  /** A visit order of all operations rules out every cycle. */
  lemma OrderRulesOutCycles(g: Graph, order: seq<OperationSeq>)
    requires VisitOrder(g, order) && Elements(order) == g.Keys
    ensures !HasCycle(g)
  {
    if HasCycle(g) {
      var walk :| IsWalk(g, walk) && walk[0] == walk[|walk| - 1];
      CycleIsBlockedSet(g, walk);
      OrderAvoidsBlocked(g, order, Elements(walk));
      assert false;
    }
  }

  lemma VisitNext(g: Graph, order: seq<OperationSeq>, s: OperationSeq)
    requires VisitOrder(g, order) && s in g && s !in order && forall p :: p in g[s] ==> p in order
    ensures VisitOrder(g, order + [s])
  {
    assert (order + [s])[..|order|] == order;
  }

  lemma {:induction false} VisitOrderSize(g: Graph, order: seq<OperationSeq>)
    requires VisitOrder(g, order)
    ensures |Elements(order)| == |order| && Elements(order) <= g.Keys
  {
    if order != [] {
      var earlier, last := order[..|order| - 1], order[|order| - 1];
      VisitOrderSize(g, earlier);
      assert Elements(order) == Elements(earlier) + {last};
    }
  }

  lemma {:induction false} VisitedFits(g: Graph, order: seq<OperationSeq>)
    requires VisitOrder(g, order)
    ensures |order| <= |g.Keys|
    ensures |order| == |g.Keys| <==> Elements(order) == g.Keys
  {
    VisitOrderSize(g, order);
    SubsetSize(Elements(order), g.Keys);
  }
}
