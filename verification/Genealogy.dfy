/**
 Recall queries over the genealogy links: from a lot up to the units built with it
 (crates/trace-store/src/query.rs), and from a unit down to what went into it or up to what it went
 into (crates/trace-store/migrations/0003_integrity.sql). The links may contain cycles.
 */
module Genealogy {
  import opened Collections

  type UnitId = int
  type LotNo = string

  /** Exactly one kind of thing is consumed by a link. */
  datatype Item = Child(unit: UnitId) | Lot(lot: LotNo)

  datatype Link = Link(id: int, parent: UnitId, item: Item)

  const DEPTH_CAP := 32

  // ------------------------------------------------------------ paths

  /** Some link records that the i-th unit of the path was built into the next one. */
  ghost predicate BuiltInto(links: set<Link>, path: seq<UnitId>, i: nat)
    requires i + 1 < |path|
  {
    exists g :: g in links && g.parent == path[i + 1] && g.item == Child(path[i])
  }

  /** A path upwards: each unit was built into the next one. */
  ghost predicate IsPath(links: set<Link>, path: seq<UnitId>) {
    path != [] && forall i :: 0 <= i < |path| - 1 ==> BuiltInto(links, path, i)
  }

  ghost predicate PathFromTo(links: set<Link>, path: seq<UnitId>, bottom: UnitId, top: UnitId, length: nat) {
    IsPath(links, path) && |path| == length + 1 && path[0] == bottom && path[length] == top
  }

  /** `u` is reached from a unit that consumed the lot directly, in exactly `d` child links. */
  ghost predicate ReachedFromLot(links: set<Link>, lot: LotNo, u: UnitId, d: nat) {
    exists path :: ConsumedAlong(links, lot, path, u, d)
  }

  ghost predicate ConsumedAlong(links: set<Link>, lot: LotNo, path: seq<UnitId>, u: UnitId, d: nat) {
    path != [] && path[0] in Seed(links, lot) && PathFromTo(links, path, path[0], u, d)
  }

  /** The lot is in the unit, directly or at any depth. */
  ghost predicate Contains(links: set<Link>, lot: LotNo, u: UnitId) {
    exists d: nat :: ReachedFromLot(links, lot, u, d)
  }

  lemma ExtendPath(links: set<Link>, path: seq<UnitId>, u: UnitId)
    requires IsPath(links, path) && exists g :: g in links && g.parent == u && g.item == Child(path[|path| - 1])
    ensures IsPath(links, path + [u])
  {
    forall i | 0 <= i < |path| ensures BuiltInto(links, path + [u], i) {
      if i < |path| - 1 { assert BuiltInto(links, path, i); }
    }
  }

  lemma PrependPath(links: set<Link>, u: UnitId, path: seq<UnitId>)
    requires IsPath(links, path) && exists g :: g in links && g.parent == path[0] && g.item == Child(u)
    ensures IsPath(links, [u] + path)
  {
    forall i | 0 <= i < |path| ensures BuiltInto(links, [u] + path, i) {
      if i > 0 { assert BuiltInto(links, path, i - 1); }
    }
  }

  lemma SubPath(links: set<Link>, path: seq<UnitId>, from: nat, to: nat)
    requires IsPath(links, path) && from < to <= |path|
    ensures IsPath(links, path[from..to])
  {
    forall i | 0 <= i < to - from - 1 ensures BuiltInto(links, path[from..to], i) {
      assert BuiltInto(links, path, from + i);
    }
  }

  // ------------------------------------------------------------ the recall query

  /** The units that consumed the lot directly. */
  function Seed(links: set<Link>, lot: LotNo): set<UnitId> {
    set g | g in links && g.item == Lot(lot) :: g.parent
  }

  function ParentsOf(links: set<Link>, units: set<UnitId>): set<UnitId> {
    set g | g in links && g.item.Child? && g.item.unit in units :: g.parent
  }

  /** The units reached after `d` rounds of the recursive query. */
  ghost function Level(links: set<Link>, lot: LotNo, d: nat): set<UnitId> {
    if d == 0 then Seed(links, lot) else ParentsOf(links, Level(links, lot, d - 1))
  }

  lemma {:induction false} LevelIffPath(links: set<Link>, lot: LotNo, u: UnitId, d: nat)
    ensures u in Level(links, lot, d) <==> ReachedFromLot(links, lot, u, d)
    decreases d
  {
    if d == 0 {
      if u in Seed(links, lot) { assert ConsumedAlong(links, lot, [u], u, 0); }
    } else {
      if u in Level(links, lot, d) {
        var g :| g in links && g.item.Child? && g.item.unit in Level(links, lot, d - 1) && g.parent == u;
        LevelIffPath(links, lot, g.item.unit, d - 1);
        var path :| ConsumedAlong(links, lot, path, g.item.unit, d - 1);
        ExtendPath(links, path, u);
        assert ConsumedAlong(links, lot, path + [u], u, d);
      }
      if path :| ConsumedAlong(links, lot, path, u, d) {
        var shorter := path[..d];
        SubPath(links, path, 0, d);
        assert BuiltInto(links, path, d - 1);
        var below := path[d - 1];
        assert ConsumedAlong(links, lot, shorter, below, d - 1);
        LevelIffPath(links, lot, below, d - 1);
      }
    }
  }

  datatype RollUpRow = RollUpRow(unit: UnitId, depth: nat)

  ghost function RowsAt(links: set<Link>, lot: LotNo, d: nat): set<RollUpRow> {
    set u | u in Level(links, lot, d) :: RollUpRow(u, d)
  }

  ghost function RowsUpTo(links: set<Link>, lot: LotNo, d: nat): set<RollUpRow> {
    if d == 0 then RowsAt(links, lot, 0) else RowsUpTo(links, lot, d - 1) + RowsAt(links, lot, d)
  }

  lemma {:induction false} RowsUpToMember(links: set<Link>, lot: LotNo, n: nat, r: RollUpRow)
    ensures r in RowsUpTo(links, lot, n) <==> r.depth <= n && r.unit in Level(links, lot, r.depth)
  {
    if n > 0 {
      RowsUpToMember(links, lot, n - 1, r);
    }
  }

  /** The join of one round's rows with the links. */
  function Joined(links: set<Link>, working: set<RollUpRow>): set<RollUpRow> {
    set g, r | g in links && r in working && g.item == Child(r.unit) && r.depth < DEPTH_CAP ::
      RollUpRow(g.parent, r.depth + 1)
  }

  lemma JoinedIsNextLevel(links: set<Link>, lot: LotNo, k: nat)
    ensures Joined(links, RowsAt(links, lot, k)) == if k < DEPTH_CAP then RowsAt(links, lot, k + 1) else {}
  {
    var working := RowsAt(links, lot, k);
    if k < DEPTH_CAP {
      var next := Level(links, lot, k + 1);
      forall u | u in next
        ensures RollUpRow(u, k + 1) in Joined(links, working)
      {
        var g :| g in links && g.item.Child? && g.item.unit in Level(links, lot, k) && g.parent == u;
        assert RollUpRow(g.item.unit, k) in working;
      }
    }
  }

  /** One round adds exactly the rows of the next level. */
  lemma RoundAddsLevel(links: set<Link>, lot: LotNo, k: nat)
    ensures var found := Joined(links, RowsAt(links, lot, k)) - RowsUpTo(links, lot, k);
      if k < DEPTH_CAP
      then found == RowsAt(links, lot, k + 1) && RowsUpTo(links, lot, k) + found == RowsUpTo(links, lot, k + 1)
      else found == {}
  {
    JoinedIsNextLevel(links, lot, k);
    var next := RowsAt(links, lot, k + 1);
    forall r | r in next ensures r !in RowsUpTo(links, lot, k) {
      RowsUpToMember(links, lot, k, r);
    }
  }

  lemma LevelOfRows(links: set<Link>, lot: LotNo, d: nat)
    ensures Level(links, lot, d) == set r | r in RowsAt(links, lot, d) :: r.unit
  {
    var level, rows := Level(links, lot, d), RowsAt(links, lot, d);
    forall u | u in level ensures u in (set r | r in rows :: r.unit) { assert RollUpRow(u, d) in rows; }
  }

  /** Once a level is empty, later ones add nothing. */
  lemma {:induction false} NothingBelowEmpty(links: set<Link>, lot: LotNo, k: nat, n: nat)
    requires k <= n && Level(links, lot, k) == {}
    ensures Level(links, lot, n) == {} && RowsUpTo(links, lot, n) == RowsUpTo(links, lot, k)
    decreases n
  {
    if k < n {
      NothingBelowEmpty(links, lot, k, n - 1);
    }
  }

  /**
   The recursive query as it is evaluated: each round joins the rows found last with the links,
   drops what is already there (UNION) and stops when nothing new is found. It terminates on any
   links, cyclic or not, with the units of each level up to the cap.
   */
  method RollUp(links: set<Link>, lot: LotNo) returns (rows: set<RollUpRow>)
    ensures rows == RowsUpTo(links, lot, 32)
  {
    rows := set u | u in Seed(links, lot) :: RollUpRow(u, 0);
    var working := rows;
    ghost var k: nat := 0;
    while working != {}
      invariant k <= DEPTH_CAP
      invariant working == RowsAt(links, lot, k) || (k == DEPTH_CAP && working == {})
      invariant rows == RowsUpTo(links, lot, k)
      decreases DEPTH_CAP - k, working
    {
      RoundAddsLevel(links, lot, k);
      working := Joined(links, working) - rows;
      rows := rows + working;
      k := if k < DEPTH_CAP then k + 1 else k;
    }
    if k < DEPTH_CAP {
      LevelOfRows(links, lot, k);
      NothingBelowEmpty(links, lot, k, DEPTH_CAP);
    }
  }

  /** The ids that the recall rolls up to: exactly the units within 32 child links of a direct consumer. */
  method AffectedIds(links: set<Link>, lot: LotNo) returns (units: set<UnitId>)
    ensures forall u :: u in units <==> Reported(links, lot, u)
  {
    var rows := RollUp(links, lot);
    units := set r | r in rows :: r.unit;
    forall u ensures u in units <==> Reported(links, lot, u) {
      if u in units {
        var r :| r in rows && r.unit == u;
        RowsUpToMember(links, lot, DEPTH_CAP, r);
        LevelIffPath(links, lot, u, r.depth);
      }
      if Reported(links, lot, u) {
        var d: nat :| d <= DEPTH_CAP && ReachedFromLot(links, lot, u, d);
        LevelIffPath(links, lot, u, d);
        RowsUpToMember(links, lot, DEPTH_CAP, RollUpRow(u, d));
      }
    }
  }

  /** A row of the unit table, with the columns that the recall returns. */
  datatype UnitRow = UnitRow(id: UnitId, uid: string, serial: string, state: string)

  /** No row comes before one with a smaller uid. */
  ghost predicate InUidOrder(rows: seq<UnitRow>) {
    rows == [] ||
    (InUidOrder(rows[..|rows| - 1])
     && forall r :: r in rows[..|rows| - 1] ==> !ComesBefore(rows[|rows| - 1].uid, r.uid))
  }

  ghost predicate IsLeast(rows: set<UnitRow>, least: UnitRow) {
    least in rows && forall r :: r in rows ==> !Less(r.uid, least.uid)
  }

  lemma {:induction false} HasLeast(rows: set<UnitRow>)
    requires rows != {}
    ensures exists least :: IsLeast(rows, least)
    decreases |rows|
  {
    var some :| some in rows;
    var others := rows - {some};
    if others == {} {
      LessIsStrictOrder(some.uid, "", "");
      assert rows == others + {some} == {some};
      assert IsLeast(rows, some);
    } else {
      HasLeast(others);
      var least :| IsLeast(others, least);
      LessIsStrictOrder(some.uid, least.uid, some.uid);
      if Less(some.uid, least.uid) {
        forall r | r in rows
          ensures !Less(r.uid, some.uid)
        {
          LessIsStrictOrder(r.uid, some.uid, least.uid);
        }
        assert IsLeast(rows, some);
      } else {
        assert IsLeast(rows, least);
      }
    }
  }

  /** ORDER BY uid. */
  method OrderByUid(found: set<UnitRow>) returns (rows: seq<UnitRow>)
    ensures InUidOrder(rows) && |rows| == |found| && forall r :: r in rows <==> r in found
  {
    rows := [];
    var left := found;
    while left != {}
      invariant InUidOrder(rows) && left <= found && |rows| + |left| == |found|
      invariant forall r :: r in rows <==> r in found && r !in left
      invariant forall r, l :: r in rows && l in left ==> !Less(l.uid, r.uid)
      decreases left
    {
      HasLeast(left);
      ghost var g :| IsLeast(left, g);
      var least :| least in left && forall r :: r in left ==> !Less(r.uid, least.uid);
      assert (rows + [least])[..|rows|] == rows;
      forall r | r in rows
        ensures !ComesBefore(least.uid, r.uid)
      {
        LessIffComesBefore(least.uid, r.uid);
      }
      rows := rows + [least];
      left := left - {least};
    }
  }

  /**
   The recall query: the rows of the unit table for exactly the units within 32 child links of a direct
   consumer, each once, by uid.
   */
  method UnitsAffectedByLot(links: set<Link>, units: map<UnitId, UnitRow>, lot: LotNo) returns (rows: seq<UnitRow>)
    requires forall u :: u in units ==> units[u].id == u
    ensures forall r :: r in rows <==> r.id in units && units[r.id] == r && Reported(links, lot, r.id)
    ensures InUidOrder(rows) && |rows| == |set u | u in units && Reported(links, lot, u)|
  {
    var ids := AffectedIds(links, lot);
    var found := set u | u in units && u in ids :: units[u];
    rows := OrderByUid(found);
    ghost var reported := set u | u in units && Reported(links, lot, u);
    assert found == (set u | u in reported :: units[u]);
    JoinSize(units, reported);
  }

  lemma {:induction false} JoinSize(units: map<UnitId, UnitRow>, ids: set<UnitId>)
    requires (forall u :: u in units ==> units[u].id == u) && ids <= units.Keys
    ensures |set u | u in ids :: units[u]| == |ids|
    decreases |ids|
  {
    var rows := set u | u in ids :: units[u];
    if ids == {} {
      assert rows == {};
    } else {
      var some := OneOf(ids);
      var fewer := set u | u in ids - {some} :: units[u];
      JoinSize(units, ids - {some});
      assert rows == fewer + {units[some]} && units[some] !in fewer;
    }
  }

  ghost predicate Reported(links: set<Link>, lot: LotNo, u: UnitId) {
    exists d: nat :: d <= 32 && ReachedFromLot(links, lot, u, d)
  }

  // ------------------------------------------------------------ completeness

  function AllParents(links: set<Link>): set<UnitId> {
    set g | g in links :: g.parent
  }

  /** Cutting the loops out of a path leaves one that visits no unit twice. */
  lemma {:induction false} SimplePath(links: set<Link>, lot: LotNo, path: seq<UnitId>, u: UnitId, d: nat)
    returns (simple: seq<UnitId>, e: nat)
    requires ConsumedAlong(links, lot, path, u, d)
    ensures ConsumedAlong(links, lot, simple, u, e) && Distinct(simple) && e <= d
    decreases d
  {
    if Distinct(path) {
      simple, e := path, d;
    } else {
      var i, j :| 0 <= i < j < |path| && path[i] == path[j];
      var cut := path[..i] + path[j..];
      assert IsPath(links, cut) by {
        forall k | 0 <= k < |cut| - 1 ensures BuiltInto(links, cut, k) {
          if k < i { assert BuiltInto(links, path, k); } else { assert BuiltInto(links, path, j + (k - i)); }
        }
      }
      assert cut[0] == path[0];
      assert ConsumedAlong(links, lot, cut, u, d - (j - i));
      simple, e := SimplePath(links, lot, cut, u, d - (j - i));
    }
  }

  lemma PathUnitsAreParents(links: set<Link>, lot: LotNo, path: seq<UnitId>, u: UnitId, d: nat)
    requires ConsumedAlong(links, lot, path, u, d)
    ensures forall x :: x in path ==> x in AllParents(links)
  {
    forall x | x in path ensures x in AllParents(links) {
      var i :| 0 <= i < |path| && path[i] == x;
      if i > 0 { assert BuiltInto(links, path, i - 1); }
    }
  }

  /** A unit is reported exactly when a path that visits no unit twice leads to it in at most 32 links. */
  lemma ReportedIffSimplePath(links: set<Link>, lot: LotNo, u: UnitId)
    ensures Reported(links, lot, u) <==>
      exists path, d: nat :: d <= 32 && Distinct(path) && ConsumedAlong(links, lot, path, u, d)
  {
    if Reported(links, lot, u) {
      var d: nat :| d <= DEPTH_CAP && ReachedFromLot(links, lot, u, d);
      var path :| ConsumedAlong(links, lot, path, u, d);
      var simple, e := SimplePath(links, lot, path, u, d);
    }
    if path, d: nat :| d <= DEPTH_CAP && Distinct(path) && ConsumedAlong(links, lot, path, u, d) {
      assert ReachedFromLot(links, lot, u, d);
    }
  }

  /** The walk of one step from a reported unit stays reported, unless it is the 33rd. */
  lemma {:induction false} LevelIsReported(links: set<Link>, lot: LotNo, u: UnitId, d: nat)
    requires forall w :: w in Level(links, lot, DEPTH_CAP + 1) ==> Reported(links, lot, w)
    requires u in Level(links, lot, d)
    ensures Reported(links, lot, u)
    decreases d
  {
    LevelIffPath(links, lot, u, d);
    if d > DEPTH_CAP {
      var g :| g in links && g.item.Child? && g.item.unit in Level(links, lot, d - 1) && g.parent == u;
      LevelIsReported(links, lot, g.item.unit, d - 1);
      var e: nat :| e <= DEPTH_CAP && ReachedFromLot(links, lot, g.item.unit, e);
      LevelIffPath(links, lot, g.item.unit, e);
      assert u in Level(links, lot, e + 1);
      LevelIffPath(links, lot, u, e + 1);
    }
  }

  /**
   The recall query reports every unit that contains the lot at any depth, whatever cycles there are, if
   and only if one round more would not have found a unit that is not reported.
   */
  lemma RecallCompleteIff(links: set<Link>, lot: LotNo)
    ensures (forall u :: Contains(links, lot, u) ==> Reported(links, lot, u)) <==>
            (forall u :: u in Level(links, lot, 33) ==> Reported(links, lot, u))
  {
    forall u | u in Level(links, lot, DEPTH_CAP + 1)
      ensures Contains(links, lot, u)
    {
      LevelIffPath(links, lot, u, DEPTH_CAP + 1);
    }
    if forall u :: u in Level(links, lot, DEPTH_CAP + 1) ==> Reported(links, lot, u) {
      forall u | Contains(links, lot, u)
        ensures Reported(links, lot, u)
      {
        var d: nat :| ReachedFromLot(links, lot, u, d);
        LevelIffPath(links, lot, u, d);
        LevelIsReported(links, lot, u, d);
      }
    }
  }

  /** So it misses nothing when no path that visits no unit twice is longer than 32 links. */
  lemma ShortPathsAreReported(links: set<Link>, lot: LotNo, u: UnitId)
    requires forall path, d: nat :: Distinct(path) && ConsumedAlong(links, lot, path, u, d) ==> d <= 32
    ensures Reported(links, lot, u) <==> Contains(links, lot, u)
  {
    if Contains(links, lot, u) {
      var d: nat :| ReachedFromLot(links, lot, u, d);
      var path :| ConsumedAlong(links, lot, path, u, d);
      var simple, e := SimplePath(links, lot, path, u, d);
      assert ReachedFromLot(links, lot, u, e);
    }
  }

  lemma SimplePathFits(links: set<Link>, lot: LotNo, path: seq<UnitId>, u: UnitId, d: nat)
    requires Distinct(path) && ConsumedAlong(links, lot, path, u, d)
    ensures d + 1 <= |AllParents(links)|
  {
    PathUnitsAreParents(links, lot, path, u, d);
    DistinctFits(path, AllParents(links));
  }

  /** In particular with at most 33 units that have anything built into them. */
  lemma RecallComplete(links: set<Link>, lot: LotNo, u: UnitId)
    requires |AllParents(links)| <= 33
    ensures Reported(links, lot, u) <==> Contains(links, lot, u)
  {
    forall path, d: nat | Distinct(path) && ConsumedAlong(links, lot, path, u, d)
      ensures d <= DEPTH_CAP
    {
      SimplePathFits(links, lot, path, u, d);
    }
    ShortPathsAreReported(links, lot, u);
  }

  /** Units 0 to n in a line, each built into the next; unit 0 consumed the lot. */
  function Line(lot: LotNo, n: nat): set<Link> {
    if n == 0 then {Link(0, 0, Lot(lot))} else Line(lot, n - 1) + {Link(n, n, Child(n - 1))}
  }

  lemma {:induction false} LineMember(lot: LotNo, n: nat, g: Link)
    ensures g in Line(lot, n) <==>
      g == Link(0, 0, Lot(lot)) || (1 <= g.id <= n && g == Link(g.id, g.id, Child(g.id - 1)))
  {
    if n > 0 {
      LineMember(lot, n - 1, g);
    }
  }

  lemma {:induction false} LineLevels(lot: LotNo, n: nat, d: nat)
    ensures Level(Line(lot, n), lot, d) == if d <= n then {d} else {}
    decreases d
  {
    var links := Line(lot, n);
    forall g: Link ensures g in links <==>
      g == Link(0, 0, Lot(lot)) || (1 <= g.id <= n && g == Link(g.id, g.id, Child(g.id - 1)))
    {
      LineMember(lot, n, g);
    }
    if d == 0 {
      assert Link(0, 0, Lot(lot)) in links;
    } else {
      LineLevels(lot, n, d - 1);
      if d <= n { assert Link(d, d, Child(d - 1)) in links; }
    }
  }

  lemma {:induction false} LineParents(lot: LotNo, n: nat)
    ensures |AllParents(Line(lot, n))| == n + 1 && forall u :: u in AllParents(Line(lot, n)) ==> 0 <= u <= n
  {
    if n == 0 {
      assert AllParents(Line(lot, 0)) == {0} by { assert Link(0, 0, Lot(lot)) in Line(lot, 0); }
    } else {
      LineParents(lot, n - 1);
      assert AllParents(Line(lot, n)) == AllParents(Line(lot, n - 1)) + {n} by {
        assert Link(n, n, Child(n - 1)) in Line(lot, n);
        assert forall g :: g in Line(lot, n - 1) ==> g in Line(lot, n);
      }
    }
  }

  /** In a line of n + 1 units the last one contains the lot, and is reported up to 32 links away. */
  lemma LineIsReported(lot: LotNo, n: nat)
    ensures Contains(Line(lot, n), lot, n)
    ensures Reported(Line(lot, n), lot, n) <==> n <= 32
  {
    forall d: nat
      ensures ReachedFromLot(Line(lot, n), lot, n, d) <==> d == n
    {
      LineLevels(lot, n, d);
      LevelIffPath(Line(lot, n), lot, n, d);
    }
    assert ReachedFromLot(Line(lot, n), lot, n, n);
  }

  /** 33 is the limit: in a line of 34 units the last one contains the lot and is not reported. */
  lemma RecallMissesThe34th(lot: LotNo)
    ensures |AllParents(Line(lot, 33))| == 34
    ensures Contains(Line(lot, 33), lot, 33) && !Reported(Line(lot, 33), lot, 33)
  {
    LineIsReported(lot, 33);
    LineParents(lot, 33);
  }

  // ------------------------------------------------------------ backward and forward walks

  /** The links found in round `d` of the walk down from `root`; the first round is 1. */
  ghost function Descendants(links: set<Link>, root: UnitId, d: nat): set<Link> {
    if d == 0 then {}
    else if d == 1 then set g | g in links && g.parent == root
    else set g, w | g in links && w in Descendants(links, root, d - 1) && w.item == Child(g.parent) :: g
  }

  /** The links found in round `d` of the walk up from `leaf`. */
  ghost function Ancestors(links: set<Link>, leaf: UnitId, d: nat): set<Link> {
    if d == 0 then {}
    else if d == 1 then set g | g in links && g.item == Child(leaf)
    else set g, w | g in links && w in Ancestors(links, leaf, d - 1) && g.item == Child(w.parent) :: g
  }

  ghost predicate LeadsDownTo(links: set<Link>, root: UnitId, d: nat, g: Link) {
    exists path :: PathFromTo(links, path, g.parent, root, d)
  }

  lemma {:induction false} DescendantHasPath(links: set<Link>, root: UnitId, d: nat, g: Link)
    requires g in Descendants(links, root, d + 1)
    ensures g in links && LeadsDownTo(links, root, d, g)
    decreases d
  {
    if d == 0 {
      assert PathFromTo(links, [root], g.parent, root, 0);
    } else {
      var w :| w in Descendants(links, root, d) && w.item == Child(g.parent);
      DescendantHasPath(links, root, d - 1, w);
      var path :| PathFromTo(links, path, w.parent, root, d - 1);
      PrependPath(links, g.parent, path);
      assert PathFromTo(links, [g.parent] + path, g.parent, root, d);
    }
  }

  lemma {:induction false} PathHasDescendant(links: set<Link>, root: UnitId, d: nat, g: Link)
    requires g in links && LeadsDownTo(links, root, d, g)
    ensures g in Descendants(links, root, d + 1)
    decreases d
  {
    var path :| PathFromTo(links, path, g.parent, root, d);
    if d > 0 {
      assert BuiltInto(links, path, 0);
      var w :| w in links && w.parent == path[1] && w.item == Child(path[0]);
      SubPath(links, path, 1, d + 1);
      assert PathFromTo(links, path[1..d + 1], w.parent, root, d - 1);
      PathHasDescendant(links, root, d - 1, w);
    }
  }

  lemma DescendantsIffPath(links: set<Link>, root: UnitId, d: nat, g: Link)
    ensures g in Descendants(links, root, d + 1) <==>
      g in links && exists path :: PathFromTo(links, path, g.parent, root, d)
  {
    if g in Descendants(links, root, d + 1) {
      DescendantHasPath(links, root, d, g);
    }
    if g in links && LeadsDownTo(links, root, d, g) {
      PathHasDescendant(links, root, d, g);
    }
  }

  lemma {:induction false} AncestorsIffPath(links: set<Link>, leaf: UnitId, d: nat, g: Link)
    ensures g in Ancestors(links, leaf, d + 1) <==>
      g in links && g.item.Child? && exists path :: PathFromTo(links, path, leaf, g.item.unit, d)
    decreases d
  {
    if d == 0 {
      if g in links && g.item == Child(leaf) { assert PathFromTo(links, [leaf], leaf, leaf, 0); }
    } else {
      if g in Ancestors(links, leaf, d + 1) {
        var w :| w in Ancestors(links, leaf, d) && g.item == Child(w.parent);
        AncestorsIffPath(links, leaf, d - 1, w);
        var path :| PathFromTo(links, path, leaf, w.item.unit, d - 1);
        ExtendPath(links, path, w.parent);
        assert PathFromTo(links, path + [w.parent], leaf, g.item.unit, d);
      }
      if path :| g in links && g.item.Child? && PathFromTo(links, path, leaf, g.item.unit, d) {
        assert BuiltInto(links, path, d - 1);
        var w :| w in links && w.parent == path[d] && w.item == Child(path[d - 1]);
        SubPath(links, path, 0, d);
        assert PathFromTo(links, path[..d], leaf, w.item.unit, d - 1) by { assert path[0..d] == path[..d]; }
        AncestorsIffPath(links, leaf, d - 1, w);
      }
    }
  }

  // ------------------------------------------------------------ duality

  /** Round `d` + 1 of the walk down from the unit finds the lot. */
  ghost predicate FoundInRound(links: set<Link>, lot: LotNo, u: UnitId, d: nat) {
    exists g :: g in Descendants(links, u, d + 1) && g.item == Lot(lot)
  }

  /** The lot shows up in the history of the unit. */
  ghost predicate Listed(links: set<Link>, lot: LotNo, u: UnitId) {
    exists d: nat :: d < 32 && FoundInRound(links, lot, u, d)
  }

  /** Round d + 1 of the walk down finds the lot exactly when level d of the recall finds the unit. */
  lemma RoundsAreDual(links: set<Link>, lot: LotNo, u: UnitId, d: nat)
    ensures FoundInRound(links, lot, u, d) <==> ReachedFromLot(links, lot, u, d)
  {
    if g :| g in Descendants(links, u, d + 1) && g.item == Lot(lot) {
      DescendantsIffPath(links, u, d, g);
      var path :| PathFromTo(links, path, g.parent, u, d);
      assert ConsumedAlong(links, lot, path, u, d);
    }
    if path :| ConsumedAlong(links, lot, path, u, d) {
      var g :| g in links && g.item == Lot(lot) && g.parent == path[0];
      assert PathFromTo(links, path, g.parent, u, d);
      DescendantsIffPath(links, u, d, g);
    }
  }

  /** The history of the last unit of a line lists the lot up to 31 child links away. */
  lemma LineIsListed(lot: LotNo, n: nat)
    ensures Contains(Line(lot, n), lot, n)
    ensures Listed(Line(lot, n), lot, n) <==> n <= 31
  {
    LineIsReported(lot, n);
    forall d: nat
      ensures FoundInRound(Line(lot, n), lot, n, d) <==> d == n
    {
      RoundsAreDual(Line(lot, n), lot, n, d);
      LineLevels(lot, n, d);
      LevelIffPath(Line(lot, n), lot, n, d);
    }
    assert FoundInRound(Line(lot, n), lot, n, n);
  }

  /**
   Recall and history agree but for one level. A lot listed in a unit's history always leads the
   recall to the unit; conversely the recall goes beyond the history exactly for the units that are
   32 child links away from every nearest direct consumer.
   */
  lemma RecallAndHistoryAreDual(links: set<Link>, lot: LotNo, u: UnitId)
    ensures Listed(links, lot, u) ==> Reported(links, lot, u)
    ensures Reported(links, lot, u) && !Listed(links, lot, u) <==>
      ReachedFromLot(links, lot, u, 32) && forall d: nat :: d < 32 ==> !ReachedFromLot(links, lot, u, d)
  {
    forall d: nat ensures FoundInRound(links, lot, u, d) <==> ReachedFromLot(links, lot, u, d) {
      RoundsAreDual(links, lot, u, d);
    }
  }

  /** The walks up and down have the same cap and are exact duals, round by round. */
  lemma WalksAreDual(links: set<Link>, top: UnitId, bottom: UnitId, d: nat)
    ensures (exists g :: g in Descendants(links, top, d + 1) && g.item == Child(bottom)) <==>
      (exists g :: g in Ancestors(links, bottom, d + 1) && g.parent == top)
  {
    if g :| g in Descendants(links, top, d + 1) && g.item == Child(bottom) {
      DescendantsIffPath(links, top, d, g);
      var path :| PathFromTo(links, path, g.parent, top, d);
      PrependPath(links, bottom, path);
      TopLink(links, [bottom] + path, bottom, top, d);
    }
    if g :| g in Ancestors(links, bottom, d + 1) && g.parent == top {
      AncestorsIffPath(links, bottom, d, g);
      var path :| PathFromTo(links, path, bottom, g.item.unit, d);
      ExtendPath(links, path, top);
      BottomLink(links, path + [top], bottom, top, d);
    }
  }

  lemma TopLink(links: set<Link>, path: seq<UnitId>, bottom: UnitId, top: UnitId, d: nat)
    requires PathFromTo(links, path, bottom, top, d + 1)
    ensures exists g :: g in Ancestors(links, bottom, d + 1) && g.parent == top
  {
    assert BuiltInto(links, path, d);
    var g :| g in links && g.parent == path[d + 1] && g.item == Child(path[d]);
    SubPath(links, path, 0, d + 1);
    assert PathFromTo(links, path[0..d + 1], bottom, g.item.unit, d);
    AncestorsIffPath(links, bottom, d, g);
  }

  lemma BottomLink(links: set<Link>, path: seq<UnitId>, bottom: UnitId, top: UnitId, d: nat)
    requires PathFromTo(links, path, bottom, top, d + 1)
    ensures exists g :: g in Descendants(links, top, d + 1) && g.item == Child(bottom)
  {
    assert BuiltInto(links, path, 0);
    var g :| g in links && g.parent == path[1] && g.item == Child(path[0]);
    SubPath(links, path, 1, d + 2);
    assert PathFromTo(links, path[1..d + 2], g.parent, top, d);
    DescendantsIffPath(links, top, d, g);
  }
}
