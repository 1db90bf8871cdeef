/**
 The two recursive walks of crates/trace-store/migrations/0003_integrity.sql, row by row: what went into
 a unit, and what a unit went into. UNION ALL keeps a row for every way in which it is found.
 */
module GenealogyWalks {
  import opened Collections
  import opened Genealogy

  datatype Direction = Down | Up

  /** The link is found in the first round of a walk from `start`. */
  predicate Begins(dir: Direction, start: UnitId, g: Link) {
    match dir case Down => g.parent == start case Up => g.item == Child(start)
  }

  /** The link is found in the round after the one that found `w`. */
  predicate Follows(dir: Direction, w: Link, g: Link) {
    match dir case Down => w.item == Child(g.parent) case Up => g.item == Child(w.parent)
  }

  /** The links along which a row of the walk was found; the row carries the last one. */
  type Chain = seq<Link>

  predicate IsChain(dir: Direction, table: seq<Link>, start: UnitId, c: Chain) {
    c != [] && c[|c| - 1] in table &&
    if |c| == 1 then Begins(dir, start, c[0])
    else Follows(dir, c[|c| - 2], c[|c| - 1]) && IsChain(dir, table, start, c[..|c| - 1])
  }

  /** A row names its link, whose id stands for the other columns. */
  datatype WalkRow = WalkRow(depth: nat, link: Link)

  // ------------------------------------------------------------ the query

  function FirstRows(dir: Direction, table: seq<Link>, start: UnitId): seq<WalkRow> {
    if table == [] then []
    else
      var g := table[|table| - 1];
      if Begins(dir, start, g) then FirstRows(dir, table[..|table| - 1], start) + [WalkRow(1, g)]
      else FirstRows(dir, table[..|table| - 1], start)
  }

  /** The rows that one link of the table adds to those it is joined with. */
  function JoinOne(dir: Direction, working: seq<WalkRow>, g: Link): seq<WalkRow> {
    if working == [] then []
    else
      var w := working[|working| - 1];
      if Follows(dir, w.link, g) && w.depth < DEPTH_CAP
      then JoinOne(dir, working[..|working| - 1], g) + [WalkRow(w.depth + 1, g)]
      else JoinOne(dir, working[..|working| - 1], g)
  }

  function Join(dir: Direction, table: seq<Link>, working: seq<WalkRow>): seq<WalkRow> {
    if table == [] then []
    else Join(dir, table[..|table| - 1], working) + JoinOne(dir, working, table[|table| - 1])
  }

  /** The chains found in one round after another. */
  function FirstChains(dir: Direction, table: seq<Link>, start: UnitId): seq<Chain> {
    if table == [] then []
    else
      var g := table[|table| - 1];
      if Begins(dir, start, g) then FirstChains(dir, table[..|table| - 1], start) + [[g]]
      else FirstChains(dir, table[..|table| - 1], start)
  }

  function LongerBy(dir: Direction, chains: seq<Chain>, g: Link): seq<Chain> {
    if chains == [] then []
    else
      var c := chains[|chains| - 1];
      if c != [] && Follows(dir, c[|c| - 1], g) then LongerBy(dir, chains[..|chains| - 1], g) + [c + [g]]
      else LongerBy(dir, chains[..|chains| - 1], g)
  }

  function Longer(dir: Direction, table: seq<Link>, chains: seq<Chain>): seq<Chain> {
    if table == [] then []
    else Longer(dir, table[..|table| - 1], chains) + LongerBy(dir, chains, table[|table| - 1])
  }

  function ChainsAt(dir: Direction, table: seq<Link>, start: UnitId, d: nat): seq<Chain> {
    if d == 0 then []
    else if d == 1 then FirstChains(dir, table, start)
    else Longer(dir, table, ChainsAt(dir, table, start, d - 1))
  }

  function ChainsUpTo(dir: Direction, table: seq<Link>, start: UnitId, d: nat): seq<Chain> {
    if d == 0 then [] else ChainsUpTo(dir, table, start, d - 1) + ChainsAt(dir, table, start, d)
  }

  /** The row of each chain: how long it is, and where it ends. */
  function RowsOf(chains: seq<Chain>): seq<WalkRow> {
    if chains == [] then []
    else
      var c := chains[|chains| - 1];
      if c == [] then RowsOf(chains[..|chains| - 1])
      else RowsOf(chains[..|chains| - 1]) + [WalkRow(|c|, c[|c| - 1])]
  }

  // ------------------------------------------------------------ rows and chains

  ghost predicate AllOfLength(chains: seq<Chain>, d: nat) {
    forall c :: c in chains ==> |c| == d
  }

  lemma {:induction false} RowsConcat(a: seq<Chain>, b: seq<Chain>)
    ensures RowsOf(a + b) == RowsOf(a) + RowsOf(b)
  {
    if b == [] {
      assert a + b == a;
    } else {
      assert (a + b)[..|a + b| - 1] == a + b[..|b| - 1];
      RowsConcat(a, b[..|b| - 1]);
    }
  }

  lemma {:induction false} FirstRowsAreChains(dir: Direction, table: seq<Link>, start: UnitId)
    ensures FirstRows(dir, table, start) == RowsOf(FirstChains(dir, table, start))
    ensures AllOfLength(FirstChains(dir, table, start), 1)
  {
    if table != [] {
      var init, g := table[..|table| - 1], table[|table| - 1];
      FirstRowsAreChains(dir, init, start);
      var chains := FirstChains(dir, init, start);
      assert (chains + [[g]])[..|chains|] == chains;
    }
  }

  lemma RowsSnoc(chains: seq<Chain>, c: Chain)
    requires c != []
    ensures RowsOf(chains + [c]) == RowsOf(chains) + [WalkRow(|c|, c[|c| - 1])]
  {
    assert (chains + [c])[..|chains|] == chains;
  }

  lemma JoinOneSnoc(dir: Direction, rows: seq<WalkRow>, w: WalkRow, g: Link)
    ensures JoinOne(dir, rows + [w], g) ==
            if Follows(dir, w.link, g) && w.depth < DEPTH_CAP then JoinOne(dir, rows, g) + [WalkRow(w.depth + 1, g)]
            else JoinOne(dir, rows, g)
  {
    assert (rows + [w])[..|rows|] == rows;
  }

  lemma {:induction false} LongerByLength(dir: Direction, chains: seq<Chain>, g: Link, d: nat)
    requires AllOfLength(chains, d)
    ensures AllOfLength(LongerBy(dir, chains, g), d + 1)
  {
    if chains != [] {
      var init, c := chains[..|chains| - 1], chains[|chains| - 1];
      assert c in chains && forall x :: x in init ==> x in chains;
      LongerByLength(dir, init, g, d);
    }
  }

  lemma JoinOneStep(dir: Direction, init: seq<Chain>, c: Chain, g: Link)
    requires 0 < |c| < DEPTH_CAP
    requires JoinOne(dir, RowsOf(init), g) == RowsOf(LongerBy(dir, init, g))
    ensures JoinOne(dir, RowsOf(init + [c]), g) == RowsOf(LongerBy(dir, init + [c], g))
  {
    assert (init + [c])[..|init|] == init;
    RowsSnoc(init, c);
    JoinOneSnoc(dir, RowsOf(init), WalkRow(|c|, c[|c| - 1]), g);
    RowsSnoc(LongerBy(dir, init, g), c + [g]);
  }

  lemma {:induction false} JoinOneIsLonger(dir: Direction, chains: seq<Chain>, g: Link, d: nat)
    requires AllOfLength(chains, d) && 0 < d < DEPTH_CAP
    ensures JoinOne(dir, RowsOf(chains), g) == RowsOf(LongerBy(dir, chains, g))
  {
    if chains != [] {
      var init, c := chains[..|chains| - 1], chains[|chains| - 1];
      assert c in chains && forall x :: x in init ==> x in chains;
      JoinOneIsLonger(dir, init, g, d);
      JoinOneStep(dir, init, c, g);
      assert init + [c] == chains;
    }
  }

  lemma {:induction false} JoinIsLonger(dir: Direction, table: seq<Link>, chains: seq<Chain>, d: nat)
    requires AllOfLength(chains, d) && 0 < d < DEPTH_CAP
    ensures Join(dir, table, RowsOf(chains)) == RowsOf(Longer(dir, table, chains))
    ensures AllOfLength(Longer(dir, table, chains), d + 1)
  {
    if table != [] {
      var init, g := table[..|table| - 1], table[|table| - 1];
      JoinIsLonger(dir, init, chains, d);
      JoinOneIsLonger(dir, chains, g, d);
      LongerByLength(dir, chains, g, d);
      RowsConcat(Longer(dir, init, chains), LongerBy(dir, chains, g));
    }
  }

  lemma {:induction false} JoinStops(dir: Direction, table: seq<Link>, working: seq<WalkRow>)
    requires forall w :: w in working ==> w.depth >= DEPTH_CAP
    ensures Join(dir, table, working) == []
  {
    if table != [] {
      JoinStops(dir, table[..|table| - 1], working);
      JoinOneStops(dir, working, table[|table| - 1]);
    }
  }

  lemma {:induction false} JoinOneStops(dir: Direction, working: seq<WalkRow>, g: Link)
    requires forall w :: w in working ==> w.depth >= DEPTH_CAP
    ensures JoinOne(dir, working, g) == []
  {
    if working != [] {
      assert working[|working| - 1] in working;
      JoinOneStops(dir, working[..|working| - 1], g);
    }
  }

  lemma {:induction false} RowsDepth(chains: seq<Chain>, d: nat)
    requires AllOfLength(chains, d)
    ensures forall w :: w in RowsOf(chains) ==> w.depth == d
    ensures d > 0 ==> |RowsOf(chains)| == |chains|
  {
    if chains != [] {
      assert chains[|chains| - 1] in chains;
      RowsDepth(chains[..|chains| - 1], d);
    }
  }

  lemma {:induction false} ChainsHaveLength(dir: Direction, table: seq<Link>, start: UnitId, d: nat)
    requires d <= DEPTH_CAP
    ensures AllOfLength(ChainsAt(dir, table, start, d), d)
  {
    if d == 1 {
      FirstRowsAreChains(dir, table, start);
    } else if d > 1 {
      ChainsHaveLength(dir, table, start, d - 1);
      JoinIsLonger(dir, table, ChainsAt(dir, table, start, d - 1), d - 1);
    }
  }

  lemma {:induction false} LongerOfNone(dir: Direction, table: seq<Link>)
    ensures Longer(dir, table, []) == []
  {
    if table != [] {
      LongerOfNone(dir, table[..|table| - 1]);
    }
  }

  lemma {:induction false} NoChainsLater(dir: Direction, table: seq<Link>, start: UnitId, d: nat, n: nat)
    requires 1 <= d <= n && ChainsAt(dir, table, start, d) == []
    ensures ChainsAt(dir, table, start, n) == [] && ChainsUpTo(dir, table, start, n) == ChainsUpTo(dir, table, start, d)
    decreases n
  {
    if d < n {
      NoChainsLater(dir, table, start, d, n - 1);
      LongerOfNone(dir, table);
      assert ChainsUpTo(dir, table, start, n - 1) + [] == ChainsUpTo(dir, table, start, n - 1);
    }
  }

  lemma RoundOfWalk(dir: Direction, table: seq<Link>, start: UnitId, d: nat)
    requires 1 <= d <= DEPTH_CAP
    ensures var found := Join(dir, table, RowsOf(ChainsAt(dir, table, start, d)));
      if d < DEPTH_CAP
      then found == RowsOf(ChainsAt(dir, table, start, d + 1))
           && RowsOf(ChainsUpTo(dir, table, start, d)) + found == RowsOf(ChainsUpTo(dir, table, start, d + 1))
      else found == []
  {
    var chains := ChainsAt(dir, table, start, d);
    ChainsHaveLength(dir, table, start, d);
    if d < DEPTH_CAP {
      JoinIsLonger(dir, table, chains, d);
      RowsConcat(ChainsUpTo(dir, table, start, d), ChainsAt(dir, table, start, d + 1));
    } else {
      RowsDepth(chains, d);
      JoinStops(dir, table, RowsOf(chains));
    }
  }

  lemma WalkStarts(dir: Direction, table: seq<Link>, start: UnitId)
    ensures FirstRows(dir, table, start) == RowsOf(ChainsAt(dir, table, start, 1))
    ensures FirstRows(dir, table, start) == RowsOf(ChainsUpTo(dir, table, start, 1))
  {
    FirstRowsAreChains(dir, table, start);
    assert ChainsUpTo(dir, table, start, 1) == [] + ChainsAt(dir, table, start, 1) == ChainsAt(dir, table, start, 1);
  }

  lemma WalkEnds(dir: Direction, table: seq<Link>, start: UnitId, d: nat)
    requires 1 <= d < DEPTH_CAP && RowsOf(ChainsAt(dir, table, start, d)) == []
    ensures ChainsUpTo(dir, table, start, d) == ChainsUpTo(dir, table, start, DEPTH_CAP)
  {
    ChainsHaveLength(dir, table, start, d);
    RowsDepth(ChainsAt(dir, table, start, d), d);
    NoChainsLater(dir, table, start, d, DEPTH_CAP);
  }

  /**
   A walk as it is evaluated: each round joins the rows found last with the table and keeps every match
   (UNION ALL). It terminates on any links, cyclic or not, with one row for each chain of up to 32 links.
   */
  method Walk(dir: Direction, table: seq<Link>, start: UnitId) returns (rows: seq<WalkRow>)
    ensures rows == RowsOf(ChainsUpTo(dir, table, start, 32))
  {
    rows := FirstRows(dir, table, start);
    var working := rows;
    ghost var d: nat := 1;
    WalkStarts(dir, table, start);
    while working != []
      invariant 1 <= d <= DEPTH_CAP
      invariant working == RowsOf(ChainsAt(dir, table, start, d)) || (d == DEPTH_CAP && working == [])
      invariant rows == RowsOf(ChainsUpTo(dir, table, start, d))
      decreases DEPTH_CAP - d, |working|
    {
      RoundOfWalk(dir, table, start, d);
      working := Join(dir, table, working);
      assert working == [] ==> rows + working == rows;
      rows := rows + working;
      d := if d < DEPTH_CAP then d + 1 else d;
    }
    if d < DEPTH_CAP {
      WalkEnds(dir, table, start, d);
    }
  }

  // ------------------------------------------------------------ one row per chain

  ghost predicate NoRepeats(table: seq<Link>) {
    forall g :: multiset(table)[g] <= 1
  }

  lemma {:induction false} FirstChainsCount(dir: Direction, table: seq<Link>, start: UnitId, c: Chain)
    ensures multiset(FirstChains(dir, table, start))[c] ==
            if |c| == 1 && Begins(dir, start, c[0]) then multiset(table)[c[0]] else 0
  {
    if table != [] {
      var init, g := table[..|table| - 1], table[|table| - 1];
      FirstChainsCount(dir, init, start, c);
      DropLast(table);
      assert [g] == c <==> |c| == 1 && c[0] == g;
    }
  }

  lemma {:induction false} LongerByCount(dir: Direction, chains: seq<Chain>, g: Link, c: Chain)
    ensures multiset(LongerBy(dir, chains, g))[c] ==
            if |c| >= 2 && c[|c| - 1] == g && Follows(dir, c[|c| - 2], g) then multiset(chains)[c[..|c| - 1]] else 0
  {
    if chains != [] {
      var init, last := chains[..|chains| - 1], chains[|chains| - 1];
      LongerByCount(dir, init, g, c);
      DropLast(chains);
      assert c != [] && last == c[..|c| - 1] && c[|c| - 1] == g ==> last + [g] == c;
      assert last + [g] == c ==> c[..|c| - 1] == last;
    }
  }

  lemma {:induction false} LongerCount(dir: Direction, table: seq<Link>, chains: seq<Chain>, c: Chain)
    requires NoRepeats(table)
    ensures multiset(Longer(dir, table, chains))[c] ==
            if |c| >= 2 && c[|c| - 1] in table && Follows(dir, c[|c| - 2], c[|c| - 1])
            then multiset(chains)[c[..|c| - 1]] else 0
  {
    if table != [] {
      var init, g := table[..|table| - 1], table[|table| - 1];
      DropLast(table);
      assert NoRepeats(init) by {
        forall x ensures multiset(init)[x] <= 1 { assert multiset(table)[x] <= 1; }
      }
      LongerCount(dir, init, chains, c);
      LongerByCount(dir, chains, g, c);
      assert multiset(table)[g] <= 1;
      assert forall x :: x in table <==> x in init || x == g;
      assert g !in multiset(init);
    }
  }

  lemma ChainSplits(dir: Direction, table: seq<Link>, start: UnitId, c: Chain)
    requires |c| >= 2
    ensures IsChain(dir, table, start, c) <==>
      c[|c| - 1] in table && Follows(dir, c[|c| - 2], c[|c| - 1]) && IsChain(dir, table, start, c[..|c| - 1])
  {
  }

  lemma FirstChainOnce(dir: Direction, table: seq<Link>, start: UnitId, c: Chain)
    requires NoRepeats(table)
    ensures multiset(ChainsAt(dir, table, start, 1))[c] ==
            if |c| == 1 && IsChain(dir, table, start, c) then 1 else 0
  {
    FirstChainsCount(dir, table, start, c);
    if |c| == 1 {
      assert multiset(table)[c[0]] <= 1;
      assert c[0] in table <==> c[0] in multiset(table);
    }
  }

  lemma NoShortChains(dir: Direction, table: seq<Link>, start: UnitId, d: nat, c: Chain)
    requires NoRepeats(table) && d > 1 && |c| < 2
    ensures multiset(ChainsAt(dir, table, start, d))[c] == 0
  {
    LongerCount(dir, table, ChainsAt(dir, table, start, d - 1), c);
  }

  /** A chain is found in a round as often as the chain before its last link was in the round before. */
  lemma FoundAsOften(dir: Direction, table: seq<Link>, start: UnitId, d: nat, c: Chain)
    requires NoRepeats(table) && d > 1 && |c| >= 2
    ensures multiset(ChainsAt(dir, table, start, d))[c] ==
            if c[|c| - 1] in table && Follows(dir, c[|c| - 2], c[|c| - 1])
            then multiset(ChainsAt(dir, table, start, d - 1))[c[..|c| - 1]] else 0
  {
    LongerCount(dir, table, ChainsAt(dir, table, start, d - 1), c);
  }

  /** Every chain of d links is found in round d, exactly once, and nothing else is. */
  lemma {:induction false} EveryChainOnce(dir: Direction, table: seq<Link>, start: UnitId, d: nat, c: Chain)
    requires NoRepeats(table)
    ensures multiset(ChainsAt(dir, table, start, d))[c] ==
            if |c| == d && IsChain(dir, table, start, c) then 1 else 0
  {
    if d == 1 {
      FirstChainOnce(dir, table, start, c);
    } else if d > 1 && |c| < 2 {
      NoShortChains(dir, table, start, d, c);
    } else if d > 1 {
      EveryChainOnce(dir, table, start, d - 1, c[..|c| - 1]);
      FoundAsOften(dir, table, start, d, c);
      ChainSplits(dir, table, start, c);
    }
  }

  // ------------------------------------------------------------ rounds as sets of links

  function LinksOf(table: seq<Link>): set<Link> {
    set g | g in table
  }

  ghost predicate EndsChain(dir: Direction, table: seq<Link>, start: UnitId, d: nat, g: Link) {
    exists c :: IsChain(dir, table, start, c) && |c| == d && c[|c| - 1] == g
  }

  /** The links found in a round, as a set. */
  ghost function Round(dir: Direction, links: set<Link>, start: UnitId, d: nat): set<Link> {
    match dir case Down => Descendants(links, start, d) case Up => Ancestors(links, start, d)
  }

  lemma RoundStep(dir: Direction, links: set<Link>, start: UnitId, d: nat, g: Link)
    requires d > 1
    ensures g in Round(dir, links, start, d) <==>
            g in links && exists w :: w in Round(dir, links, start, d - 1) && Follows(dir, w, g)
  {
    match dir
    case Down =>
      if w :| w in Descendants(links, start, d - 1) && g in links && w.item == Child(g.parent) {
        assert g in Descendants(links, start, d);
      }
      if g in Descendants(links, start, d) {
        var w :| w in Descendants(links, start, d - 1) && w.item == Child(g.parent);
        assert w in Round(dir, links, start, d - 1) && Follows(dir, w, g);
      }
    case Up =>
      if w :| w in Ancestors(links, start, d - 1) && g in links && g.item == Child(w.parent) {
        assert g in Ancestors(links, start, d);
      }
      if g in Ancestors(links, start, d) {
        var w :| w in Ancestors(links, start, d - 1) && g.item == Child(w.parent);
        assert w in Round(dir, links, start, d - 1) && Follows(dir, w, g);
      }
  }

  lemma {:induction false} RoundHasChain(dir: Direction, table: seq<Link>, start: UnitId, d: nat, g: Link)
    requires g in Round(dir, LinksOf(table), start, d)
    ensures EndsChain(dir, table, start, d, g)
  {
    if d == 1 {
      assert IsChain(dir, table, start, [g]);
    } else {
      RoundStep(dir, LinksOf(table), start, d, g);
      var w :| w in Round(dir, LinksOf(table), start, d - 1) && Follows(dir, w, g);
      RoundHasChain(dir, table, start, d - 1, w);
      var c :| IsChain(dir, table, start, c) && |c| == d - 1 && c[|c| - 1] == w;
      assert (c + [g])[..|c|] == c;
      assert IsChain(dir, table, start, c + [g]);
    }
  }

  lemma {:induction false} ChainInRound(dir: Direction, table: seq<Link>, start: UnitId, c: Chain)
    requires IsChain(dir, table, start, c)
    ensures c[|c| - 1] in Round(dir, LinksOf(table), start, |c|)
  {
    if |c| > 1 {
      ChainInRound(dir, table, start, c[..|c| - 1]);
      RoundStep(dir, LinksOf(table), start, |c|, c[|c| - 1]);
    }
  }

  lemma RoundIffChain(dir: Direction, table: seq<Link>, start: UnitId, d: nat, g: Link)
    ensures g in Round(dir, LinksOf(table), start, d) <==> EndsChain(dir, table, start, d, g)
  {
    if g in Round(dir, LinksOf(table), start, d) {
      RoundHasChain(dir, table, start, d, g);
    }
    if c :| IsChain(dir, table, start, c) && |c| == d && c[|c| - 1] == g {
      ChainInRound(dir, table, start, c);
    }
  }

  lemma {:induction false} RowsMember(chains: seq<Chain>, r: WalkRow)
    ensures r in RowsOf(chains) <==> exists c :: c in chains && c != [] && WalkRow(|c|, c[|c| - 1]) == r
  {
    if chains != [] {
      var init, c := chains[..|chains| - 1], chains[|chains| - 1];
      RowsMember(init, r);
      assert forall x :: x in chains <==> x in init || x == c;
    }
  }

  lemma {:induction false} UpToMember(dir: Direction, table: seq<Link>, start: UnitId, n: nat, c: Chain)
    requires NoRepeats(table)
    ensures c in ChainsUpTo(dir, table, start, n) <==> |c| <= n && IsChain(dir, table, start, c)
  {
    if n > 0 {
      UpToMember(dir, table, start, n - 1, c);
      EveryChainOnce(dir, table, start, n, c);
      assert c in ChainsAt(dir, table, start, n) <==> c in multiset(ChainsAt(dir, table, start, n));
    }
  }

  /** A link is listed at depth d of a walk exactly when it is found in round d. */
  lemma ListedIffInRound(dir: Direction, table: seq<Link>, start: UnitId, d: nat, g: Link)
    requires NoRepeats(table)
    ensures WalkRow(d, g) in RowsOf(ChainsUpTo(dir, table, start, 32)) <==>
            1 <= d <= 32 && g in Round(dir, LinksOf(table), start, d)
  {
    var all := ChainsUpTo(dir, table, start, DEPTH_CAP);
    RowsMember(all, WalkRow(d, g));
    RoundIffChain(dir, table, start, d, g);
    if WalkRow(d, g) in RowsOf(all) {
      var c :| c in all && c != [] && WalkRow(|c|, c[|c| - 1]) == WalkRow(d, g);
      UpToMember(dir, table, start, DEPTH_CAP, c);
    }
    if 1 <= d <= DEPTH_CAP && EndsChain(dir, table, start, d, g) {
      var c :| IsChain(dir, table, start, c) && |c| == d && c[|c| - 1] == g;
      UpToMember(dir, table, start, DEPTH_CAP, c);
    }
  }

  /** A lot is listed in the history of a unit exactly when some row of the walk down names it. */
  lemma ListedMeansRow(table: seq<Link>, lot: LotNo, u: UnitId)
    requires NoRepeats(table)
    ensures Listed(LinksOf(table), lot, u) <==>
            exists r :: r in RowsOf(ChainsUpTo(Down, table, u, 32)) && r.link.item == Lot(lot)
  {
    var links, rows := LinksOf(table), RowsOf(ChainsUpTo(Down, table, u, DEPTH_CAP));
    if d: nat :| d < DEPTH_CAP && FoundInRound(links, lot, u, d) {
      var g :| g in Descendants(links, u, d + 1) && g.item == Lot(lot);
      ListedIffInRound(Down, table, u, d + 1, g);
      assert WalkRow(d + 1, g) in rows;
    }
    if r :| r in rows && r.link.item == Lot(lot) {
      ListedIffInRound(Down, table, u, r.depth, r.link);
      assert r == WalkRow(r.depth, r.link);
      assert FoundInRound(links, lot, u, r.depth - 1);
    }
  }

  // ------------------------------------------------------------ completeness

  /** A walk without a cap would find the link. */
  ghost predicate Connected(dir: Direction, links: set<Link>, start: UnitId, g: Link) {
    exists d: nat :: g in Round(dir, links, start, d)
  }

  ghost predicate ConnectedWithin(dir: Direction, links: set<Link>, start: UnitId, g: Link) {
    exists d: nat :: d <= DEPTH_CAP && g in Round(dir, links, start, d)
  }

  /** Some row of the walk names the link. */
  ghost predicate HasRow(dir: Direction, table: seq<Link>, start: UnitId, g: Link) {
    exists d :: WalkRow(d, g) in RowsOf(ChainsUpTo(dir, table, start, 32))
  }

  lemma HasRowIffWithin(dir: Direction, table: seq<Link>, start: UnitId, g: Link)
    requires NoRepeats(table)
    ensures HasRow(dir, table, start, g) <==> ConnectedWithin(dir, LinksOf(table), start, g)
  {
    forall d: nat
      ensures WalkRow(d, g) in RowsOf(ChainsUpTo(dir, table, start, DEPTH_CAP)) <==>
              1 <= d <= DEPTH_CAP && g in Round(dir, LinksOf(table), start, d)
    {
      ListedIffInRound(dir, table, start, d, g);
    }
    assert Round(dir, LinksOf(table), start, 0) == {};
  }

  lemma {:induction false} RoundIsWithin(dir: Direction, links: set<Link>, start: UnitId, d: nat, g: Link)
    requires forall w :: w in Round(dir, links, start, DEPTH_CAP + 1) ==> ConnectedWithin(dir, links, start, w)
    requires g in Round(dir, links, start, d)
    ensures ConnectedWithin(dir, links, start, g)
    decreases d
  {
    if d > DEPTH_CAP {
      RoundStep(dir, links, start, d, g);
      var w :| w in Round(dir, links, start, d - 1) && Follows(dir, w, g);
      RoundIsWithin(dir, links, start, d - 1, w);
      var e: nat :| e <= DEPTH_CAP && w in Round(dir, links, start, e);
      assert e > 0;
      RoundStep(dir, links, start, e + 1, g);
    }
  }

  /**
   Either walk lists every link at any depth if and only if one round more would not have found a link
   that has no row.
   */
  lemma WalkCompleteIff(dir: Direction, table: seq<Link>, start: UnitId)
    requires NoRepeats(table)
    ensures (forall g :: Connected(dir, LinksOf(table), start, g) ==> HasRow(dir, table, start, g)) <==>
            (forall g :: g in Round(dir, LinksOf(table), start, 33) ==> HasRow(dir, table, start, g))
  {
    var links := LinksOf(table);
    forall g
      ensures HasRow(dir, table, start, g) <==> ConnectedWithin(dir, links, start, g)
    {
      HasRowIffWithin(dir, table, start, g);
    }
    if forall g :: g in Round(dir, links, start, DEPTH_CAP + 1) ==> HasRow(dir, table, start, g) {
      forall g | Connected(dir, links, start, g)
        ensures HasRow(dir, table, start, g)
      {
        var d: nat :| g in Round(dir, links, start, d);
        RoundIsWithin(dir, links, start, d, g);
      }
    }
  }

  /** In a line the walk up from its start finds one link in each round. */
  lemma {:induction false} LineRounds(lot: LotNo, n: nat, d: nat, g: Link)
    ensures g in Round(Up, Line(lot, n), 0, d) <==> 1 <= d <= n && g == Link(d, d, Child(d - 1))
    decreases d
  {
    var links := Line(lot, n);
    LineMember(lot, n, g);
    if d > 1 {
      RoundStep(Up, links, 0, d, g);
      var below := Link(d - 1, d - 1, Child(d - 2));
      LineRounds(lot, n, d - 1, below);
      if w :| w in Round(Up, links, 0, d - 1) && Follows(Up, w, g) {
        LineRounds(lot, n, d - 1, w);
      }
      assert Follows(Up, below, Link(d, d, Child(d - 1)));
    }
  }

  /** Up a line of n links exactly the first 32 have rows. */
  lemma LineUpHasRows(lot: LotNo, n: nat, table: seq<Link>, k: nat)
    requires NoRepeats(table) && LinksOf(table) == Line(lot, n) && 1 <= k <= n
    ensures Connected(Up, LinksOf(table), 0, Link(k, k, Child(k - 1)))
    ensures HasRow(Up, table, 0, Link(k, k, Child(k - 1))) <==> k <= 32
  {
    var g := Link(k, k, Child(k - 1));
    HasRowIffWithin(Up, table, 0, g);
    forall d: nat
      ensures g in Round(Up, LinksOf(table), 0, d) <==> d == k
    {
      LineRounds(lot, n, d, g);
    }
    assert g in Round(Up, LinksOf(table), 0, k);
  }

  /** Down a line of n child links to the lot, the lot has a row up to 31 of them. */
  lemma LineDownHasRow(lot: LotNo, n: nat, table: seq<Link>)
    requires NoRepeats(table) && LinksOf(table) == Line(lot, n)
    ensures Connected(Down, LinksOf(table), n, Link(0, 0, Lot(lot)))
    ensures HasRow(Down, table, n, Link(0, 0, Lot(lot))) <==> n <= 31
  {
    var links, g := LinksOf(table), Link(0, 0, Lot(lot));
    HasRowIffWithin(Down, table, n, g);
    forall d: nat
      ensures g in Round(Down, links, n, d) <==> d == n + 1
    {
      LotRound(lot, n, d);
    }
    assert g in Round(Down, links, n, n + 1);
  }

  /** On a line the only link to the lot is the first one. */
  lemma LotIsFound(lot: LotNo, n: nat, d: nat)
    requires d > 0
    ensures Link(0, 0, Lot(lot)) in Descendants(Line(lot, n), n, d) <==> FoundInRound(Line(lot, n), lot, n, d - 1)
  {
    var links := Line(lot, n);
    RoundsAreDual(links, lot, n, d - 1);
    if FoundInRound(links, lot, n, d - 1) {
      var h :| h in Descendants(links, n, d) && h.item == Lot(lot);
      DescendantsIffPath(links, n, d - 1, h);
      LineMember(lot, n, h);
    }
  }

  lemma LotRound(lot: LotNo, n: nat, d: nat)
    ensures Link(0, 0, Lot(lot)) in Descendants(Line(lot, n), n, d) <==> d == n + 1
  {
    if d > 0 {
      hide Descendants, Line, Level;
      LotIsFound(lot, n, d);
      RoundsAreDual(Line(lot, n), lot, n, d - 1);
      LevelIffPath(Line(lot, n), lot, n, d - 1);
      LineLevels(lot, n, d - 1);
    }
  }
}
