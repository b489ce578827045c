/** `computeFlowLayout`: the event graph turned into columns, lanes and routes. */
module FlowLayout {
  import opened Common
  import opened Graph
  import opened Topology
  import opened Registry
  import opened LongestPaths
  import opened Spine
  import opened Branches
  import opened Lanes
  import opened Routes

  datatype Place = Place(col: nat, lane: nat, idx: nat)

  datatype Layout = Layout(cols: nat, lanes: nat, place: map<Node, Place>, edges: seq<FlowEdge>,
                           ways: map<FlowEdge, Way>)

  /** Everything the drawing was derived from. */
  datatype Plan = Plan(succ: Preds, col: map<Node, nat>, height: map<Node, nat>, spine: seq<Node>, adj: Adjacency,
                       groups: seq<seq<Node>>, placed: seq<Branch>, lane: map<Node, nat>, bases: seq<nat>,
                       claims: seq<nat>)

  predicate HasEdges(events: seq<EventDef>)
    requires DistinctRefs(events)
  {
    exists i :: 0 <= i < |events| && FlowGraph(events)[events[i].ref] != []
  }

  /** The fallback without edges: one lane in declared order. */
  function SingleLane(events: seq<EventDef>): Layout
    requires DistinctRefs(events)
  {
    var at := IndexByRef(events);
    Layout(|events|, 1, map k | k in at :: Place(at[k], 0, at[k]), [], map[])
  }

  function NonSpine(refs: seq<Node>, spine: seq<Node>): (r: seq<Node>)
    ensures forall k :: k in r <==> k in refs && k !in spine
  {
    if refs == [] then []
    else
      assert refs == refs[..|refs| - 1] + [refs[|refs| - 1]];
      NonSpine(refs[..|refs| - 1], spine) + if refs[|refs| - 1] in spine then [] else [refs[|refs| - 1]]
  }

  function IncomingEdges(ps: seq<Node>, to: Node): (r: seq<FlowEdge>)
    ensures forall e :: e in r <==> e.to == to && e.from in ps
  {
    if ps == [] then []
    else
      assert ps == ps[..|ps| - 1] + [ps[|ps| - 1]];
      IncomingEdges(ps[..|ps| - 1], to) + [FlowEdge(ps[|ps| - 1], to)]
  }

  function EdgesOf(refs: seq<Node>, g: Preds): (r: seq<FlowEdge>)
    requires forall k :: k in refs ==> k in g
    ensures forall e :: e in r <==> e.to in refs && e.from in g[e.to]
  {
    if refs == [] then []
    else
      assert refs == refs[..|refs| - 1] + [refs[|refs| - 1]];
      EdgesOf(refs[..|refs| - 1], g) + IncomingEdges(g[refs[|refs| - 1]], refs[|refs| - 1])
  }

  function BranchOf(members: seq<Node>, col: map<Node, nat>): Branch
    requires members != [] && forall m :: m in members ==> m in col
  {
    var cs := Columns(members, col);
    Branch(members, Least(cs), Greatest(cs))
  }

  function BranchesOf(groups: seq<seq<Node>>, col: map<Node, nat>): (r: seq<Branch>)
    requires forall i :: 0 <= i < |groups| ==> groups[i] != [] && forall m :: m in groups[i] ==> m in col
    ensures |r| == |groups| && forall i :: 0 <= i < |r| ==> r[i].members == groups[i]
  {
    seq(|groups|, i requires 0 <= i < |groups| => BranchOf(groups[i], col))
  }

  /** The branch records the leftmost and the rightmost column of its members. */
  ghost predicate RecordsSpan(b: Branch, col: map<Node, nat>) {
    && (forall m :: m in b.members ==> m in col && b.minCol <= col[m] <= b.maxCol)
    && (exists m :: m in b.members && m in col && col[m] == b.minCol)
    && (exists m :: m in b.members && m in col && col[m] == b.maxCol)
  }

  lemma BranchesRecordSpans(groups: seq<seq<Node>>, col: map<Node, nat>, i: nat)
    requires forall i :: 0 <= i < |groups| ==> groups[i] != [] && forall m :: m in groups[i] ==> m in col
    requires i < |groups|
    ensures BranchesOf(groups, col)[i].members == groups[i] && RecordsSpan(BranchesOf(groups, col)[i], col)
  {
    var members, b := groups[i], BranchesOf(groups, col)[i];
    var cs := Columns(members, col);
    assert b == BranchOf(members, col);
    forall m | m in members
      ensures b.minCol <= col[m] <= b.maxCol
    {
      var k := IndexOf(members, m);
      assert cs[k] in cs && cs[k] == col[m];
    }
    assert col[members[IndexOf(cs, b.minCol)]] == b.minCol;
    assert col[members[IndexOf(cs, b.maxCol)]] == b.maxCol;
  }

  function MaxOver(keys: seq<Node>, score: map<Node, nat>): (r: nat)
    requires forall k :: k in keys ==> k in score
    ensures forall k :: k in keys ==> score[k] <= r
    ensures r == 0 || exists k :: k in keys && score[k] == r
  {
    if keys == [] then 0
    else
      assert keys == keys[..|keys| - 1] + [keys[|keys| - 1]];
      var m := MaxOver(keys[..|keys| - 1], score);
      if score[keys[|keys| - 1]] > m then score[keys[|keys| - 1]] else m
  }

  // --- the plan, stage by stage ----------------------------------------------------------

  /** Columns and heights are the longest paths in both directions, and the spine
      is the preferred walk over them. */
  ghost predicate SpineStage(g: Preds, refs: seq<Node>, succ: Preds, col: map<Node, nat>, height: map<Node, nat>,
                             spine: seq<Node>)
    requires Acyclic(g) && Elements(refs) == g.Keys
  {
    && Reversal(g, succ) && col == Depths(g) && height == DepthsOfReversal(g, succ)
    && Drawable(g, succ, col, height)
    && IsSpine(g, succ, refs, col, height, spine)
  }

  method PlanSpine(g: Preds, refs: seq<Node>)
    returns (succ: Preds, col: map<Node, nat>, height: map<Node, nat>, spine: seq<Node>)
    requires Listing(refs, g) && Acyclic(g) && refs != []
    ensures SpineStage(g, refs, succ, col, height, spine)
  {
    succ := Successors(refs, g);
    ReversalAcyclic(g, succ);
    col := Ranks(refs, g);
    height := Ranks(refs, succ);
    RanksAreDrawable(g, succ);
    SourceExists(g, refs);
    spine := WalkSpine(g, succ, refs, col, height);
  }

  /** The events off the spine, grouped into components and packed into lanes. */
  ghost predicate LaneStage(g: Preds, refs: seq<Node>, idx: map<Node, nat>, col: map<Node, nat>, spine: seq<Node>,
                            adj: Adjacency, groups: seq<seq<Node>>, placed: seq<Branch>, lane: map<Node, nat>,
                            bases: seq<nat>) {
    var rest := NonSpine(refs, spine);
    && AdjacencyOf(g, Elements(rest), adj)
    && IsSplit(rest, adj, groups)
    && (forall i :: 0 <= i < |groups| ==> groups[i] != [] && forall m :: m in groups[i] ==> m in col)
    && placed == BranchOrder(BranchesOf(groups, col), idx)
    && Packed(col, idx, Elements(spine), placed, lane, bases)
    && lane.Keys == Elements(refs)
  }

  lemma RecordsPartition(rest: seq<Node>, adj: Adjacency, groups: seq<seq<Node>>, col: map<Node, nat>, spine: set<Node>)
    requires IsSplit(rest, adj, groups) && forall k :: k in rest ==> k !in spine
    requires forall i :: 0 <= i < |groups| ==> groups[i] != [] && forall m :: m in groups[i] ==> m in col
    ensures Partition(spine, BranchesOf(groups, col)) && Distinct(BranchesOf(groups, col))
  {
    var records := BranchesOf(groups, col);
    forall i, j | 0 <= i < j < |records|
      ensures records[i] != records[j] && Elements(records[i].members) !! Elements(records[j].members)
    {
      assert groups[i][0] in groups[i];
      assert forall x :: x in groups[i] ==> x !in groups[j];
    }
    forall b | b in records
      ensures Distinct(b.members) && Elements(b.members) !! spine
    {
      var i := IndexOf(records, b);
      assert IsComponent(adj, groups[i]);
      assert forall x :: x in groups[i] ==> x in Covered(groups);
    }
  }

  lemma RecordsMembers(groups: seq<seq<Node>>, col: map<Node, nat>)
    requires forall i :: 0 <= i < |groups| ==> groups[i] != [] && forall m :: m in groups[i] ==> m in col
    ensures Members(BranchesOf(groups, col)) == Covered(groups)
  {
    var records := BranchesOf(groups, col);
    forall x
      ensures x in Members(records) <==> x in Covered(groups)
    {
      if x in Members(records) {
        var b :| b in records && x in b.members;
        assert x in groups[IndexOf(records, b)];
      }
      if x in Covered(groups) {
        var i :| 0 <= i < |groups| && x in groups[i];
        assert records[i] in records;
      }
    }
  }

  lemma PermutedPartition(records: seq<Branch>, placed: seq<Branch>, spine: set<Node>)
    requires Partition(spine, records) && Distinct(records) && multiset(placed) == multiset(records)
    ensures Partition(spine, placed) && Members(placed) == Members(records)
  {
    SameElements(placed, records);
    PermutationDistinct(records, placed);
    forall i, j | 0 <= i < j < |placed|
      ensures Elements(placed[i].members) !! Elements(placed[j].members)
    {
      assert placed[i] in records && placed[j] in records;
      var a, b := IndexOf(records, placed[i]), IndexOf(records, placed[j]);
      assert a != b;
    }
  }

  lemma GroupsPartition(rest: seq<Node>, adj: Adjacency, groups: seq<seq<Node>>, col: map<Node, nat>,
                        idx: map<Node, nat>, spine: set<Node>)
    requires IsSplit(rest, adj, groups) && forall k :: k in rest ==> k !in spine
    requires forall i :: 0 <= i < |groups| ==> groups[i] != [] && forall m :: m in groups[i] ==> m in col
    ensures var placed := BranchOrder(BranchesOf(groups, col), idx);
            Partition(spine, placed) && Members(placed) == Elements(rest)
  {
    var records := BranchesOf(groups, col);
    RecordsPartition(rest, adj, groups, col, spine);
    RecordsMembers(groups, col);
    PermutedPartition(records, BranchOrder(records, idx), spine);
  }

  method PlanLanes(g: Preds, refs: seq<Node>, idx: map<Node, nat>, col: map<Node, nat>, spine: seq<Node>)
    returns (adj: Adjacency, groups: seq<seq<Node>>, placed: seq<Branch>, lane: map<Node, nat>, occupied: set<Cell>,
             ghost bases: seq<nat>)
    requires Elements(refs) == g.Keys == col.Keys && forall k :: k in spine ==> k in refs
    ensures LaneStage(g, refs, idx, col, spine, adj, groups, placed, lane, bases)
    ensures occupied == Cards(lane, col, lane.Keys)
  {
    var rest := NonSpine(refs, spine);
    forall k | k in refs
      ensures k in g && k in col
    {
      assert k in Elements(refs);
    }
    adj := Adjacent(g, rest);
    AdjacencyIsSymmetric(g, Elements(rest), adj);
    groups := Split(rest, adj);
    GroupsKnown(rest, adj, groups, col);
    placed := BranchOrder(BranchesOf(groups, col), idx);
    GroupsPartition(rest, adj, groups, col, idx, Elements(spine));
    forall b, m | b in placed && m in b.members
      ensures m in col
    {
      assert m in Members(placed);
    }
    lane, occupied, bases := PackBranches(spine, placed, col, idx);
    assert Elements(spine) + Elements(rest) == Elements(refs);
  }

  lemma GroupsKnown(rest: seq<Node>, adj: Adjacency, groups: seq<seq<Node>>, col: map<Node, nat>)
    requires IsSplit(rest, adj, groups) && forall k :: k in rest ==> k in col
    ensures forall i :: 0 <= i < |groups| ==> groups[i] != [] && forall m :: m in groups[i] ==> m in col
  {
    forall i | 0 <= i < |groups|
      ensures groups[i] != [] && forall m :: m in groups[i] ==> m in col
    {
      assert IsComponent(adj, groups[i]);
      forall m | m in groups[i]
        ensures m in col
      {
        assert m in Covered(groups);
      }
    }
  }

  /** The long edges routed around the cards. */
  ghost predicate RouteStage(edges: seq<FlowEdge>, col: map<Node, nat>, lane: map<Node, nat>, claims: seq<nat>,
                             layout: Layout) {
    var longs, cards := LongEdges(edges, col), Cards(lane, col, lane.Keys);
    && layout.edges == edges
    && |claims| == |longs| && Routed(longs, col, lane, cards, claims)
    && (Distinct(longs) ==> WaysRecorded(longs, col, lane, cards, claims, layout.ways))
    && layout.lanes >= 1
    && (forall r :: r in lane ==> lane[r] < layout.lanes)
    && (forall i :: 0 <= i < |claims| ==> claims[i] < layout.lanes)
    && (layout.lanes == 1 || (exists r :: r in lane && lane[r] + 1 == layout.lanes)
        || exists i :: 0 <= i < |claims| && claims[i] + 1 == layout.lanes)
  }

  /** Each event's card sits in its column and lane. */
  ghost predicate PlaceStage(refs: seq<Node>, idx: map<Node, nat>, col: map<Node, nat>, lane: map<Node, nat>,
                             layout: Layout) {
    && layout.place.Keys == col.Keys == lane.Keys == idx.Keys == Elements(refs)
    && (forall k :: k in refs ==> layout.place[k] == Place(col[k], lane[k], idx[k]) && col[k] < layout.cols)
    && (exists k :: k in refs && col[k] + 1 == layout.cols)
  }

  /** Routes the long edges and writes the layout record. */
  method Assemble(refs: seq<Node>, idx: map<Node, nat>, edges: seq<FlowEdge>, col: map<Node, nat>, lane: map<Node, nat>,
                  occupied: set<Cell>)
    returns (layout: Layout, ghost claims: seq<nat>)
    requires refs != [] && col.Keys == lane.Keys == idx.Keys == Elements(refs)
    requires occupied == Cards(lane, col, lane.Keys)
    requires forall e :: e in LongEdges(edges, col) ==> e.from in lane && e.to in lane
    ensures RouteStage(edges, col, lane, claims, layout) && PlaceStage(refs, idx, col, lane, layout)
  {
    var ways, maxLane;
    ways, maxLane, claims := RouteEdges(LongEdges(edges, col), col, lane, occupied, MaxOver(refs, lane));
    var place := map k | k in refs :: Place(col[k], lane[k], idx[k]);
    layout := Layout(MaxOver(refs, col) + 1, maxLane + 1, place, edges, ways);
    assert refs[0] in Elements(refs);
  }

  /** The drawing of events with at least one edge, stage by stage. */
  method Draw(events: seq<EventDef>) returns (layout: Layout, ghost plan: Plan)
    requires DistinctRefs(events) && Acyclic(FlowGraph(events)) && events != []
    ensures SpineStage(FlowGraph(events), Refs(events), plan.succ, plan.col, plan.height, plan.spine)
    ensures LaneStage(FlowGraph(events), Refs(events), IndexByRef(events), plan.col, plan.spine, plan.adj, plan.groups,
                      plan.placed, plan.lane, plan.bases)
    ensures (forall k :: k in Refs(events) ==> k in FlowGraph(events))
            && RouteStage(EdgesOf(Refs(events), FlowGraph(events)), plan.col, plan.lane, plan.claims, layout)
    ensures PlaceStage(Refs(events), IndexByRef(events), plan.col, plan.lane, layout)
  {
    var g, refs, idx := FlowGraph(events), Refs(events), IndexByRef(events);
    RefsListed(events);
    var succ, col, height, spine := PlanSpine(g, refs);
    forall k | k in spine
      ensures k in refs
    {
      assert k in Elements(refs);
    }
    var adj, groups, placed, lane, occupied;
    ghost var bases, claims;
    adj, groups, placed, lane, occupied, bases := PlanLanes(g, refs, idx, col, spine);
    LongEndsPlaced(g, refs, col, lane);
    layout, claims := Assemble(refs, idx, EdgesOf(refs, g), col, lane, occupied);
    plan := Plan(succ, col, height, spine, adj, groups, placed, lane, bases, claims);
  }

  lemma RefsListed(events: seq<EventDef>)
    requires DistinctRefs(events)
    ensures Listing(Refs(events), FlowGraph(events))
    ensures forall k :: k in Refs(events) ==> k in FlowGraph(events)
  {
    forall k | k in Refs(events)
      ensures k in FlowGraph(events)
    {
      assert k in Elements(Refs(events));
    }
  }

  lemma LongEndsPlaced(g: Preds, refs: seq<Node>, col: map<Node, nat>, lane: map<Node, nat>)
    requires (forall k :: k in refs ==> k in g) && Closed(g) && Elements(refs) == g.Keys == lane.Keys
    ensures forall e :: e in LongEdges(EdgesOf(refs, g), col) ==> e.from in lane && e.to in lane
  {
    var longs := LongEdges(EdgesOf(refs, g), col);
    SameElements(longs, LongOnes(EdgesOf(refs, g), col));
    forall e | e in longs
      ensures e.from in lane && e.to in lane
    {
      assert e in LongOnes(EdgesOf(refs, g), col);
      assert e.to in Elements(refs) && e.from in Elements(refs);
    }
  }

  // --- what the drawing guarantees ------------------------------------------------------------

  /** Every event is placed once, at its own index, no two share a cell, and every
      cell is inside the drawing. */
  ghost predicate CellsOnce(refs: seq<Node>, layout: Layout) {
    && layout.place.Keys == Elements(refs)
    && (forall a, b :: a in layout.place && b in layout.place && a != b ==>
          (layout.place[a].col, layout.place[a].lane) != (layout.place[b].col, layout.place[b].lane))
    && (forall i :: 0 <= i < |refs| ==> refs[i] in layout.place && layout.place[refs[i]].idx == i)
    && (forall a :: a in layout.place ==> layout.place[a].col < layout.cols && layout.place[a].lane < layout.lanes)
  }

  lemma SingleLaneCells(events: seq<EventDef>)
    requires DistinctRefs(events)
    ensures CellsOnce(Refs(events), SingleLane(events))
  {
    var at := IndexByRef(events);
    forall a, b | a in at && b in at && a != b
      ensures at[a] != at[b]
    {
      assert events[at[a]].ref == a && events[at[b]].ref == b;
    }
  }

  lemma SpineColumnsDiffer(col: map<Node, nat>, p: seq<Node>)
    requires Climbs(col, p)
    ensures forall r, s :: r in p && s in p && r != s ==> r in col && s in col && col[r] != col[s]
  {
    forall r, s | r in p && s in p && r != s
      ensures col[r] != col[s]
    {
      var i, j := IndexOf(p, r), IndexOf(p, s);
      if i < j {
        ColumnsRise(col, p, i, j);
      } else {
        ColumnsRise(col, p, j, i);
      }
    }
  }

  lemma LaneCellsDistinct(col: map<Node, nat>, idx: map<Node, nat>, p: seq<Node>, placed: seq<Branch>,
                          lane: map<Node, nat>, bases: seq<nat>)
    requires Climbs(col, p) && Packed(col, idx, Elements(p), placed, lane, bases)
    ensures CellsDistinct(lane, col, lane.Keys)
  {
    SpineColumnsDiffer(col, p);
    SpineDistinct(col, Elements(p), lane);
    PackedDistinct(col, idx, Elements(p), placed, lane, bases, |placed|);
    assert placed[..|placed|] == placed;
  }

  lemma PlacedCells(refs: seq<Node>, idx: map<Node, nat>, col: map<Node, nat>, lane: map<Node, nat>, layout: Layout)
    requires PlaceStage(refs, idx, col, lane, layout) && CellsDistinct(lane, col, lane.Keys)
    requires forall i :: 0 <= i < |refs| ==> refs[i] in idx && idx[refs[i]] == i
    requires forall r :: r in lane ==> lane[r] < layout.lanes
    ensures CellsOnce(refs, layout)
  {
    var place := layout.place;
    forall a, b | a in place && b in place && a != b
      ensures (place[a].col, place[a].lane) != (place[b].col, place[b].lane)
    {
      assert Cell(lane[a], col[a]) != Cell(lane[b], col[b]);
    }
  }

  /** With edges: every event is placed exactly once and no two share a cell. */
  lemma EveryEventHasItsCell(refs: seq<Node>, idx: map<Node, nat>, col: map<Node, nat>, p: seq<Node>,
                             placed: seq<Branch>, lane: map<Node, nat>, bases: seq<nat>, layout: Layout)
    requires Climbs(col, p) && Packed(col, idx, Elements(p), placed, lane, bases)
    requires PlaceStage(refs, idx, col, lane, layout)
    requires forall i :: 0 <= i < |refs| ==> refs[i] in idx && idx[refs[i]] == i
    requires forall r :: r in lane ==> lane[r] < layout.lanes
    ensures CellsOnce(refs, layout)
  {
    LaneCellsDistinct(col, idx, p, placed, lane, bases);
    PlacedCells(refs, idx, col, lane, layout);
  }

  /** `p` is a directed path from a source to a sink along which columns rise, and
      its events are exactly the ones on lane 0. */
  ghost predicate IsTopRow(g: Preds, p: seq<Node>, place: map<Node, Place>) {
    && IsPath(g, p) && g[p[0]] == []
    && (forall b :: b in g ==> !Edge(g, p[|p| - 1], b))
    && (forall k :: k in p ==> k in place)
    && (forall k :: k in place ==> (place[k].lane == 0 <==> k in p))
    && (forall i, j :: 0 <= i < j < |p| ==> place[p[i]].col < place[p[j]].col)
  }

  /** Lane 0 holds exactly the spine. */
  lemma TopRow(g: Preds, refs: seq<Node>, succ: Preds, col: map<Node, nat>, height: map<Node, nat>, p: seq<Node>,
               idx: map<Node, nat>, placed: seq<Branch>, lane: map<Node, nat>, bases: seq<nat>, layout: Layout)
    requires Elements(refs) == g.Keys && Drawable(g, succ, col, height) && IsSpine(g, succ, refs, col, height, p)
    requires Packed(col, idx, Elements(p), placed, lane, bases) && PlaceStage(refs, idx, col, lane, layout)
    ensures IsTopRow(g, p, layout.place)
  {
    var place := layout.place;
    forall k | k in p
      ensures k in place
    {
      assert k in g;
    }
    forall k | k in place
      ensures place[k].lane == 0 <==> k in p
    {
      LaneZeroIsSpine(col, idx, Elements(p), placed, lane, bases, k);
    }
    PathClimbs(g, succ, col, height, p);
    forall i, j | 0 <= i < j < |p|
      ensures place[p[i]].col < place[p[j]].col
    {
      ColumnsRise(col, p, i, j);
      assert p[i] in p && p[j] in p;
    }
  }

  /** A card's column is the length of the longest path that leads to it, so
      columns strictly rise along every edge. */
  ghost predicate ColumnsAreDepths(g: Preds, place: map<Node, Place>) {
    && place.Keys == g.Keys
    && (forall k :: k in place ==> IsDepth(g, k, place[k].col))
    && (forall a, b :: Edge(g, a, b) ==> place[a].col < place[b].col)
  }

  lemma DepthColumns(g: Preds, refs: seq<Node>, idx: map<Node, nat>, lane: map<Node, nat>, layout: Layout)
    requires Acyclic(g) && Elements(refs) == g.Keys && PlaceStage(refs, idx, Depths(g), lane, layout)
    ensures ColumnsAreDepths(g, layout.place)
  {
    forall k | k in g
      ensures layout.place[k].col == Depth(g, k) && IsDepth(g, k, Depth(g, k))
    {
      assert k in Elements(refs);
      DepthMeaning(g, k);
    }
    forall a, b | Edge(g, a, b)
      ensures layout.place[a].col < layout.place[b].col
    {
      DepthRises(g, a, b);
    }
  }

  ghost predicate OneColumnEach(group: seq<Node>, col: map<Node, nat>) {
    forall a, b :: a in group && b in group && a != b ==> a in col && b in col && col[a] != col[b]
  }

  lemma GroupDistinct(adj: Adjacency, groups: seq<seq<Node>>, i: nat)
    requires Groups(adj, groups) && i < |groups|
    ensures Distinct(groups[i])
  {
    assert IsComponent(adj, groups[i]);
  }

  /** The members of a branch without two events in one column share a lane. */
  lemma GroupSharesLane(adj: Adjacency, groups: seq<seq<Node>>, idx: map<Node, nat>, col: map<Node, nat>,
                        spine: set<Node>, placed: seq<Branch>, lane: map<Node, nat>, bases: seq<nat>, i: nat, x: Node,
                        y: Node)
    requires Groups(adj, groups)
             && (forall j :: 0 <= j < |groups| ==> groups[j] != [] && forall m :: m in groups[j] ==> m in col)
    requires placed == BranchOrder(BranchesOf(groups, col), idx) && Packed(col, idx, spine, placed, lane, bases)
    requires i < |groups| && x in groups[i] && y in groups[i] && OneColumnEach(groups[i], col)
    ensures x in lane && y in lane && lane[x] == lane[y]
  {
    var j := PlacedAt(groups, col, idx, placed, i);
    GroupDistinct(adj, groups, i);
    var done := spine + Members(placed[..j]);
    ChainStaysOnOneLane(col, idx, done, groups[i], lane, bases[j], x);
    ChainStaysOnOneLane(col, idx, done, groups[i], lane, bases[j], y);
  }

  ghost predicate OneCardPerColumn(group: seq<Node>, place: map<Node, Place>) {
    forall a, b :: a in group && b in group && a != b ==> a in place && b in place && place[a].col != place[b].col
  }

  ghost predicate IsRow(group: seq<Node>, place: map<Node, Place>) {
    forall a, b :: a in group && b in group ==> a in place && b in place && place[a].lane == place[b].lane
  }

  /** A branch without two cards in one column is one row of the drawing. */
  lemma GroupIsRow(g: Preds, refs: seq<Node>, plan: Plan, idx: map<Node, nat>, layout: Layout, i: nat)
    requires LaneStage(g, refs, idx, plan.col, plan.spine, plan.adj, plan.groups, plan.placed, plan.lane, plan.bases)
    requires PlaceStage(refs, idx, plan.col, plan.lane, layout)
    requires i < |plan.groups| && OneCardPerColumn(plan.groups[i], layout.place)
    ensures IsRow(plan.groups[i], layout.place)
  {
    var group := plan.groups[i];
    forall a | a in layout.place
      ensures layout.place[a].col == plan.col[a] && layout.place[a].lane == plan.lane[a]
    {
      assert a in Elements(refs);
    }
    forall a, b | a in group && b in group
      ensures a in layout.place && b in layout.place && layout.place[a].lane == layout.place[b].lane
    {
      GroupSharesLane(plan.adj, plan.groups, idx, plan.col, Elements(plan.spine), plan.placed, plan.lane, plan.bases, i,
                      a, b);
    }
  }

  lemma GroupsAreRows(g: Preds, refs: seq<Node>, plan: Plan, idx: map<Node, nat>, layout: Layout)
    requires LaneStage(g, refs, idx, plan.col, plan.spine, plan.adj, plan.groups, plan.placed, plan.lane, plan.bases)
    requires PlaceStage(refs, idx, plan.col, plan.lane, layout)
    ensures ChainsAreRows(plan.groups, layout)
  {
    forall i | 0 <= i < |plan.groups| && OneCardPerColumn(plan.groups[i], layout.place)
      ensures IsRow(plan.groups[i], layout.place)
    {
      GroupIsRow(g, refs, plan, idx, layout, i);
    }
  }

  ghost predicate ChainsAreRows(groups: seq<seq<Node>>, layout: Layout) {
    forall i :: 0 <= i < |groups| && OneCardPerColumn(groups[i], layout.place) ==> IsRow(groups[i], layout.place)
  }

  lemma PlacedAt(groups: seq<seq<Node>>, col: map<Node, nat>, idx: map<Node, nat>, placed: seq<Branch>, i: nat)
    returns (j: nat)
    requires forall j :: 0 <= j < |groups| ==> groups[j] != [] && forall m :: m in groups[j] ==> m in col
    requires placed == BranchOrder(BranchesOf(groups, col), idx) && i < |groups|
    ensures j < |placed| && placed[j].members == groups[i]
  {
    var records := BranchesOf(groups, col);
    SameElements(placed, records);
    assert records[i] in placed;
    j := IndexOf(placed, records[i]);
  }

  /** No claimed cell holds a card or belongs to another edge, and every claimed
      lane is a row of the drawing. */
  ghost predicate RoutesClear(longs: seq<FlowEdge>, col: map<Node, nat>, claims: seq<nat>, layout: Layout) {
    && |claims| == |longs|
    && (forall i :: 0 <= i < |longs| ==> claims[i] < layout.lanes)
    && (forall i, k :: 0 <= i < |longs| && k in layout.place ==>
          Cell(layout.place[k].lane, layout.place[k].col) !in Claim(longs[i], col, claims[i]))
    && (forall i, j :: 0 <= i < j < |longs| ==> Claim(longs[i], col, claims[i]) !! Claim(longs[j], col, claims[j]))
  }

  lemma ClearRoutes(refs: seq<Node>, idx: map<Node, nat>, edges: seq<FlowEdge>, col: map<Node, nat>,
                    lane: map<Node, nat>, claims: seq<nat>, layout: Layout)
    requires RouteStage(edges, col, lane, claims, layout) && PlaceStage(refs, idx, col, lane, layout)
    ensures RoutesClear(LongEdges(edges, col), col, claims, layout)
  {
    var longs, cards := LongEdges(edges, col), Cards(lane, col, lane.Keys);
    RoutesAreClear(longs, col, lane, cards, claims);
    forall i, k | 0 <= i < |longs| && k in layout.place
      ensures Cell(layout.place[k].lane, layout.place[k].col) !in Claim(longs[i], col, claims[i])
    {
      assert Cell(lane[k], col[k]) in cards;
    }
  }

  /** Where the `i`-th long edge runs, as the drawing records it. */
  ghost predicate WayTold(longs: seq<FlowEdge>, col: map<Node, nat>, claims: seq<nat>, layout: Layout, i: nat)
    requires i < |longs| == |claims|
  {
    var e := longs[i];
    && e.from in layout.place && e.to in layout.place
    && if e in layout.ways then layout.ways[e] == Way(claims[i], Between(e, col)) && claims[i] >= 1
       else layout.place[e.from].lane == layout.place[e.to].lane == claims[i]
  }

  lemma TellWay(refs: seq<Node>, idx: map<Node, nat>, edges: seq<FlowEdge>, col: map<Node, nat>, lane: map<Node, nat>,
                claims: seq<nat>, layout: Layout, i: nat)
    requires RouteStage(edges, col, lane, claims, layout) && PlaceStage(refs, idx, col, lane, layout) && Distinct(edges)
    requires i < |LongEdges(edges, col)|
    requires forall e :: e in LongEdges(edges, col) ==> e.from in lane && e.to in lane
    ensures WayTold(LongEdges(edges, col), col, claims, layout, i)
  {
    var longs := LongEdges(edges, col);
    PermutationDistinct(LongOnes(edges, col), longs);
    assert longs[i] in longs;
    assert RoutedAt(longs, col, lane, Cards(lane, col, lane.Keys), claims, i);
  }

  // --- what the drawing says of its routes, by itself ------------------------------------

  /** The ends lie more than one column apart. */
  ghost predicate Spans(e: FlowEdge, place: map<Node, Place>) {
    e.from in place && e.to in place && place[e.from].col + 1 < place[e.to].col
  }

  ghost predicate Crosses(e: FlowEdge, place: map<Node, Place>, c: nat) {
    e.from in place && e.to in place && place[e.from].col < c < place[e.to].col
  }

  /** The row an edge keeps to between its ends: the one recorded for it, else
      that of the card it leaves. */
  ghost function RowOf(e: FlowEdge, layout: Layout): nat
    requires e.from in layout.place
  {
    if e in layout.ways then layout.ways[e].lane else layout.place[e.from].lane
  }

  /** The waypoints of an edge are a row below the top one and the columns strictly
      between its ends, left to right; an edge without any joins two cards of one row. */
  ghost predicate WayDrawn(e: FlowEdge, layout: Layout)
    requires Spans(e, layout.place)
  {
    var lo, hi := layout.place[e.from].col, layout.place[e.to].col;
    if e !in layout.ways then layout.place[e.from].lane == layout.place[e.to].lane
    else
      && 1 <= layout.ways[e].lane < layout.lanes
      && |layout.ways[e].cols| == hi - lo - 1
      && forall i :: 0 <= i < hi - lo - 1 ==> layout.ways[e].cols[i] == lo + 1 + i
  }

  ghost predicate HoldsCard(layout: Layout, row: nat, c: nat) {
    exists k :: k in layout.place && layout.place[k].lane == row && layout.place[k].col == c
  }

  /** `f` runs through that cell and is at least as wide as `e`. */
  ghost predicate HeldBy(layout: Layout, f: FlowEdge, e: FlowEdge, row: nat, c: nat)
    requires Spans(e, layout.place)
  {
    && f in layout.edges && f != e && Spans(f, layout.place) && Crosses(f, layout.place, c)
    && RowOf(f, layout) == row
    && layout.place[e.to].col as int - layout.place[e.from].col
       <= layout.place[f.to].col as int - layout.place[f.from].col
  }

  /** Something stands in the way of `e` on that row. */
  ghost predicate RowIsBlocked(layout: Layout, e: FlowEdge, row: nat)
    requires Spans(e, layout.place)
  {
    exists c :: Crosses(e, layout.place, c)
                && (HoldsCard(layout, row, c) || exists f :: HeldBy(layout, f, e, row, c))
  }

  /** Every edge over more than one column is drawn along cells that hold no card
      and that no other such edge uses; it leaves its own row only when that row
      is blocked, and then takes the highest one below the top that is not. */
  ghost predicate EdgesAvoidCards(layout: Layout) {
    && (forall e :: e in layout.ways ==> e in layout.edges && Spans(e, layout.place))
    && (forall e :: e in layout.edges && Spans(e, layout.place) ==> WayDrawn(e, layout))
    && (forall e, c :: e in layout.edges && Spans(e, layout.place) && Crosses(e, layout.place, c) ==>
          !HoldsCard(layout, RowOf(e, layout), c))
    && (forall e, f, c :: e in layout.edges && f in layout.edges && e != f && Spans(e, layout.place)
                          && Spans(f, layout.place) && Crosses(e, layout.place, c) && Crosses(f, layout.place, c) ==>
          RowOf(e, layout) != RowOf(f, layout))
    && (forall e, row: nat :: e in layout.ways && Spans(e, layout.place) && 1 <= row < layout.ways[e].lane ==>
          RowIsBlocked(layout, e, row))
    && (forall e :: e in layout.ways && Spans(e, layout.place)
                    && layout.place[e.from].lane == layout.place[e.to].lane ==>
          RowIsBlocked(layout, e, layout.place[e.from].lane))
  }

  /** The bookkeeping behind a drawing with distinct edges. */
  ghost predicate RoutesDrawn(refs: seq<Node>, idx: map<Node, nat>, edges: seq<FlowEdge>, col: map<Node, nat>,
                         lane: map<Node, nat>, claims: seq<nat>, layout: Layout) {
    && RouteStage(edges, col, lane, claims, layout) && PlaceStage(refs, idx, col, lane, layout) && Distinct(edges)
    && forall e :: e in edges ==> e.from in lane && e.to in lane
  }

  lemma SpanningIsLong(refs: seq<Node>, idx: map<Node, nat>, edges: seq<FlowEdge>, col: map<Node, nat>,
                       lane: map<Node, nat>, claims: seq<nat>, layout: Layout, e: FlowEdge)
    returns (i: nat)
    requires RoutesDrawn(refs, idx, edges, col, lane, claims, layout) && e in edges && Spans(e, layout.place)
    ensures i < |LongEdges(edges, col)| && LongEdges(edges, col)[i] == e
    ensures WayTold(LongEdges(edges, col), col, claims, layout, i)
    ensures RowOf(e, layout) == claims[i]
    ensures forall c :: c in Between(e, col) <==> Crosses(e, layout.place, c)
  {
    LongEdgesWidestFirst(edges, col);
    i := IndexOf(LongEdges(edges, col), e);
    TellWay(refs, idx, edges, col, lane, claims, layout, i);
  }

  lemma LongIsSpanning(refs: seq<Node>, idx: map<Node, nat>, edges: seq<FlowEdge>, col: map<Node, nat>,
                       lane: map<Node, nat>, claims: seq<nat>, layout: Layout, i: nat)
    requires RoutesDrawn(refs, idx, edges, col, lane, claims, layout) && i < |LongEdges(edges, col)|
    ensures LongEdges(edges, col)[i] in edges && Spans(LongEdges(edges, col)[i], layout.place)
  {
    LongEdgesWidestFirst(edges, col);
    assert LongEdges(edges, col)[i] in LongEdges(edges, col);
  }

  /** What was taken when the `i`-th edge looked for a row is a card or an edge at
      least as wide. */
  lemma TakenIsHeld(refs: seq<Node>, idx: map<Node, nat>, edges: seq<FlowEdge>, col: map<Node, nat>,
                    lane: map<Node, nat>, claims: seq<nat>, layout: Layout, i: nat, row: nat)
    requires RoutesDrawn(refs, idx, edges, col, lane, claims, layout) && i < |LongEdges(edges, col)|
    requires var longs := LongEdges(edges, col);
             !AllFree(Cards(lane, col, lane.Keys) + Claimed(longs, col, claims[..i]), Between(longs[i], col), row)
    ensures Spans(LongEdges(edges, col)[i], layout.place) && RowIsBlocked(layout, LongEdges(edges, col)[i], row)
  {
    var longs := LongEdges(edges, col);
    var e := longs[i];
    LongIsSpanning(refs, idx, edges, col, lane, claims, layout, i);
    var n := SpanningIsLong(refs, idx, edges, col, lane, claims, layout, e);
    var c :| c in Between(e, col) && Cell(row, c) in Cards(lane, col, lane.Keys) + Claimed(longs, col, claims[..i]);
    if Cell(row, c) in Cards(lane, col, lane.Keys) {
      assert HoldsCard(layout, row, c);
    } else {
      var j :| 0 <= j < i && c in Between(longs[j], col) && claims[j] == row;
      LongIsSpanning(refs, idx, edges, col, lane, claims, layout, j);
      var m := SpanningIsLong(refs, idx, edges, col, lane, claims, layout, longs[j]);
      LongEdgesWidestFirst(edges, col);
      assert m == j;
      assert HeldBy(layout, longs[j], e, row, c);
    }
  }

  /** An edge leaves its row, and skips a row, only for something in the way. */
  lemma DetoursAreNeeded(refs: seq<Node>, idx: map<Node, nat>, edges: seq<FlowEdge>, col: map<Node, nat>,
                         lane: map<Node, nat>, claims: seq<nat>, layout: Layout, e: FlowEdge)
    requires RoutesDrawn(refs, idx, edges, col, lane, claims, layout) && e in layout.ways && e in edges
    requires Spans(e, layout.place)
    ensures forall row: nat :: 1 <= row < layout.ways[e].lane ==> RowIsBlocked(layout, e, row)
    ensures layout.place[e.from].lane == layout.place[e.to].lane ==>
              RowIsBlocked(layout, e, layout.place[e.from].lane)
  {
    var i := SpanningIsLong(refs, idx, edges, col, lane, claims, layout, e);
    var longs, cards := LongEdges(edges, col), Cards(lane, col, lane.Keys);
    LongEdgesWidestFirst(edges, col);
    assert RoutedAt(longs, col, lane, cards, claims, i) && Bows(longs, col, lane, cards, claims, i);
    forall row: nat | 1 <= row < layout.ways[e].lane
      ensures RowIsBlocked(layout, e, row)
    {
      TakenIsHeld(refs, idx, edges, col, lane, claims, layout, i, row);
    }
    if layout.place[e.from].lane == layout.place[e.to].lane {
      TakenIsHeld(refs, idx, edges, col, lane, claims, layout, i, layout.place[e.from].lane);
    }
  }

  lemma SpanningWayDrawn(refs: seq<Node>, idx: map<Node, nat>, edges: seq<FlowEdge>, col: map<Node, nat>,
                         lane: map<Node, nat>, claims: seq<nat>, layout: Layout, e: FlowEdge)
    requires RoutesDrawn(refs, idx, edges, col, lane, claims, layout) && e in edges && Spans(e, layout.place)
    ensures WayDrawn(e, layout)
  {
    var i := SpanningIsLong(refs, idx, edges, col, lane, claims, layout, e);
    RangeInOrder(col[e.from] + 1, col[e.to]);
  }

  lemma SpanningWayClear(refs: seq<Node>, idx: map<Node, nat>, edges: seq<FlowEdge>, col: map<Node, nat>,
                         lane: map<Node, nat>, claims: seq<nat>, layout: Layout, e: FlowEdge)
    requires RoutesDrawn(refs, idx, edges, col, lane, claims, layout) && e in edges && Spans(e, layout.place)
    ensures forall c :: Crosses(e, layout.place, c) ==> !HoldsCard(layout, RowOf(e, layout), c)
  {
    var i := SpanningIsLong(refs, idx, edges, col, lane, claims, layout, e);
    ClearRoutes(refs, idx, edges, col, lane, claims, layout);
    forall c | Crosses(e, layout.place, c)
      ensures !HoldsCard(layout, RowOf(e, layout), c)
    {
      assert Cell(claims[i], c) in Claim(e, col, claims[i]);
    }
  }

  lemma SpanningEdgesApart(refs: seq<Node>, idx: map<Node, nat>, edges: seq<FlowEdge>, col: map<Node, nat>,
                           lane: map<Node, nat>, claims: seq<nat>, layout: Layout, e: FlowEdge, f: FlowEdge, c: nat)
    requires RoutesDrawn(refs, idx, edges, col, lane, claims, layout) && e in edges && f in edges && e != f
    requires Spans(e, layout.place) && Spans(f, layout.place)
    requires Crosses(e, layout.place, c) && Crosses(f, layout.place, c)
    ensures RowOf(e, layout) != RowOf(f, layout)
  {
    var i := SpanningIsLong(refs, idx, edges, col, lane, claims, layout, e);
    var j := SpanningIsLong(refs, idx, edges, col, lane, claims, layout, f);
    ClearRoutes(refs, idx, edges, col, lane, claims, layout);
    ClaimsApart(LongEdges(edges, col), col, claims, layout, i, j, c);
  }

  lemma ClaimsApart(longs: seq<FlowEdge>, col: map<Node, nat>, claims: seq<nat>, layout: Layout, i: nat, j: nat, c: nat)
    requires RoutesClear(longs, col, claims, layout) && i < |longs| && j < |longs| && i != j
    requires c in Between(longs[i], col) && c in Between(longs[j], col)
    ensures claims[i] != claims[j]
  {
    assert Cell(claims[i], c) in Claim(longs[i], col, claims[i]);
    assert Cell(claims[j], c) in Claim(longs[j], col, claims[j]);
  }

  lemma WaysAreSpanning(refs: seq<Node>, idx: map<Node, nat>, edges: seq<FlowEdge>, col: map<Node, nat>,
                        lane: map<Node, nat>, claims: seq<nat>, layout: Layout, e: FlowEdge)
    requires RoutesDrawn(refs, idx, edges, col, lane, claims, layout) && e in layout.ways
    ensures e in edges && Spans(e, layout.place)
  {
    var longs := LongEdges(edges, col);
    LongEdgesWidestFirst(edges, col);
    assert longs[..|claims|] == longs;
    LongIsSpanning(refs, idx, edges, col, lane, claims, layout, IndexOf(longs, e));
  }

  lemma RoutedEdgesAvoidCards(refs: seq<Node>, idx: map<Node, nat>, edges: seq<FlowEdge>, col: map<Node, nat>,
                              lane: map<Node, nat>, claims: seq<nat>, layout: Layout)
    requires RoutesDrawn(refs, idx, edges, col, lane, claims, layout)
    ensures EdgesAvoidCards(layout)
  {
    forall e | e in layout.ways
      ensures e in layout.edges && Spans(e, layout.place)
    {
      WaysAreSpanning(refs, idx, edges, col, lane, claims, layout, e);
    }
    forall e | e in edges && Spans(e, layout.place)
      ensures WayDrawn(e, layout)
      ensures forall c :: Crosses(e, layout.place, c) ==> !HoldsCard(layout, RowOf(e, layout), c)
      ensures e in layout.ways ==>
                && (forall row: nat :: 1 <= row < layout.ways[e].lane ==> RowIsBlocked(layout, e, row))
                && (layout.place[e.from].lane == layout.place[e.to].lane ==>
                      RowIsBlocked(layout, e, layout.place[e.from].lane))
    {
      SpanningWayDrawn(refs, idx, edges, col, lane, claims, layout, e);
      SpanningWayClear(refs, idx, edges, col, lane, claims, layout, e);
      if e in layout.ways {
        DetoursAreNeeded(refs, idx, edges, col, lane, claims, layout, e);
      }
    }
    forall e, f, c | e in edges && f in edges && e != f && Spans(e, layout.place) && Spans(f, layout.place)
                     && Crosses(e, layout.place, c) && Crosses(f, layout.place, c)
      ensures RowOf(e, layout) != RowOf(f, layout)
    {
      SpanningEdgesApart(refs, idx, edges, col, lane, claims, layout, e, f, c);
    }
  }

  /** What the drawing of a graph with edges guarantees of its cards. */
  ghost predicate SoundCards(events: seq<EventDef>, layout: Layout, spine: seq<Node>, groups: seq<seq<Node>>)
    requires DistinctRefs(events)
  {
    && CellsOnce(Refs(events), layout)
    && ColumnsAreDepths(FlowGraph(events), layout.place)
    && IsTopRow(FlowGraph(events), spine, layout.place)
    && ChainsAreRows(groups, layout)
  }

  /** What it guarantees of its edges. */
  ghost predicate SoundRoutes(events: seq<EventDef>, layout: Layout, col: map<Node, nat>, claims: seq<nat>)
    requires DistinctRefs(events)
  {
    var longs := LongEdges(layout.edges, col);
    && (forall e :: e in layout.edges <==> Edge(FlowGraph(events), e.from, e.to))
    && RoutesClear(longs, col, claims, layout)
    && (Distinct(layout.edges) ==> forall i :: 0 <= i < |longs| ==> WayTold(longs, col, claims, layout, i))
    && (Distinct(layout.edges) ==> EdgesAvoidCards(layout))
  }

  lemma SpineClimbs(g: Preds, refs: seq<Node>, succ: Preds, col: map<Node, nat>, height: map<Node, nat>, p: seq<Node>)
    requires Acyclic(g) && Elements(refs) == g.Keys && SpineStage(g, refs, succ, col, height, p)
    ensures Climbs(col, p)
  {
    PathClimbs(g, succ, col, height, p);
  }

  lemma EdgesListed(refs: seq<Node>, g: Preds)
    requires (forall k :: k in refs ==> k in g) && Elements(refs) == g.Keys && Closed(g)
    ensures forall e :: e in EdgesOf(refs, g) <==> Edge(g, e.from, e.to)
  {
    forall e
      ensures e in EdgesOf(refs, g) <==> Edge(g, e.from, e.to)
    {
      assert e.to in refs <==> e.to in Elements(refs);
    }
  }

  lemma WaysTold(events: seq<EventDef>, edges: seq<FlowEdge>, layout: Layout, plan: Plan)
    requires DistinctRefs(events) && (forall k :: k in Refs(events) ==> k in FlowGraph(events))
    requires edges == EdgesOf(Refs(events), FlowGraph(events)) && plan.lane.Keys == Elements(Refs(events))
    requires RouteStage(edges, plan.col, plan.lane, plan.claims, layout)
    requires PlaceStage(Refs(events), IndexByRef(events), plan.col, plan.lane, layout) && Distinct(edges)
    ensures forall i :: 0 <= i < |LongEdges(edges, plan.col)| ==>
            WayTold(LongEdges(edges, plan.col), plan.col, plan.claims, layout, i)
  {
    LongEndsPlaced(FlowGraph(events), Refs(events), plan.col, plan.lane);
    forall i | 0 <= i < |LongEdges(edges, plan.col)|
      ensures WayTold(LongEdges(edges, plan.col), plan.col, plan.claims, layout, i)
    {
      TellWay(Refs(events), IndexByRef(events), edges, plan.col, plan.lane, plan.claims, layout, i);
    }
  }

  lemma EventCells(events: seq<EventDef>, layout: Layout, plan: Plan)
    requires DistinctRefs(events) && Climbs(plan.col, plan.spine)
    requires Packed(plan.col, IndexByRef(events), Elements(plan.spine), plan.placed, plan.lane, plan.bases)
    requires PlaceStage(Refs(events), IndexByRef(events), plan.col, plan.lane, layout)
    requires RouteStage(layout.edges, plan.col, plan.lane, plan.claims, layout)
    ensures CellsOnce(Refs(events), layout)
  {
    var refs, idx := Refs(events), IndexByRef(events);
    IndexIs(events, refs, idx);
    LanesBounded(layout.edges, plan.col, plan.lane, plan.claims, layout);
    EveryEventHasItsCell(refs, idx, plan.col, plan.spine, plan.placed, plan.lane, plan.bases, layout);
  }

  lemma IndexIs(events: seq<EventDef>, refs: seq<Node>, idx: map<Node, nat>)
    requires DistinctRefs(events) && refs == Refs(events) && idx == IndexByRef(events)
    ensures forall i :: 0 <= i < |refs| ==> refs[i] in idx && idx[refs[i]] == i
  {
  }

  lemma LanesBounded(edges: seq<FlowEdge>, col: map<Node, nat>, lane: map<Node, nat>, claims: seq<nat>, layout: Layout)
    requires RouteStage(edges, col, lane, claims, layout)
    ensures forall r :: r in lane ==> lane[r] < layout.lanes
  {
  }

  lemma CardsAreSound(events: seq<EventDef>, layout: Layout, plan: Plan)
    requires DistinctRefs(events) && Acyclic(FlowGraph(events))
    requires SpineStage(FlowGraph(events), Refs(events), plan.succ, plan.col, plan.height, plan.spine)
    requires LaneStage(FlowGraph(events), Refs(events), IndexByRef(events), plan.col, plan.spine, plan.adj, plan.groups,
                       plan.placed, plan.lane, plan.bases)
    requires RouteStage(layout.edges, plan.col, plan.lane, plan.claims, layout)
    requires PlaceStage(Refs(events), IndexByRef(events), plan.col, plan.lane, layout)
    ensures SoundCards(events, layout, plan.spine, plan.groups)
  {
    var g, refs, idx := FlowGraph(events), Refs(events), IndexByRef(events);
    SpineClimbs(g, refs, plan.succ, plan.col, plan.height, plan.spine);
    EventCells(events, layout, plan);
    DepthColumns(g, refs, idx, plan.lane, layout);
    TopRow(g, refs, plan.succ, plan.col, plan.height, plan.spine, idx, plan.placed, plan.lane, plan.bases, layout);
    GroupsAreRows(g, refs, plan, idx, layout);
  }

  lemma RoutesAreSound(events: seq<EventDef>, layout: Layout, plan: Plan)
    requires DistinctRefs(events) && (forall k :: k in Refs(events) ==> k in FlowGraph(events))
    requires layout.edges == EdgesOf(Refs(events), FlowGraph(events))
    requires RouteStage(layout.edges, plan.col, plan.lane, plan.claims, layout)
    requires PlaceStage(Refs(events), IndexByRef(events), plan.col, plan.lane, layout)
    ensures SoundRoutes(events, layout, plan.col, plan.claims)
  {
    EdgesListed(Refs(events), FlowGraph(events));
    ClearRoutes(Refs(events), IndexByRef(events), layout.edges, plan.col, plan.lane, plan.claims, layout);
    if Distinct(layout.edges) {
      WaysTold(events, layout.edges, layout, plan);
      RoutedEdgesAvoidCards(Refs(events), IndexByRef(events), layout.edges, plan.col, plan.lane, plan.claims, layout);
    }
  }

  /** The layout of any acyclic event list: with edges, a sound drawing built in
      the stages above; without, one lane in declared order. */
  method ComputeFlowLayout(events: seq<EventDef>) returns (layout: Layout, ghost plan: Plan)
    requires DistinctRefs(events) && Acyclic(FlowGraph(events))
    ensures HasEdges(events) ==> SoundCards(events, layout, plan.spine, plan.groups)
    ensures HasEdges(events) ==> SoundRoutes(events, layout, plan.col, plan.claims)
    ensures HasEdges(events) ==>
              SpineStage(FlowGraph(events), Refs(events), plan.succ, plan.col, plan.height, plan.spine)
    ensures HasEdges(events) ==>
              LaneStage(FlowGraph(events), Refs(events), IndexByRef(events), plan.col, plan.spine, plan.adj,
                        plan.groups, plan.placed, plan.lane, plan.bases)
    ensures HasEdges(events) ==> RouteStage(layout.edges, plan.col, plan.lane, plan.claims, layout)
    ensures HasEdges(events) ==> PlaceStage(Refs(events), IndexByRef(events), plan.col, plan.lane, layout)
    ensures !HasEdges(events) ==> layout == SingleLane(events) && CellsOnce(Refs(events), layout)
  {
    if !HasEdges(events) {
      layout := SingleLane(events);
      SingleLaneCells(events);
      plan := Plan(map[], map[], map[], [], map[], [], [], map[], [], []);
    } else {
      layout, plan := Draw(events);
      CardsAreSound(events, layout, plan);
      RoutesAreSound(events, layout, plan);
    }
  }
}
