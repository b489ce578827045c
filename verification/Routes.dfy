/** Long edges: each edge that spans more than one column claims a free cell in
    every column it crosses. */
module Routes {
  import opened Common
  import opened Graph
  import opened Lanes

  datatype FlowEdge = FlowEdge(from: Node, to: Node)

  datatype Way = Way(lane: nat, cols: seq<nat>)

  predicate IsLong(e: FlowEdge, col: Score) {
    e.from in col && e.to in col && col[e.to] as int - col[e.from] > 1
  }

  function Width(e: FlowEdge, col: Score): int {
    if e.from in col && e.to in col then col[e.to] as int - col[e.from] else 0
  }

  function LongOnes(edges: seq<FlowEdge>, col: Score): (r: seq<FlowEdge>)
    ensures forall e :: e in r <==> e in edges && IsLong(e, col)
    ensures Distinct(edges) ==> Distinct(r)
  {
    if edges == [] then []
    else
      assert edges == edges[..|edges| - 1] + [edges[|edges| - 1]];
      LongOnes(edges[..|edges| - 1], col) + if IsLong(edges[|edges| - 1], col) then [edges[|edges| - 1]] else []
  }

  /** Widest first. */
  function LongEdges(edges: seq<FlowEdge>, col: Score): (r: seq<FlowEdge>)
    ensures multiset(r) == multiset(LongOnes(edges, col))
    ensures |r| == |LongOnes(edges, col)|
  {
    Sorted(LongOnes(edges, col), (a, b) => Width(b, col) - Width(a, col))
  }

  /** The edges that are routed: those whose ends lie more than one column apart,
      each once if the edges are distinct, and the wider before the narrower. */
  lemma LongEdgesWidestFirst(edges: seq<FlowEdge>, col: Score)
    ensures forall e :: e in LongEdges(edges, col) <==>
                        e in edges && e.from in col && e.to in col && col[e.from] + 1 < col[e.to]
    ensures Distinct(edges) ==> Distinct(LongEdges(edges, col))
    ensures forall i, j :: 0 <= i < j < |LongEdges(edges, col)| ==>
              var a, b := LongEdges(edges, col)[i], LongEdges(edges, col)[j];
              a.from in col && a.to in col && b.from in col && b.to in col
              && col[a.to] as int - col[a.from] >= col[b.to] as int - col[b.from]
  {
    var cmp := (a, b) => Width(b, col) - Width(a, col);
    var all, longs := LongOnes(edges, col), LongEdges(edges, col);
    SortedInOrder(all, cmp, Elements(all));
    SameElements(longs, all);
    if Distinct(edges) {
      PermutationDistinct(all, longs);
    }
    forall i, j | 0 <= i < j < |longs|
      ensures IsLong(longs[i], col) && IsLong(longs[j], col) && Width(longs[i], col) >= Width(longs[j], col)
    {
      assert longs[i] in longs && longs[j] in longs;
      assert cmp(longs[i], longs[j]) <= 0;
    }
  }

  function Range(lo: nat, hi: nat): (r: seq<nat>)
    ensures forall c :: c in r <==> lo <= c < hi
  {
    if hi <= lo then [] else Range(lo, hi - 1) + [hi - 1]
  }

  lemma RangeInOrder(lo: nat, hi: nat)
    requires lo <= hi
    ensures |Range(lo, hi)| == hi - lo && forall i :: 0 <= i < hi - lo ==> Range(lo, hi)[i] == lo + i
  {
  }

  /** The columns strictly between the two ends, from left to right. */
  function Between(e: FlowEdge, col: Score): (r: seq<nat>)
    ensures IsLong(e, col) ==> forall c :: c in r <==> col[e.from] < c < col[e.to]
  {
    if IsLong(e, col) then Range(col[e.from] + 1, col[e.to]) else []
  }

  /** The cells an edge claims on lane `L`. */
  ghost function Claim(e: FlowEdge, col: Score, L: nat): set<Cell> {
    set c | c in Between(e, col) :: Cell(L, c)
  }

  ghost function Claimed(longs: seq<FlowEdge>, col: Score, claims: seq<nat>): set<Cell>
    requires |claims| <= |longs|
  {
    set i, c | 0 <= i < |claims| && c in Between(longs[i], col) :: Cell(claims[i], c)
  }

  lemma ClaimedKept(longs: seq<FlowEdge>, col: Score, claims: seq<nat>, L: nat, x: Cell)
    requires |claims| < |longs|
    requires x in Claimed(longs, col, claims) || x in Claim(longs[|claims|], col, L)
    ensures x in Claimed(longs, col, claims + [L])
  {
    var more := claims + [L];
    if x in Claimed(longs, col, claims) {
      var i, c :| 0 <= i < |claims| && c in Between(longs[i], col) && x == Cell(claims[i], c);
      assert more[i] == claims[i];
    } else {
      assert more[|claims|] == L;
    }
  }

  lemma ClaimedBefore(longs: seq<FlowEdge>, col: Score, claims: seq<nat>, L: nat, x: Cell)
    requires |claims| < |longs| && x in Claimed(longs, col, claims + [L])
    ensures x in Claimed(longs, col, claims) || x in Claim(longs[|claims|], col, L)
  {
    var more := claims + [L];
    var i, c :| 0 <= i < |more| && c in Between(longs[i], col) && x == Cell(more[i], c);
    if i < |claims| {
      assert more[i] == claims[i];
    }
  }

  lemma ClaimedSnoc(longs: seq<FlowEdge>, col: Score, claims: seq<nat>, L: nat)
    requires |claims| < |longs|
    ensures Claimed(longs, col, claims + [L]) == Claimed(longs, col, claims) + Claim(longs[|claims|], col, L)
  {
    var before, now, own :=
      Claimed(longs, col, claims), Claimed(longs, col, claims + [L]), Claim(longs[|claims|], col, L);
    forall x | x in before || x in own
      ensures x in now
    {
      ClaimedKept(longs, col, claims, L, x);
    }
    forall x | x in now
      ensures x in before || x in own
    {
      ClaimedBefore(longs, col, claims, L, x);
    }
  }

  /** Both ends share a lane that is clear all the way. */
  predicate RunsStraight(e: FlowEdge, col: Score, lane: Score, taken: set<Cell>) {
    e.from in lane && e.to in lane && lane[e.from] == lane[e.to] && AllFree(taken, Between(e, col), lane[e.from])
  }

  /** The lane the `i`-th edge claims: its own when it runs straight, else the
      lowest lane below the spine that is free in every column between its ends. */
  ghost predicate RoutedAt(longs: seq<FlowEdge>, col: Score, lane: Score, cards: set<Cell>, claims: seq<nat>, i: nat)
    requires i < |claims| <= |longs|
  {
    var e := longs[i];
    var taken := cards + Claimed(longs, col, claims[..i]);
    if RunsStraight(e, col, lane, taken) then claims[i] == lane[e.from]
    else LeastFree(taken, Between(e, col), 1, claims[i])
  }

  ghost predicate Bows(longs: seq<FlowEdge>, col: Score, lane: Score, cards: set<Cell>, claims: seq<nat>, i: nat)
    requires i < |claims| <= |longs|
  {
    !RunsStraight(longs[i], col, lane, cards + Claimed(longs, col, claims[..i]))
  }

  ghost predicate Routed(longs: seq<FlowEdge>, col: Score, lane: Score, cards: set<Cell>, claims: seq<nat>)
    requires |claims| <= |longs|
  {
    forall i {:trigger RoutedAt(longs, col, lane, cards, claims, i)} :: 0 <= i < |claims| ==>
        RoutedAt(longs, col, lane, cards, claims, i)
  }

  /** The recorded waypoints: one for every edge that bows, none for any other. */
  ghost predicate WaysRecorded(longs: seq<FlowEdge>, col: Score, lane: Score, cards: set<Cell>, claims: seq<nat>,
                               ways: map<FlowEdge, Way>)
    requires |claims| <= |longs|
  {
    && (forall i :: 0 <= i < |claims| ==>
          (longs[i] in ways <==> Bows(longs, col, lane, cards, claims, i))
          && (longs[i] in ways ==> ways[longs[i]] == Way(claims[i], Between(longs[i], col))))
    && (forall e :: e in ways ==> e in longs[..|claims|])
  }

  lemma RoutedSnoc(longs: seq<FlowEdge>, col: Score, lane: Score, cards: set<Cell>, claims: seq<nat>, L: nat)
    requires |claims| < |longs| && Routed(longs, col, lane, cards, claims)
    requires RoutedAt(longs, col, lane, cards, claims + [L], |claims|)
    ensures Routed(longs, col, lane, cards, claims + [L])
  {
    var more := claims + [L];
    forall i | 0 <= i < |more|
      ensures RoutedAt(longs, col, lane, cards, more, i)
    {
      if i < |claims| {
        assert RoutedAt(longs, col, lane, cards, claims, i);
        assert more[..i] == claims[..i];
      }
    }
  }

  lemma WaysSnoc(longs: seq<FlowEdge>, col: Score, lane: Score, cards: set<Cell>, claims: seq<nat>,
                 ways: map<FlowEdge, Way>, L: nat)
    requires |claims| < |longs| && Distinct(longs) && WaysRecorded(longs, col, lane, cards, claims, ways)
    ensures var e := longs[|claims|];
            var ways' := if RunsStraight(e, col, lane, cards + Claimed(longs, col, claims)) then ways
                         else ways[e := Way(L, Between(e, col))];
            WaysRecorded(longs, col, lane, cards, claims + [L], ways')
  {
    var n := |claims|;
    var e := longs[n];
    var more := claims + [L];
    DistinctStep(longs, n);
    var ways' := if RunsStraight(e, col, lane, cards + Claimed(longs, col, claims)) then ways
                 else ways[e := Way(L, Between(e, col))];
    assert more[..n] == claims;
    forall i | 0 <= i < |more|
      ensures longs[i] in ways' <==> Bows(longs, col, lane, cards, more, i)
      ensures longs[i] in ways' ==> ways'[longs[i]] == Way(more[i], Between(longs[i], col))
    {
      if i < n {
        assert more[..i] == claims[..i];
        assert longs[i] in longs[..n];
      }
    }
  }

  ghost predicate Routing(longs: seq<FlowEdge>, col: Score, lane: Score, cards: set<Cell>, claims: seq<nat>,
                          ways: map<FlowEdge, Way>, occupied: set<Cell>) {
    && |claims| <= |longs|
    && Routed(longs, col, lane, cards, claims)
    && (Distinct(longs) ==> WaysRecorded(longs, col, lane, cards, claims, ways))
    && occupied == cards + Claimed(longs, col, claims)
  }

  lemma RoutingStep(longs: seq<FlowEdge>, col: Score, lane: Score, cards: set<Cell>, claims: seq<nat>,
                    ways: map<FlowEdge, Way>, occupied: set<Cell>, L: nat)
    requires Routing(longs, col, lane, cards, claims, ways, occupied) && |claims| < |longs|
    requires var e := longs[|claims|];
             if RunsStraight(e, col, lane, occupied) then L == lane[e.from]
               else LeastFree(occupied, Between(e, col), 1, L)
    ensures var e := longs[|claims|];
            var ways' := if RunsStraight(e, col, lane, occupied) then ways else ways[e := Way(L, Between(e, col))];
            Routing(longs, col, lane, cards, claims + [L], ways', occupied + Claim(e, col, L))
  {
    assert (claims + [L])[..|claims|] == claims;
    ClaimedSnoc(longs, col, claims, L);
    if Distinct(longs) {
      WaysSnoc(longs, col, lane, cards, claims, ways, L);
    }
    RoutedSnoc(longs, col, lane, cards, claims, L);
  }

  method RouteEdges(longs: seq<FlowEdge>, col: Score, lane: Score, cards: set<Cell>, top: nat)
    returns (ways: map<FlowEdge, Way>, maxLane: nat, claims: seq<nat>)
    requires forall e :: e in longs ==> e.from in lane && e.to in lane
    requires forall r :: r in lane ==> lane[r] <= top
    ensures |claims| == |longs| && Routed(longs, col, lane, cards, claims)
    ensures Distinct(longs) ==> WaysRecorded(longs, col, lane, cards, claims, ways)
    ensures top <= maxLane && forall i :: 0 <= i < |claims| ==> claims[i] <= maxLane
    ensures maxLane == top || exists i :: 0 <= i < |claims| && claims[i] == maxLane
  {
    ways, maxLane, claims := map[], top, [];
    var occupied := cards;
    ghost var widest := 0;
    assert Claimed(longs, col, []) == {};
    for n := 0 to |longs|
      invariant |claims| == n && Routing(longs, col, lane, cards, claims, ways, occupied)
      invariant top <= maxLane && forall i :: 0 <= i < n ==> claims[i] <= maxLane
      invariant maxLane == top || (widest < n && claims[widest] == maxLane)
    {
      var e := longs[n];
      var mid := Between(e, col);
      var L;
      assert e in longs;
      if RunsStraight(e, col, lane, occupied) {
        L := lane[e.from];
        RoutingStep(longs, col, lane, cards, claims, ways, occupied, L);
      } else {
        L := FreeLane(occupied, mid, 1);
        RoutingStep(longs, col, lane, cards, claims, ways, occupied, L);
        ways := ways[e := Way(L, mid)];
        if L > maxLane {
          maxLane, widest := L, n;
        }
      }
      occupied := occupied + set c | c in mid :: Cell(L, c);
      claims := claims + [L];
      assert claims[n] == L;
    }
  }

  // --- what routing achieves ----------------------------------------------------------

  /** Either way, the claimed cells were free when the edge claimed them. */
  lemma ClaimIsFree(longs: seq<FlowEdge>, col: Score, lane: Score, cards: set<Cell>, claims: seq<nat>, i: nat)
    requires |claims| == |longs| && i < |longs| && Routed(longs, col, lane, cards, claims)
    ensures Claim(longs[i], col, claims[i]) !! cards + Claimed(longs, col, claims[..i])
  {
    assert RoutedAt(longs, col, lane, cards, claims, i);
  }

  /** Long edges meet neither a card nor one another. */
  lemma RoutesAreClear(longs: seq<FlowEdge>, col: Score, lane: Score, cards: set<Cell>, claims: seq<nat>)
    requires |claims| == |longs| && Routed(longs, col, lane, cards, claims)
    ensures forall i :: 0 <= i < |longs| ==> Claim(longs[i], col, claims[i]) !! cards
    ensures forall i, j :: 0 <= i < j < |longs| ==> Claim(longs[i], col, claims[i]) !! Claim(longs[j], col, claims[j])
  {
    forall i | 0 <= i < |longs|
      ensures Claim(longs[i], col, claims[i]) !! cards
    {
      ClaimIsFree(longs, col, lane, cards, claims, i);
    }
    forall i, j | 0 <= i < j < |longs|
      ensures Claim(longs[i], col, claims[i]) !! Claim(longs[j], col, claims[j])
    {
      ClaimIsFree(longs, col, lane, cards, claims, j);
      forall x | x in Claim(longs[i], col, claims[i])
        ensures x in Claimed(longs, col, claims[..j])
      {
        assert claims[..j][i] == claims[i];
      }
    }
  }
}
