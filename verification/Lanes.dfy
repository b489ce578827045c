/** Greedy lanes: branches packed below the spine, long edges routed through
    free cells. */
module Lanes {
  import opened Common
  import opened Graph

  type Score = map<Node, nat>

  datatype Cell = Cell(lane: nat, col: nat)

  // --- finding a free lane ------------------------------------------------------------

  predicate AllFree(occupied: set<Cell>, cs: seq<nat>, L: nat) {
    forall c :: c in cs ==> Cell(L, c) !in occupied
  }

  ghost predicate LeastFree(occupied: set<Cell>, cs: seq<nat>, from: nat, L: nat) {
    && L >= from && AllFree(occupied, cs, L)
    && forall K :: from <= K < L ==> !AllFree(occupied, cs, K)
  }

  lemma {:induction false} LaneBound(occupied: set<Cell>) returns (bound: nat)
    ensures forall c :: c in occupied ==> c.lane < bound
  {
    if occupied == {} {
      bound := 0;
    } else {
      var c :| c in occupied;
      var rest := LaneBound(occupied - {c});
      bound := if rest > c.lane then rest else c.lane + 1;
    }
  }

  /** `while (cs.some(c => occupied.has(L, c))) L++`: it stops, because only
      finitely many lanes are occupied at all. */
  method FreeLane(occupied: set<Cell>, cs: seq<nat>, from: nat) returns (L: nat)
    ensures LeastFree(occupied, cs, from, L)
  {
    L := from;
    ghost var bound := LaneBound(occupied);
    while !AllFree(occupied, cs, L)
      invariant L >= from && forall K :: from <= K < L ==> !AllFree(occupied, cs, K)
      decreases bound - L
    {
      L := L + 1;
    }
  }

  // --- packing branches -----------------------------------------------------------------

  /** The cells of the cards of `who`. */
  ghost function Cards(lane: Score, col: Score, who: set<Node>): set<Cell> {
    set r | r in who && r in lane && r in col :: Cell(lane[r], col[r])
  }

  function Columns(members: seq<Node>, col: Score): (r: seq<nat>)
    requires forall m :: m in members ==> m in col
    ensures |r| == |members| && forall i :: 0 <= i < |r| ==> r[i] == col[members[i]]
  {
    seq(|members|, i requires 0 <= i < |members| => col[members[i]])
  }

  /** Members from left to right, ties in declared order. */
  function CompareMembers(col: Score, idx: Score, a: Node, b: Node): int {
    if a !in col || b !in col || a !in idx || b !in idx then 0
    else if col[a] != col[b] then col[a] as int - col[b] as int
    else idx[a] as int - idx[b] as int
  }

  function LeftToRight(members: seq<Node>, col: Score, idx: Score): (r: seq<Node>)
    ensures multiset(r) == multiset(members)
  {
    Sorted(members, (a, b) => CompareMembers(col, idx, a, b))
  }

  ghost predicate Agree(lane: Score, lane': Score, who: set<Node>) {
    forall r :: r in who ==> r in lane && r in lane' && lane[r] == lane'[r]
  }

  lemma CardsAgree(lane: Score, lane': Score, col: Score, who: set<Node>)
    requires Agree(lane, lane', who)
    ensures Cards(lane, col, who) == Cards(lane', col, who)
  {
  }

  /** The `i`-th card of a branch took the lowest lane from `base` on that was
      free in its column. */
  ghost predicate MemberPlaced(col: Score, done: set<Node>, ordered: seq<Node>, lane: Score, base: nat, i: nat) {
    && i < |ordered| && ordered[i] in col && ordered[i] in lane
    && LeastFree(Cards(lane, col, done + Elements(ordered[..i])), [col[ordered[i]]], base, lane[ordered[i]])
  }

  lemma MemberKept(col: Score, done: set<Node>, ordered: seq<Node>, lane: Score, lane': Score, base: nat, i: nat)
    requires MemberPlaced(col, done, ordered, lane, base, i)
    requires Agree(lane, lane', done + Elements(ordered[..i + 1]))
    ensures MemberPlaced(col, done, ordered, lane', base, i)
  {
    assert ordered[..i + 1] == ordered[..i] + [ordered[i]];
    CardsAgree(lane, lane', col, done + Elements(ordered[..i]));
    assert ordered[i] in Elements(ordered[..i + 1]);
  }

  /** One branch placed after the cards of `done`: its base is the lowest lane
      below the spine that is free in every column it occupies, and its members
      are placed one by one from left to right. */
  ghost predicate PlacedGreedily(col: Score, idx: Score, done: set<Node>, members: seq<Node>, lane: Score, base: nat) {
    && (forall m :: m in members ==> m in col && m in lane)
    && LeastFree(Cards(lane, col, done), Columns(members, col), 1, base)
    && var ordered := LeftToRight(members, col, idx);
       forall i :: 0 <= i < |ordered| ==> MemberPlaced(col, done, ordered, lane, base, i)
  }

  /** What holds after the first `i` cards of a branch. */
  ghost predicate Placing(col: Score, ordered: seq<Node>, lane0: Score, lane: Score, occupied: set<Cell>, base: nat,
                          i: nat) {
    && i <= |ordered| && lane.Keys == lane0.Keys + Elements(ordered[..i])
    && Agree(lane0, lane, lane0.Keys)
    && occupied == Cards(lane, col, lane.Keys)
    && forall j :: 0 <= j < i ==> MemberPlaced(col, lane0.Keys, ordered, lane, base, j)
  }

  lemma PlaceNext(col: Score, ordered: seq<Node>, lane0: Score, lane: Score, occupied: set<Cell>, base: nat, i: nat,
                  L: nat)
    requires Placing(col, ordered, lane0, lane, occupied, base, i) && i < |ordered| && Distinct(ordered)
    requires ordered[i] in col && ordered[i] !in lane0
    requires LeastFree(occupied, [col[ordered[i]]], base, L)
    ensures Placing(col, ordered, lane0, lane[ordered[i] := L], occupied + {Cell(L, col[ordered[i]])}, base, i + 1)
  {
    var ref := ordered[i];
    var lane' := lane[ref := L];
    DistinctStep(ordered, i);
    ElementsSnoc(ordered[..i], ref);
    OneCardMore(lane, col, ref, L);
    forall j | 0 <= j < i
      ensures MemberPlaced(col, lane0.Keys, ordered, lane', base, j)
    {
      assert Elements(ordered[..j + 1]) <= Elements(ordered[..i]);
      MemberKept(col, lane0.Keys, ordered, lane, lane', base, j);
    }
    assert MemberPlaced(col, lane0.Keys, ordered, lane', base, i);
  }

  lemma OneCardMore(lane: Score, col: Score, ref: Node, L: nat)
    requires ref in col && ref !in lane
    ensures var lane' := lane[ref := L];
            && Agree(lane, lane', lane.Keys) && Cards(lane', col, lane.Keys) == Cards(lane, col, lane.Keys)
            && Cards(lane', col, lane'.Keys) == Cards(lane, col, lane.Keys) + {Cell(L, col[ref])}
  {
    var lane' := lane[ref := L];
    CardsAgree(lane, lane', col, lane.Keys);
    assert Cards(lane', col, lane'.Keys) == Cards(lane', col, lane.Keys) + {Cell(L, col[ref])};
  }

  method PlaceMembers(ordered: seq<Node>, col: Score, lane0: Score, occupied0: set<Cell>, base: nat)
    returns (lane: Score, occupied: set<Cell>)
    requires Distinct(ordered) && forall m :: m in ordered ==> m in col && m !in lane0
    requires occupied0 == Cards(lane0, col, lane0.Keys)
    ensures Placing(col, ordered, lane0, lane, occupied, base, |ordered|)
  {
    lane, occupied := lane0, occupied0;
    for i := 0 to |ordered|
      invariant Placing(col, ordered, lane0, lane, occupied, base, i)
    {
      var ref := ordered[i];
      var L := FreeLane(occupied, [col[ref]], base);
      PlaceNext(col, ordered, lane0, lane, occupied, base, i, L);
      lane := lane[ref := L];
      occupied := occupied + {Cell(L, col[ref])};
    }
  }

  method PlaceBranch(members: seq<Node>, col: Score, idx: Score, lane0: Score, occupied0: set<Cell>)
    returns (lane: Score, occupied: set<Cell>, ghost base: nat)
    requires Distinct(members) && forall m :: m in members ==> m in col && m !in lane0
    requires occupied0 == Cards(lane0, col, lane0.Keys)
    ensures lane.Keys == lane0.Keys + Elements(members) && occupied == Cards(lane, col, lane.Keys)
    ensures Agree(lane0, lane, lane0.Keys)
    ensures PlacedGreedily(col, idx, lane0.Keys, members, lane, base)
  {
    var b := FreeLane(occupied0, Columns(members, col), 1);
    var ordered := LeftToRight(members, col, idx);
    SameElements(ordered, members);
    PermutationDistinct(members, ordered);
    lane, occupied := PlaceMembers(ordered, col, lane0, occupied0, b);
    base := b;
    assert ordered[..|ordered|] == ordered;
    CardsAgree(lane0, lane, col, lane0.Keys);
  }

  // --- all branches -------------------------------------------------------------------

  datatype Branch = Branch(members: seq<Node>, minCol: nat, maxCol: nat)

  function Least(cs: seq<nat>): (r: nat)
    requires cs != []
    ensures r in cs && forall c :: c in cs ==> r <= c
  {
    if |cs| == 1 then cs[0]
    else
      assert forall c :: c in cs ==> c == cs[0] || c in cs[1..];
      var m := Least(cs[1..]);
      if cs[0] < m then cs[0] else m
  }

  function Greatest(cs: seq<nat>): (r: nat)
    requires cs != []
    ensures r in cs && forall c :: c in cs ==> c <= r
  {
    if |cs| == 1 then cs[0]
    else
      assert forall c :: c in cs ==> c == cs[0] || c in cs[1..];
      var m := Greatest(cs[1..]);
      if cs[0] > m then cs[0] else m
  }

  /** Narrowest column span first, then the later fork, then declared order. */
  function CompareBranches(idx: Score, a: Branch, b: Branch): int {
    var byWidth := (a.maxCol - a.minCol) - (b.maxCol - b.minCol);
    var byFork := b.minCol - a.minCol;
    if byWidth != 0 then byWidth
    else if byFork != 0 then byFork
    else if a.members == [] || b.members == [] || a.members[0] !in idx || b.members[0] !in idx then 0
    else idx[a.members[0]] as int - idx[b.members[0]] as int
  }

  function BranchOrder(branches: seq<Branch>, idx: Score): (r: seq<Branch>)
    ensures multiset(r) == multiset(branches)
  {
    Sorted(branches, (a, b) => CompareBranches(idx, a, b))
  }

  /** Narrower, or as wide and forking later, or neither but declared no later. */
  ghost predicate GoesBefore(idx: Score, a: Branch, b: Branch)
    requires a.members != [] && b.members != [] && a.members[0] in idx && b.members[0] in idx
  {
    var wide, wider := a.maxCol - a.minCol, b.maxCol - b.minCol;
    || wide < wider
    || (wide == wider && a.minCol > b.minCol)
    || (wide == wider && a.minCol == b.minCol && idx[a.members[0]] <= idx[b.members[0]])
  }

  lemma BranchOrderIsSorted(branches: seq<Branch>, idx: Score)
    requires forall b :: b in branches ==> b.members != [] && b.members[0] in idx
    ensures forall b :: b in BranchOrder(branches, idx) <==> b in branches
    ensures forall i, j :: 0 <= i < j < |BranchOrder(branches, idx)| ==>
              var a, b := BranchOrder(branches, idx)[i], BranchOrder(branches, idx)[j];
              a in branches && b in branches && GoesBefore(idx, a, b)
  {
    var order, cmp := BranchOrder(branches, idx), (a, b) => CompareBranches(idx, a, b);
    SortedInOrder(branches, cmp, Elements(branches));
    SameElements(order, branches);
    forall i, j | 0 <= i < j < |order|
      ensures order[i] in branches && order[j] in branches && GoesBefore(idx, order[i], order[j])
    {
      assert order[i] in order && order[j] in order;
      assert cmp(order[i], order[j]) <= 0;
    }
  }

  ghost function Members(placed: seq<Branch>): set<Node> {
    set b, x | b in placed && x in b.members :: x
  }

  lemma MembersSnoc(placed: seq<Branch>, b: Branch)
    ensures Members(placed + [b]) == Members(placed) + Elements(b.members)
  {
    forall x
      ensures x in Members(placed + [b]) <==> x in Members(placed) || x in b.members
    {
      if x in Members(placed) {
        var a :| a in placed && x in a.members;
        assert a in placed + [b];
      }
      if x in b.members {
        assert b in placed + [b];
      }
    }
  }

  /** The finished packing: spine on lane 0, then every branch placed greedily
      after the spine and the branches before it. */
  ghost predicate Packed(col: Score, idx: Score, spine: set<Node>, placed: seq<Branch>, lane: Score, bases: seq<nat>) {
    && |bases| == |placed|
    && lane.Keys == spine + Members(placed)
    && (forall r :: r in spine ==> r in lane && lane[r] == 0)
    && forall b :: 0 <= b < |placed| ==>
         PlacedGreedily(col, idx, spine + Members(placed[..b]), placed[b].members, lane, bases[b])
  }

  lemma PlacedKept(col: Score, idx: Score, done: set<Node>, members: seq<Node>, lane: Score, lane': Score, base: nat)
    requires PlacedGreedily(col, idx, done, members, lane, base) && Agree(lane, lane', done + Elements(members))
    ensures PlacedGreedily(col, idx, done, members, lane', base)
  {
    CardsAgree(lane, lane', col, done);
    var ordered := LeftToRight(members, col, idx);
    SameElements(ordered, members);
    forall i | 0 <= i < |ordered|
      ensures MemberPlaced(col, done, ordered, lane', base, i)
    {
      assert Elements(ordered[..i + 1]) <= Elements(members);
      MemberKept(col, done, ordered, lane, lane', base, i);
    }
    assert forall m :: m in members ==> m in Elements(members);
  }

  lemma PrefixMembers(placed: seq<Branch>, j: nat)
    requires j < |placed|
    ensures Members(placed[..j]) + Elements(placed[j].members) <= Members(placed)
  {
    forall x | x in Members(placed[..j])
      ensures x in Members(placed)
    {
      var a :| a in placed[..j] && x in a.members;
      assert a in placed;
    }
    assert placed[j] in placed;
  }

  lemma PackNext(col: Score, idx: Score, spine: set<Node>, placed: seq<Branch>, lane: Score, bases: seq<nat>,
                 b: Branch, lane': Score, base: nat)
    requires Packed(col, idx, spine, placed, lane, bases) && Agree(lane, lane', lane.Keys)
    requires lane'.Keys == lane.Keys + Elements(b.members)
    requires PlacedGreedily(col, idx, lane.Keys, b.members, lane', base)
    ensures Packed(col, idx, spine, placed + [b], lane', bases + [base])
  {
    var more, bases' := placed + [b], bases + [base];
    assert lane'.Keys == spine + Members(more) by {
      MembersSnoc(placed, b);
    }
    forall j | 0 <= j < |more|
      ensures PlacedGreedily(col, idx, spine + Members(more[..j]), more[j].members, lane', bases'[j])
    {
      if j < |placed| {
        assert more[..j] == placed[..j] && more[j] == placed[j] && bases'[j] == bases[j];
        EarlierKept(col, idx, spine, placed, lane, bases, lane', j);
      } else {
        assert more[..j] == placed && lane.Keys == spine + Members(placed);
      }
    }
  }

  lemma EarlierKept(col: Score, idx: Score, spine: set<Node>, placed: seq<Branch>, lane: Score, bases: seq<nat>,
                    lane': Score, j: nat)
    requires Packed(col, idx, spine, placed, lane, bases) && Agree(lane, lane', lane.Keys) && j < |placed|
    ensures PlacedGreedily(col, idx, spine + Members(placed[..j]), placed[j].members, lane', bases[j])
  {
    PrefixMembers(placed, j);
    PlacedKept(col, idx, spine + Members(placed[..j]), placed[j].members, lane, lane', bases[j]);
  }

  /** Each event off the spine is in exactly one branch. */
  ghost predicate Partition(spine: set<Node>, branches: seq<Branch>) {
    && (forall b :: b in branches ==> Distinct(b.members) && Elements(b.members) !! spine)
    && (forall i, j :: 0 <= i < j < |branches| ==> Elements(branches[i].members) !! Elements(branches[j].members))
  }

  lemma FreshMembers(spine: set<Node>, branches: seq<Branch>, i: nat)
    requires Partition(spine, branches) && i < |branches|
    ensures branches[..i + 1] == branches[..i] + [branches[i]]
    ensures Distinct(branches[i].members)
    ensures forall m :: m in branches[i].members ==> m !in spine && m !in Members(branches[..i])
  {
    assert branches[i] in branches;
    forall b | b in branches[..i]
      ensures Elements(b.members) !! Elements(branches[i].members)
    {
      var j :| 0 <= j < i && branches[j] == b;
    }
    forall m | m in branches[i].members
      ensures m !in spine && m !in Members(branches[..i])
    {
      assert m in Elements(branches[i].members);
      assert forall b :: b in branches[..i] ==> m !in Elements(b.members);
    }
  }

  method PackBranches(spine: seq<Node>, placed: seq<Branch>, col: Score, idx: Score)
    returns (lane: Score, occupied: set<Cell>, ghost bases: seq<nat>)
    requires (forall r :: r in spine ==> r in col) && (forall b, m :: b in placed && m in b.members ==> m in col)
    requires Partition(Elements(spine), placed)
    ensures Packed(col, idx, Elements(spine), placed, lane, bases)
    ensures occupied == Cards(lane, col, lane.Keys)
  {
    lane := map r | r in spine :: 0;
    occupied := set r | r in spine :: Cell(0, col[r]);
    bases := [];
    assert Members([]) == {};
    for i := 0 to |placed|
      invariant Packed(col, idx, Elements(spine), placed[..i], lane, bases)
      invariant occupied == Cards(lane, col, lane.Keys)
    {
      var b := placed[i];
      FreshMembers(Elements(spine), placed, i);
      ghost var before := lane;
      ghost var base;
      lane, occupied, base := PlaceBranch(b.members, col, idx, lane, occupied);
      PackNext(col, idx, Elements(spine), placed[..i], before, bases, b, lane, base);
      bases := bases + [base];
    }
    assert placed[..|placed|] == placed;
  }

  // --- what greedy packing achieves -------------------------------------------------------

  ghost predicate CellsDistinct(lane: Score, col: Score, who: set<Node>) {
    && (forall r :: r in who ==> r in lane && r in col)
    && forall r, s :: r in who && s in who && r != s ==> Cell(lane[r], col[r]) != Cell(lane[s], col[s])
  }

  lemma OneMore(lane: Score, col: Score, who: set<Node>, x: Node)
    requires CellsDistinct(lane, col, who) && x in lane && x in col && Cell(lane[x], col[x]) !in Cards(lane, col, who)
    ensures CellsDistinct(lane, col, who + {x})
  {
    forall r | r in who && r != x
      ensures Cell(lane[r], col[r]) != Cell(lane[x], col[x])
    {
      assert Cell(lane[r], col[r]) in Cards(lane, col, who);
    }
  }

  lemma {:induction false} BranchDistinct(col: Score, idx: Score, done: set<Node>, members: seq<Node>, lane: Score,
                                          base: nat, i: nat)
    requires PlacedGreedily(col, idx, done, members, lane, base) && CellsDistinct(lane, col, done)
    requires i <= |LeftToRight(members, col, idx)|
    ensures CellsDistinct(lane, col, done + Elements(LeftToRight(members, col, idx)[..i]))
  {
    var ordered := LeftToRight(members, col, idx);
    if i == 0 {
      assert done + Elements(ordered[..0]) == done;
    } else {
      BranchDistinct(col, idx, done, members, lane, base, i - 1);
      var x := ordered[i - 1];
      assert MemberPlaced(col, done, ordered, lane, base, i - 1);
      assert col[x] in [col[x]];
      assert ordered[..i] == ordered[..i - 1] + [x];
      OneMore(lane, col, done + Elements(ordered[..i - 1]), x);
      assert done + Elements(ordered[..i]) == done + Elements(ordered[..i - 1]) + {x};
    }
  }

  lemma WholeBranchDistinct(col: Score, idx: Score, done: set<Node>, members: seq<Node>, lane: Score, base: nat)
    requires PlacedGreedily(col, idx, done, members, lane, base) && CellsDistinct(lane, col, done)
    ensures CellsDistinct(lane, col, done + Elements(members))
  {
    var ordered := LeftToRight(members, col, idx);
    BranchDistinct(col, idx, done, members, lane, base, |ordered|);
    SameElements(ordered, members);
    assert ordered[..|ordered|] == ordered;
    assert Elements(ordered) == Elements(members);
  }

  /** The order in which a branch is placed: by column, in one column as declared. */
  lemma LeftToRightIsSorted(members: seq<Node>, col: Score, idx: Score)
    requires forall m :: m in members ==> m in col && m in idx
    ensures forall m :: m in LeftToRight(members, col, idx) <==> m in members
    ensures forall i, j :: 0 <= i < j < |LeftToRight(members, col, idx)| ==>
              var a, b := LeftToRight(members, col, idx)[i], LeftToRight(members, col, idx)[j];
              a in members && b in members && (col[a] < col[b] || (col[a] == col[b] && idx[a] <= idx[b]))
  {
    var ordered, cmp := LeftToRight(members, col, idx), (a, b) => CompareMembers(col, idx, a, b);
    SortedInOrder(members, cmp, Elements(members));
    SameElements(ordered, members);
    forall i, j | 0 <= i < j < |ordered|
      ensures ordered[i] in members && ordered[j] in members
      ensures var a, b := ordered[i], ordered[j]; col[a] < col[b] || (col[a] == col[b] && idx[a] <= idx[b])
    {
      assert ordered[i] in ordered && ordered[j] in ordered;
      assert cmp(ordered[i], ordered[j]) <= 0;
    }
  }

  /** Of two members of a branch in one column, the one declared first sits above. */
  lemma DeclaredFirstSitsAbove(col: Score, idx: Score, done: set<Node>, members: seq<Node>, lane: Score, base: nat,
                               a: Node, b: Node)
    requires PlacedGreedily(col, idx, done, members, lane, base) && a in members && b in members
    requires (forall m :: m in members ==> m in col && m in idx) && col[a] == col[b] && idx[a] < idx[b]
    ensures lane[a] < lane[b]
  {
    var ordered := LeftToRight(members, col, idx);
    LeftToRightIsSorted(members, col, idx);
    var i, j := IndexOf(ordered, a), IndexOf(ordered, b);
    assert i < j;
    assert MemberPlaced(col, done, ordered, lane, base, i) && MemberPlaced(col, done, ordered, lane, base, j);
    PlacedLater(col, done, ordered, lane, base, i, j);
  }

  lemma PlacedLater(col: Score, done: set<Node>, ordered: seq<Node>, lane: Score, base: nat, i: nat, j: nat)
    requires MemberPlaced(col, done, ordered, lane, base, i) && MemberPlaced(col, done, ordered, lane, base, j)
    requires i < j && col[ordered[i]] == col[ordered[j]]
    ensures lane[ordered[i]] < lane[ordered[j]]
  {
    var a, b := ordered[i], ordered[j];
    var before, after := done + Elements(ordered[..i]), done + Elements(ordered[..j]);
    assert ordered[..j][i] == a;
    assert Cell(lane[a], col[a]) in Cards(lane, col, after);
    assert col[b] in [col[b]];
    if lane[b] < lane[a] {
      CardsGrow(lane, col, before, after);
      assert AllFree(Cards(lane, col, before), [col[a]], lane[b]);
    }
  }

  lemma CardsGrow(lane: Score, col: Score, some: set<Node>, more: set<Node>)
    requires some <= more
    ensures Cards(lane, col, some) <= Cards(lane, col, more)
  {
  }

  lemma SpineDistinct(col: Score, spine: set<Node>, lane: Score)
    requires forall r :: r in spine ==> r in lane && r in col
    requires forall r, s :: r in spine && s in spine && r != s ==> col[r] != col[s]
    ensures CellsDistinct(lane, col, spine)
  {
  }

  lemma MembersStep(spine: set<Node>, placed: seq<Branch>, b: nat)
    requires 0 < b <= |placed|
    ensures spine + Members(placed[..b]) == spine + Members(placed[..b - 1]) + Elements(placed[b - 1].members)
  {
    assert placed[..b] == placed[..b - 1] + [placed[b - 1]];
    MembersSnoc(placed[..b - 1], placed[b - 1]);
  }

  lemma {:induction false} PackedDistinct(col: Score, idx: Score, spine: set<Node>, placed: seq<Branch>, lane: Score,
                                          bases: seq<nat>, b: nat)
    requires Packed(col, idx, spine, placed, lane, bases) && b <= |placed|
    requires CellsDistinct(lane, col, spine)
    ensures CellsDistinct(lane, col, spine + Members(placed[..b]))
  {
    if b == 0 {
      assert spine + Members(placed[..0]) == spine;
    } else {
      PackedDistinct(col, idx, spine, placed, lane, bases, b - 1);
      WholeBranchDistinct(col, idx, spine + Members(placed[..b - 1]), placed[b - 1].members, lane, bases[b - 1]);
      MembersStep(spine, placed, b);
    }
  }

  lemma BelowSpine(col: Score, idx: Score, done: set<Node>, members: seq<Node>, lane: Score, base: nat, m: Node)
    requires PlacedGreedily(col, idx, done, members, lane, base) && m in members
    ensures m in lane && lane[m] >= base >= 1
  {
    var ordered := LeftToRight(members, col, idx);
    SameElements(ordered, members);
    assert MemberPlaced(col, done, ordered, lane, base, IndexOf(ordered, m));
  }

  /** Lane 0 holds the spine and nothing else. */
  lemma LaneZeroIsSpine(col: Score, idx: Score, spine: set<Node>, placed: seq<Branch>, lane: Score, bases: seq<nat>,
                        r: Node)
    requires Packed(col, idx, spine, placed, lane, bases) && r in lane
    ensures lane[r] == 0 <==> r in spine
  {
    if r !in spine {
      var b :| b in placed && r in b.members;
      var i := IndexOf(placed, b);
      BelowSpine(col, idx, spine + Members(placed[..i]), b.members, lane, bases[i], r);
    }
  }

  /** A branch whose members all sit in different columns ends on one lane. */
  lemma {:induction false} ChainStaysOnOneLane(col: Score, idx: Score, done: set<Node>, members: seq<Node>, lane: Score,
                                               base: nat, m: Node)
    requires PlacedGreedily(col, idx, done, members, lane, base) && m in members
    requires forall x, y :: x in members && y in members && x != y ==> col[x] != col[y]
    requires Distinct(members)
    ensures lane[m] == base
  {
    var ordered := LeftToRight(members, col, idx);
    SameElements(ordered, members);
    PermutationDistinct(members, ordered);
    var i := IndexOf(ordered, m);
    assert MemberPlaced(col, done, ordered, lane, base, i);
    assert col[m] in Columns(members, col) by {
      assert Columns(members, col)[IndexOf(members, m)] == col[m];
    }
    assert Cell(base, col[m]) !in Cards(lane, col, done);
    forall x | x in ordered[..i]
      ensures col[x] != col[m]
    {
      assert x in ordered && x != m;
    }
    assert AllFree(Cards(lane, col, done + Elements(ordered[..i])), [col[m]], base);
  }
}
