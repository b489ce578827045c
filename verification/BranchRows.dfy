/** Rows for a forest of executions: leaves take successive rows, a parent centres
    on its children. */
module BranchRows {
  import opened Common
  import opened BranchForest
  import opened BranchTrees

  // --- sorting the children ---------------------------------------------------------------------

  /** `sort` with whatever comparator, consistent or not: a permutation. */
  ghost predicate Permutes(order: seq<Tree> -> seq<Tree>) {
    forall s :: multiset(order(s)) == multiset(s)
  }

  function SortKids(order: seq<Tree> -> seq<Tree>, t: Tree): Tree
    requires Permutes(order)
  {
    var kids := order(t.kids);
    SameElements(kids, t.kids);
    assert forall j :: 0 <= j < |kids| ==> kids[j] in t.kids;
    Tree(t.firing, seq(|kids|, j requires 0 <= j < |kids| => SortKids(order, kids[j])))
  }

  function SortForest(order: seq<Tree> -> seq<Tree>, roots: seq<Tree>): (r: seq<Tree>)
    requires Permutes(order)
    ensures |r| == |roots|
  {
    var sorted := order(roots);
    SameElements(sorted, roots);
    SortEach(order, sorted)
  }

  lemma FiringsAppendStep(t: Tree, rest: seq<Tree>, b: seq<Tree>, z: seq<nat>)
    requires Firings(rest + b) == Firings(rest) + z
    ensures Firings([t] + rest + b) == Firings([t] + rest) + z
  {
    assert [t] + rest + b == [t] + (rest + b);
    assert ([t] + (rest + b))[1..] == rest + b && ([t] + rest)[1..] == rest;
    AssociativeFirings(FiringsOf(t), Firings(rest), z);
  }

  lemma AssociativeFirings(x: seq<nat>, y: seq<nat>, z: seq<nat>)
    ensures x + (y + z) == x + y + z
  {
  }

  lemma {:induction false} FiringsAppend(a: seq<Tree>, b: seq<Tree>)
    ensures Firings(a + b) == Firings(a) + Firings(b)
  {
    if a == [] {
      assert a + b == b;
    } else {
      FiringsAppend(a[1..], b);
      FiringsAppendStep(a[0], a[1..], b, Firings(b));
      assert [a[0]] + a[1..] == a;
    }
  }

  lemma FiringsAround(front: seq<Tree>, t: Tree, back: seq<Tree>)
    ensures multiset(Firings(front + [t] + back)) == multiset(FiringsOf(t)) + multiset(Firings(front + back))
  {
    FiringsOne(t);
    FiringsAppend(front, back);
    FiringsAppend(front, [t]);
    FiringsAppend(front + [t], back);
  }

  lemma FiringsOne(t: Tree)
    ensures Firings([t]) == FiringsOf(t)
  {
    assert [t][1..] == [];
    assert FiringsOf(t) + [] == FiringsOf(t);
  }

  lemma Plucked(ts: seq<Tree>, j: nat)
    requires j < |ts|
    ensures ts == ts[..j] + [ts[j]] + ts[j + 1..]
    ensures multiset(ts[..j] + ts[j + 1..]) == multiset(ts) - multiset{ts[j]}
  {
    assert ts == ts[..j] + [ts[j]] + ts[j + 1..];
    assert multiset(ts) == multiset(ts[..j]) + multiset{ts[j]} + multiset(ts[j + 1..]);
  }

  lemma {:induction false} FiringsPermuted(a: seq<Tree>, b: seq<Tree>)
    requires multiset(a) == multiset(b)
    ensures multiset(Firings(a)) == multiset(Firings(b))
    decreases |a|
  {
    SameElements(a, b);
    if a != [] {
      assert a[0] in b;
      var j :| 0 <= j < |b| && b[j] == a[0];
      var front, back := b[..j], b[j + 1..];
      Plucked(a, 0);
      Plucked(b, j);
      FiringsPermuted(a[..0] + a[1..], front + back);
      FiringsAround(front, a[0], back);
      FiringsAround(a[..0], a[0], a[1..]);
    }
  }

  lemma {:induction false} SortKidsFirings(order: seq<Tree> -> seq<Tree>, t: Tree)
    requires Permutes(order)
    ensures multiset(FiringsOf(SortKids(order, t))) == multiset(FiringsOf(t))
    decreases t, 1, 0
  {
    var kids := order(t.kids);
    SameElements(kids, t.kids);
    SortAllFirings(order, t, kids);
    FiringsPermuted(kids, t.kids);
  }

  function SortEach(order: seq<Tree> -> seq<Tree>, ts: seq<Tree>): (r: seq<Tree>)
    requires Permutes(order)
    ensures |r| == |ts|
  {
    seq(|ts|, j requires 0 <= j < |ts| => SortKids(order, ts[j]))
  }

  lemma {:induction false} SortAllFirings(order: seq<Tree> -> seq<Tree>, t: Tree, ts: seq<Tree>)
    requires Permutes(order) && forall k :: k in ts ==> k in t.kids
    ensures multiset(Firings(SortEach(order, ts))) == multiset(Firings(ts))
    decreases t, 0, |ts|
  {
    if ts != [] {
      assert ts[0] in t.kids;
      SortKidsFirings(order, ts[0]);
      SortAllFirings(order, t, ts[1..]);
      assert SortEach(order, ts)[1..] == SortEach(order, ts[1..]);
    }
  }

  /** Sorting moves no firing in or out of the forest. */
  lemma SortForestFirings(order: seq<Tree> -> seq<Tree>, roots: seq<Tree>)
    requires Permutes(order)
    ensures multiset(Firings(SortForest(order, roots))) == multiset(Firings(roots))
  {
    var sorted := order(roots);
    SameElements(sorted, roots);
    SortAllFirings(order, Tree(0, roots), sorted);
    FiringsPermuted(sorted, roots);
  }

  /** Columns strictly rise along every edge of the tree. */
  ghost predicate RisingTree(log: Log, t: Tree)
    decreases t
  {
    t.firing < |log| && forall j :: 0 <= j < |t.kids| ==>
      t.kids[j].firing < |log| && log[t.firing].col < log[t.kids[j].firing].col && RisingTree(log, t.kids[j])
  }

  predicate HasKid(ts: seq<Tree>, j: nat) {
    exists k :: 0 <= k < |ts| && ts[k].firing == j
  }

  /** The children of every node are the firings that hang there, all of them. */
  ghost predicate Threads(links: seq<Link>, t: Tree)
    decreases t
  {
    && t.firing < |links|
    && |t.kids| == |Kids(links, Under(t.firing), |links|)|
    && (forall j :: j in Kids(links, Under(t.firing), |links|) ==> HasKid(t.kids, j))
    && (forall k :: 0 <= k < |t.kids| ==>
          t.kids[k].firing in Kids(links, Under(t.firing), |links|) && Threads(links, t.kids[k]))
  }

  lemma {:induction false} SortKeepsThreads(order: seq<Tree> -> seq<Tree>, links: seq<Link>, t: Tree)
    requires Permutes(order) && Threads(links, t)
    ensures Threads(links, SortKids(order, t))
  {
    var kids, below := order(t.kids), Kids(links, Under(t.firing), |links|);
    var sorted := SortKids(order, t).kids;
    SameElements(kids, t.kids);
    forall k | 0 <= k < |kids|
      ensures sorted[k].firing in below && Threads(links, sorted[k])
    {
      assert kids[k] in t.kids;
      SortKeepsThreads(order, links, kids[k]);
    }
    forall j | j in below
      ensures HasKid(sorted, j)
    {
      var k :| 0 <= k < |t.kids| && t.kids[k].firing == j;
      assert t.kids[k] in kids;
      var x :| 0 <= x < |kids| && kids[x] == t.kids[k];
      assert sorted[x] == SortKids(order, kids[x]);
      assert sorted[x].firing == j;
    }
  }

  lemma {:induction false} ThreadsRise(log: Log, links: seq<Link>, t: Tree)
    requires |links| == |log| && LinksRising(log, links) && Threads(links, t)
    ensures RisingTree(log, t)
  {
    forall k | 0 <= k < |t.kids|
      ensures t.kids[k].firing < |log| && log[t.firing].col < log[t.kids[k].firing].col && RisingTree(log, t.kids[k])
    {
      ThreadsRise(log, links, t.kids[k]);
    }
  }

  ghost predicate LinksRising(log: Log, links: seq<Link>) {
    forall i :: 0 <= i < |links| <= |log| && links[i].Under? ==>
        links[i].parent < |log| && log[links[i].parent].col < log[i].col
  }

  // --- assigning rows ---------------------------------------------------------------------------

  function LeavesOf(t: Tree): (n: nat)
    ensures n > 0
  {
    if t.kids == [] then 1 else Leaves(t.kids)
  }

  function Leaves(ts: seq<Tree>): (n: nat)
    ensures ts != [] ==> n > 0
  {
    if ts == [] then 0 else LeavesOf(ts[0]) + Leaves(ts[1..])
  }

  /** The row of a tree's root when its first leaf takes row `start`. */
  function RowOf(t: Tree, start: nat): real {
    if t.kids == [] then start as real
    else
      var last := |t.kids| - 1;
      (RowOf(t.kids[0], start) + RowOf(t.kids[last], start + Leaves(t.kids[..last]))) / 2.0
  }

  /** A subtree and the row its first leaf takes. */
  datatype Spot = Spot(tree: Tree, start: nat)

  function Row(s: Spot): real {
    RowOf(s.tree, s.start)
  }

  /** Where the firings of a tree and of a forest go, each subtree's root first. */
  function SpotsOf(t: Tree, start: nat): seq<Spot> {
    [Spot(t, start)] + Spots(t.kids, start)
  }

  function Spots(ts: seq<Tree>, start: nat): seq<Spot> {
    if ts == [] then [] else SpotsOf(ts[0], start) + Spots(ts[1..], start + LeavesOf(ts[0]))
  }

  lemma {:induction false} LeavesAppend(a: seq<Tree>, b: seq<Tree>)
    ensures Leaves(a + b) == Leaves(a) + Leaves(b)
  {
    if a == [] {
      assert a + b == b;
    } else {
      LeavesAppend(a[1..], b);
      assert (a + b)[1..] == a[1..] + b;
    }
  }

  lemma SpotsCons(t: Tree, ts: seq<Tree>, start: nat)
    ensures Spots([t] + ts, start) == SpotsOf(t, start) + Spots(ts, start + LeavesOf(t))
  {
    assert ([t] + ts)[1..] == ts;
  }

  lemma SpotsAppendStep(t: Tree, rest: seq<Tree>, b: seq<Tree>, start: nat, z: seq<Spot>)
    requires Spots(rest + b, start + LeavesOf(t)) == Spots(rest, start + LeavesOf(t)) + z
    ensures Spots([t] + rest + b, start) == Spots([t] + rest, start) + z
  {
    SpotsCons(t, rest + b, start);
    SpotsCons(t, rest, start);
    assert [t] + rest + b == [t] + (rest + b);
    Associative(SpotsOf(t, start), Spots(rest, start + LeavesOf(t)), z);
  }

  lemma Associative(x: seq<Spot>, y: seq<Spot>, z: seq<Spot>)
    ensures x + (y + z) == x + y + z
  {
  }

  lemma {:induction false} SpotsAppend(a: seq<Tree>, b: seq<Tree>, start: nat)
    ensures Spots(a + b, start) == Spots(a, start) + Spots(b, start + Leaves(a))
  {
    if a == [] {
      assert a + b == b;
    } else {
      SpotsAppend(a[1..], b, start + LeavesOf(a[0]));
      assert Leaves(a) == LeavesOf(a[0]) + Leaves(a[1..]);
      SpotsAppendStep(a[0], a[1..], b, start, Spots(b, start + Leaves(a)));
      assert [a[0]] + a[1..] == a;
    }
  }

  lemma SpotsSnoc(ts: seq<Tree>, t: Tree, start: nat)
    ensures Spots(ts + [t], start) == Spots(ts, start) + SpotsOf(t, start + Leaves(ts))
    ensures Leaves(ts + [t]) == Leaves(ts) + LeavesOf(t)
  {
    SpotsAppend(ts, [t], start);
    LeavesAppend(ts, [t]);
    assert [t] + [] == [t];
    SpotsCons(t, [], start + Leaves(ts));
    assert Leaves([t]) == LeavesOf(t) + Leaves([]);
    assert SpotsOf(t, start + Leaves(ts)) + [] == SpotsOf(t, start + Leaves(ts));
  }

  lemma {:induction false} SpotsFirings(ts: seq<Tree>, start: nat)
    ensures |Spots(ts, start)| == |Firings(ts)|
    ensures forall k :: 0 <= k < |Spots(ts, start)| ==> Spots(ts, start)[k].tree.firing == Firings(ts)[k]
  {
    if ts != [] {
      SpotsFirings(ts[0].kids, start);
      SpotsFirings(ts[1..], start + LeavesOf(ts[0]));
    }
  }

  ghost predicate Written(rows: seq<real>, spots: seq<Spot>) {
    forall s :: s in spots ==> s.tree.firing < |rows| && rows[s.tree.firing] == Row(s)
  }

  /** Writing elsewhere keeps what is written. */
  lemma StillWritten(before: seq<real>, after: seq<real>, spots: seq<Spot>, touched: seq<nat>)
    requires Written(before, spots) && |before| == |after|
    requires forall f :: 0 <= f < |before| && f !in touched ==> after[f] == before[f]
    requires forall s :: s in spots ==> s.tree.firing !in touched
    ensures Written(after, spots)
  {
  }

  /** `n.row = …`, after the children. The counter `r` runs over the leaves. */
  method Assign(t: Tree, rows: array<real>, r: nat) returns (r': nat)
    requires Distinct(FiringsOf(t)) && forall f :: f in FiringsOf(t) ==> f < rows.Length
    modifies rows
    ensures r' == r + LeavesOf(t)
    ensures Written(rows[..], SpotsOf(t, r))
    ensures forall f :: 0 <= f < rows.Length && f !in FiringsOf(t) ==> rows[f] == old(rows[f])
    decreases t, 1
  {
    OneTree(t, r);
    if |t.kids| == 0 {
      rows[t.firing] := r as real;
      return r + 1;
    }
    r' := AssignAll(t.kids, rows, r);
    FirstSpot(t.kids, r);
    LastSpot(t.kids, r);
    ghost var before := rows[..];
    rows[t.firing] := (rows[t.kids[0].firing] + rows[t.kids[|t.kids| - 1].firing]) / 2.0;
    StillWritten(before, rows[..], Spots(t.kids, r), [t.firing]);
  }

  /** `forEach(assign)` */
  method AssignAll(ts: seq<Tree>, rows: array<real>, r: nat) returns (r': nat)
    requires Distinct(Firings(ts)) && forall f :: f in Firings(ts) ==> f < rows.Length
    modifies rows
    ensures r' == r + Leaves(ts)
    ensures Written(rows[..], Spots(ts, r))
    ensures forall f :: 0 <= f < rows.Length && f !in Firings(ts) ==> rows[f] == old(rows[f])
    decreases ts, 0
  {
    r' := r;
    for i := 0 to |ts|
      invariant r' == r + Leaves(ts[..i])
      invariant Written(rows[..], Spots(ts[..i], r))
      invariant forall f :: 0 <= f < rows.Length && f !in Firings(ts[..i]) ==> rows[f] == old(rows[f])
    {
      ForestStep(ts, i, r);
      ghost var before := rows[..];
      r' := Assign(ts[i], rows, r');
      StillWritten(before, rows[..], Spots(ts[..i], r), FiringsOf(ts[i]));
    }
    assert ts[..|ts|] == ts;
  }

  lemma OneTree(t: Tree, r: nat)
    requires Distinct(FiringsOf(t))
    ensures Distinct(Firings(t.kids)) && t.firing in FiringsOf(t)
            && forall f :: f in Firings(t.kids) ==> f in FiringsOf(t)
    ensures forall s :: s in Spots(t.kids, r) ==> s.tree.firing !in [t.firing]
  {
    var all, below := FiringsOf(t), Firings(t.kids);
    DistinctPieces([t.firing], below, []);
    assert all == [t.firing] + below + [];
    SpotsFirings(t.kids, r);
    assert t.firing in [t.firing];
  }

  lemma FirstSpot(kids: seq<Tree>, r: nat)
    requires kids != []
    ensures Spot(kids[0], r) in Spots(kids, r)
  {
    RootSpot(kids[0], r);
    assert Spots(kids, r) == SpotsOf(kids[0], r) + Spots(kids[1..], r + LeavesOf(kids[0]));
  }

  lemma LastSpot(kids: seq<Tree>, r: nat)
    requires kids != []
    ensures var last := |kids| - 1; Spot(kids[last], r + Leaves(kids[..last])) in Spots(kids, r)
  {
    var front, t := kids[..|kids| - 1], kids[|kids| - 1];
    SpotsSnoc(front, t, r);
    RootSpot(t, r + Leaves(front));
    assert front + [t] == kids;
  }

  lemma RootSpot(t: Tree, start: nat)
    ensures Spot(t, start) in SpotsOf(t, start)
  {
    assert SpotsOf(t, start)[0] == Spot(t, start);
  }

  lemma ForestStep(ts: seq<Tree>, i: nat, r: nat)
    requires i < |ts| && Distinct(Firings(ts))
    ensures Leaves(ts[..i + 1]) == Leaves(ts[..i]) + LeavesOf(ts[i])
    ensures Spots(ts[..i + 1], r) == Spots(ts[..i], r) + SpotsOf(ts[i], r + Leaves(ts[..i]))
    ensures Firings(ts[..i + 1]) == Firings(ts[..i]) + FiringsOf(ts[i])
    ensures Distinct(FiringsOf(ts[i])) && forall s :: s in Spots(ts[..i], r) ==> s.tree.firing !in FiringsOf(ts[i])
    ensures forall f :: f in FiringsOf(ts[i]) ==> f in Firings(ts)
  {
    var a, b, c := ts[..i], ts[i], ts[i + 1..];
    assert ts[..i + 1] == a + [b] && ts == a + [b] + c;
    SpotsSnoc(a, b, r);
    FiringsAppend(a, [b]);
    FiringsOne(b);
    FiringsAppend(a + [b], c);
    SpotsFirings(a, r);
    DistinctPieces(Firings(a), FiringsOf(b), Firings(c));
  }

  lemma DistinctPieces(a: seq<nat>, b: seq<nat>, c: seq<nat>)
    requires Distinct(a + b + c)
    ensures Distinct(b) && forall x :: x in a ==> x !in b
  {
    var all := a + b + c;
    assert forall i :: 0 <= i < |a| ==> all[i] == a[i];
    assert forall i :: 0 <= i < |b| ==> all[|a| + i] == b[i];
  }

  // --- parents and children in the layout -------------------------------------------------------

  function KidOf(s: Spot, k: nat): Spot
    requires k < |s.tree.kids|
  {
    Spot(s.tree.kids[k], s.start + Leaves(s.tree.kids[..k]))
  }

  lemma KidSpot(s: Spot, k: nat)
    requires k < |s.tree.kids|
    ensures KidOf(s, k) in Spots(s.tree.kids, s.start)
  {
    var front, t, back := s.tree.kids[..k], s.tree.kids[k], s.tree.kids[k + 1..];
    SpotsSnoc(front, t, s.start);
    RootSpot(t, s.start + Leaves(front));
    assert front + [t] + back == s.tree.kids;
    SpotsAppend(front + [t], back, s.start);
  }

  lemma SpotsGrow(ts: seq<Tree>, start: nat)
    requires ts != []
    ensures forall x :: x in SpotsOf(ts[0], start) ==> x in Spots(ts, start)
    ensures forall x :: x in Spots(ts[0].kids, start) ==> x in Spots(ts, start)
    ensures forall x :: x in Spots(ts[1..], start + LeavesOf(ts[0])) ==> x in Spots(ts, start)
  {
    assert Spots(ts, start) == SpotsOf(ts[0], start) + Spots(ts[1..], start + LeavesOf(ts[0]));
  }

  /** The children of what is laid out are laid out as well. */
  lemma {:induction false} KidIsLaidOut(ts: seq<Tree>, start: nat, s: Spot, k: nat)
    requires s in Spots(ts, start) && k < |s.tree.kids|
    ensures KidOf(s, k) in Spots(ts, start)
    decreases ts
  {
    var t, rest := ts[0], start + LeavesOf(ts[0]);
    SpotsGrow(ts, start);
    if s == Spot(t, start) {
      KidSpot(s, k);
    } else if s in Spots(t.kids, start) {
      KidIsLaidOut(t.kids, start, s, k);
    } else {
      KidIsLaidOut(ts[1..], rest, s, k);
    }
  }

  /** A firing with children sits midway between its first child and its last. */
  ghost predicate Midway(rows: seq<real>, t: Tree) {
    t.kids != [] ==>
      var first, last := t.kids[0].firing, t.kids[|t.kids| - 1].firing;
      && t.firing < |rows| && first < |rows| && last < |rows|
      && rows[t.firing] - rows[first] == rows[last] - rows[t.firing]
  }

  lemma WrittenMidway(ts: seq<Tree>, start: nat, rows: seq<real>, s: Spot)
    requires Written(rows, Spots(ts, start)) && s in Spots(ts, start)
    ensures Midway(rows, s.tree)
  {
    if s.tree.kids != [] {
      KidIsLaidOut(ts, start, s, 0);
      KidIsLaidOut(ts, start, s, |s.tree.kids| - 1);
      assert rows[s.tree.firing] == Row(s);
      assert rows[s.tree.kids[0].firing] == Row(KidOf(s, 0));
    }
  }

  /** Sorts every list of children, then hands out the rows. The result counts the
      leaves. */
  method LayoutForestRows(roots: seq<Tree>, order: seq<Tree> -> seq<Tree>, rows: array<real>) returns (r: nat)
    requires Permutes(order) && Distinct(Firings(roots)) && forall f :: f in Firings(roots) ==> f < rows.Length
    modifies rows
    ensures r == Leaves(SortForest(order, roots)) && Written(rows[..], Spots(SortForest(order, roots), 0))
    ensures forall s :: s in Spots(SortForest(order, roots), 0) ==> Midway(rows[..], s.tree)
    ensures forall f :: 0 <= f < rows.Length && f !in Firings(roots) ==> rows[f] == old(rows[f])
  {
    var sorted := SortForest(order, roots);
    SortForestFirings(order, roots);
    PermutationDistinct(Firings(roots), Firings(sorted));
    SameElements(Firings(roots), Firings(sorted));
    r := AssignAll(sorted, rows, 0);
    forall s | s in Spots(sorted, 0)
      ensures Midway(rows[..], s.tree)
    {
      WrittenMidway(sorted, 0, rows[..], s);
    }
  }

  // --- what the rows promise --------------------------------------------------------------------

  /** A parent sits within the rows of its own leaves. */
  lemma {:induction false} RowInside(t: Tree, start: nat)
    ensures start as real <= RowOf(t, start) <= (start + LeavesOf(t) - 1) as real
  {
    if t.kids != [] {
      var last := |t.kids| - 1;
      RowInside(t.kids[0], start);
      RowInside(t.kids[last], start + Leaves(t.kids[..last]));
      assert t.kids == t.kids[..last] + [t.kids[last]];
      SpotsSnoc(t.kids[..last], t.kids[last], start);
      assert t.kids == [t.kids[0]] + t.kids[1..];
    }
  }

  ghost predicate Inside(spots: seq<Spot>, from: nat, count: nat) {
    forall s :: s in spots ==> from <= s.start && s.start + LeavesOf(s.tree) <= from + count
  }

  /** A subtree owns as many successive rows as it has leaves, and every subtree
      of it some of these. */
  lemma {:induction false} TreeInside(t: Tree, start: nat)
    ensures Inside(SpotsOf(t, start), start, LeavesOf(t))
    decreases t, 1
  {
    ForestInside(t.kids, start);
  }

  lemma {:induction false} ForestInside(ts: seq<Tree>, start: nat)
    ensures Inside(Spots(ts, start), start, Leaves(ts))
    decreases ts, 0
  {
    if ts != [] {
      TreeInside(ts[0], start);
      ForestInside(ts[1..], start + LeavesOf(ts[0]));
    }
  }

  /** All firings of a subtree lie in the rows it owns. */
  lemma TreeWithin(t: Tree, start: nat, s: Spot)
    requires s in SpotsOf(t, start)
    ensures start as real <= Row(s) <= (start + LeavesOf(t) - 1) as real
  {
    TreeInside(t, start);
    RowInside(s.tree, s.start);
  }

  lemma {:induction false} LeavesGrow(ts: seq<Tree>, i: nat, j: nat)
    requires i < j <= |ts|
    ensures Leaves(ts[..i]) + LeavesOf(ts[i]) <= Leaves(ts[..j])
  {
    assert ts[..i + 1] == ts[..i] + [ts[i]] && ts[..j] == ts[..i + 1] + ts[i + 1..j];
    SpotsSnoc(ts[..i], ts[i], 0);
    LeavesAppend(ts[..i + 1], ts[i + 1..j]);
  }

  /** Sibling subtrees own disjoint rows, in sibling order. */
  lemma SiblingsApart(ts: seq<Tree>, i: nat, j: nat, start: nat, a: Spot, b: Spot)
    requires i < j < |ts|
    requires a in SpotsOf(ts[i], start + Leaves(ts[..i])) && b in SpotsOf(ts[j], start + Leaves(ts[..j]))
    ensures Row(a) + 1.0 <= Row(b)
  {
    TreeWithin(ts[i], start + Leaves(ts[..i]), a);
    TreeWithin(ts[j], start + Leaves(ts[..j]), b);
    LeavesGrow(ts, i, j);
  }

  /** The leaves, top to bottom. */
  function LeafOrder(ts: seq<Tree>): (r: seq<nat>)
    ensures |r| == Leaves(ts)
  {
    if ts == [] then [] else (if ts[0].kids == [] then [ts[0].firing] else LeafOrder(ts[0].kids)) + LeafOrder(ts[1..])
  }

  /** The leaves take the rows 0, 1, 2, … once each. */
  lemma {:induction false} LeavesTakeRows(ts: seq<Tree>, start: nat, k: nat)
    requires k < Leaves(ts)
    ensures Spot(Tree(LeafOrder(ts)[k], []), start + k) in Spots(ts, start)
  {
    var t, n := ts[0], LeavesOf(ts[0]);
    LeafOrderSplit(t, ts[1..], k);
    SpotsCons(t, ts[1..], start);
    assert ts == [t] + ts[1..];
    if k >= n {
      LeavesTakeRows(ts[1..], start + n, k - n);
    } else if t.kids == [] {
      RootSpot(t, start);
    } else {
      LeavesTakeRows(t.kids, start, k);
    }
  }

  lemma LeafOrderSplit(t: Tree, rest: seq<Tree>, k: nat)
    requires k < LeavesOf(t) + Leaves(rest)
    ensures |LeafOrder([t] + rest)| == LeavesOf(t) + Leaves(rest)
    ensures LeafOrder([t] + rest)[k] == if k >= LeavesOf(t) then LeafOrder(rest)[k - LeavesOf(t)]
                                        else if t.kids == [] then t.firing else LeafOrder(t.kids)[k]
  {
    assert ([t] + rest)[1..] == rest;
  }

  // --- no overlap within a column ---------------------------------------------------------------

  /** Two subtrees that own no row in common. */
  predicate RowsApart(a: Spot, b: Spot) {
    a.start + LeavesOf(a.tree) <= b.start || b.start + LeavesOf(b.tree) <= a.start
  }

  predicate Apart(log: Log, a: Spot, b: Spot) {
    a.tree.firing < |log| && b.tree.firing < |log|
    && (log[a.tree.firing].col == log[b.tree.firing].col ==> RowsApart(a, b))
  }

  /** Within a column every firing has rows of its own for all that follows it. */
  ghost predicate AllApart(log: Log, spots: seq<Spot>) {
    forall x, y :: 0 <= x < y < |spots| ==> Apart(log, spots[x], spots[y])
  }

  ghost predicate ApartOf(log: Log, a: seq<Spot>, b: seq<Spot>) {
    forall s, t :: s in a && t in b ==> Apart(log, s, t)
  }

  lemma AllApartAppend(log: Log, a: seq<Spot>, b: seq<Spot>)
    requires AllApart(log, a) && AllApart(log, b) && ApartOf(log, a, b)
    ensures AllApart(log, a + b)
  {
    var c := a + b;
    forall x, y | 0 <= x < y < |c|
      ensures Apart(log, c[x], c[y])
    {
      if y < |a| {
        assert Apart(log, a[x], a[y]);
      } else if x < |a| {
        assert a[x] in a && b[y - |a|] in b;
      } else {
        assert Apart(log, b[x - |a|], b[y - |a|]);
      }
    }
  }

  /** Everything below a node lies in later columns. */
  ghost predicate After(log: Log, spots: seq<Spot>, col: int) {
    forall s :: s in spots ==> s.tree.firing < |log| && log[s.tree.firing].col > col
  }

  lemma {:induction false} DescendantsAfter(log: Log, ts: seq<Tree>, start: nat, col: int)
    requires forall k :: 0 <= k < |ts| ==> RisingTree(log, ts[k]) && log[ts[k].firing].col > col
    ensures After(log, Spots(ts, start), col)
    decreases ts
  {
    if ts != [] {
      DescendantsAfter(log, ts[0].kids, start, log[ts[0].firing].col);
      DescendantsAfter(log, ts[1..], start + LeavesOf(ts[0]), col);
    }
  }

  lemma InsideIsApart(log: Log, a: seq<Spot>, b: seq<Spot>, from: nat, n: nat, m: nat)
    requires Inside(a, from, n) && Inside(b, from + n, m) && After(log, a, -1) && After(log, b, -1)
    ensures ApartOf(log, a, b)
  {
  }

  lemma ParentIsApart(log: Log, s: Spot, below: seq<Spot>)
    requires s.tree.firing < |log| && After(log, below, log[s.tree.firing].col)
    ensures ApartOf(log, [s], below) && AllApart(log, [s])
  {
  }

  /** When columns rise along the edges, two firings of one column own no row in
      common. */
  lemma {:induction false} RisingIsApart(log: Log, ts: seq<Tree>, start: nat)
    requires forall k :: 0 <= k < |ts| ==> RisingTree(log, ts[k])
    ensures AllApart(log, Spots(ts, start))
    decreases ts, 0
  {
    if ts != [] {
      var t, rest := ts[0], start + LeavesOf(ts[0]);
      TreeIsApart(log, t, start);
      RisingIsApart(log, ts[1..], rest);
      TreeInside(t, start);
      ForestInside(ts[1..], rest);
      DescendantsAfter(log, ts[1..], rest, -1);
      DescendantsAfter(log, t.kids, start, log[t.firing].col);
      InsideIsApart(log, SpotsOf(t, start), Spots(ts[1..], rest), start, LeavesOf(t), Leaves(ts[1..]));
      AllApartAppend(log, SpotsOf(t, start), Spots(ts[1..], rest));
    }
  }

  lemma {:induction false} TreeIsApart(log: Log, t: Tree, start: nat)
    requires RisingTree(log, t)
    ensures AllApart(log, SpotsOf(t, start))
    decreases t, 1
  {
    RisingIsApart(log, t.kids, start);
    DescendantsAfter(log, t.kids, start, log[t.firing].col);
    ParentIsApart(log, Spot(t, start), Spots(t.kids, start));
    AllApartAppend(log, [Spot(t, start)], Spots(t.kids, start));
  }

  predicate Clear(log: Log, a: Spot, b: Spot) {
    a.tree.firing < |log| && b.tree.firing < |log|
    && (log[a.tree.firing].col == log[b.tree.firing].col ==> Row(a) + 1.0 <= Row(b) || Row(b) + 1.0 <= Row(a))
  }

  /** Cards of one column are at least a whole row apart. */
  ghost predicate AllClear(log: Log, spots: seq<Spot>) {
    forall x, y :: 0 <= x < y < |spots| ==> Clear(log, spots[x], spots[y])
  }

  lemma ApartIsClear(log: Log, spots: seq<Spot>)
    requires AllApart(log, spots)
    ensures AllClear(log, spots)
  {
    forall x, y | 0 <= x < y < |spots|
      ensures Clear(log, spots[x], spots[y])
    {
      assert Apart(log, spots[x], spots[y]);
      RowInside(spots[x].tree, spots[x].start);
      RowInside(spots[y].tree, spots[y].start);
    }
  }

  // --- children within the rows of their parents ------------------------------------------------

  /** `s` and its child `k` are both laid out, and the child within the rows of
      `s`. */
  predicate Nested(spots: seq<Spot>, s: Spot, k: nat) {
    s in spots && k < |s.tree.kids| && KidOf(s, k) in spots && !RowsApart(s, KidOf(s, k))
  }

  lemma NestedIn(some: seq<Spot>, all: seq<Spot>, s: Spot, k: nat)
    requires Nested(some, s, k) && forall x :: x in some ==> x in all
    ensures Nested(all, s, k)
  {
  }

  lemma KidNests(s: Spot, k: nat, below: seq<Spot>)
    requires k < |s.tree.kids| && KidOf(s, k) in below && Inside(below, s.start, LeavesOf(s.tree))
    ensures Nested([s] + below, s, k)
  {
    var c := KidOf(s, k);
    assert s.start <= c.start && c.start + LeavesOf(c.tree) <= s.start + LeavesOf(s.tree);
    assert ([s] + below)[0] == s;
  }

  lemma BelowInside(s: Spot)
    requires s.tree.kids != []
    ensures Inside(Spots(s.tree.kids, s.start), s.start, LeavesOf(s.tree))
  {
    ForestInside(s.tree.kids, s.start);
  }

  lemma RootNests(s: Spot, k: nat)
    requires k < |s.tree.kids|
    ensures Nested(SpotsOf(s.tree, s.start), s, k)
  {
    KidSpot(s, k);
    BelowInside(s);
    KidNests(s, k, Spots(s.tree.kids, s.start));
  }

  lemma ChildOfRoot(links: seq<Link>, t: Tree, j: nat) returns (k: nat)
    requires Threads(links, t) && j < |links| && links[j] == Under(t.firing)
    ensures k < |t.kids| && t.kids[k].firing == j
  {
    assert j in Kids(links, Under(t.firing), |links|);
    k :| 0 <= k < |t.kids| && t.kids[k].firing == j;
  }

  /** A firing that hangs under another is laid out inside the rows of that one. */
  lemma {:induction false} ChildInside(links: seq<Link>, ts: seq<Tree>, start: nat, p: nat, j: nat)
    returns (s: Spot, k: nat)
    requires forall x :: 0 <= x < |ts| ==> Threads(links, ts[x])
    requires p in Firings(ts) && j < |links| && links[j] == Under(p)
    ensures Nested(Spots(ts, start), s, k) && Threads(links, s.tree)
    ensures s.tree.firing == p && s.tree.kids[k].firing == j
    decreases ts
  {
    var t, rest := ts[0], start + LeavesOf(ts[0]);
    SpotsGrow(ts, start);
    if p == t.firing {
      s := Spot(t, start);
      k := ChildOfRoot(links, t, j);
      RootNests(s, k);
      NestedIn(SpotsOf(t, start), Spots(ts, start), s, k);
    } else if p in Firings(t.kids) {
      s, k := ChildInside(links, t.kids, start, p, j);
      NestedIn(Spots(t.kids, start), Spots(ts, start), s, k);
    } else {
      s, k := ChildInside(links, ts[1..], rest, p, j);
      NestedIn(Spots(ts[1..], rest), Spots(ts, start), s, k);
    }
  }

  lemma NestedNotApart(log: Log, spots: seq<Spot>, s: Spot, k: nat)
    requires Nested(spots, s, k) && s.tree.firing != s.tree.kids[k].firing
    requires s.tree.firing < |log| && s.tree.kids[k].firing < |log|
             && log[s.tree.firing].col == log[s.tree.kids[k].firing].col
    ensures !AllApart(log, spots)
    ensures Row(s) == Row(KidOf(s, k)) ==> !AllClear(log, spots)
  {
    var x :| 0 <= x < |spots| && spots[x] == s;
    var y :| 0 <= y < |spots| && spots[y] == KidOf(s, k);
    assert !Apart(log, s, KidOf(s, k)) && !Apart(log, KidOf(s, k), s);
    assert Row(s) == Row(KidOf(s, k)) ==> !Clear(log, s, KidOf(s, k)) && !Clear(log, KidOf(s, k), s);
  }

  lemma OnlyChildRow(s: Spot)
    requires |s.tree.kids| == 1
    ensures Row(s) == Row(KidOf(s, 0))
  {
    assert s.tree.kids[..0] == [];
  }

  // --- the split view ---------------------------------------------------------------------------

  lemma RootThreads(links: seq<Link>, t: Tree)
    requires t.firing < |links| && |t.kids| == |Kids(links, Under(t.firing), |links|)|
    requires forall k :: 0 <= k < |t.kids| ==>
             t.kids[k].firing == Kids(links, Under(t.firing), |links|)[k] && Threads(links, t.kids[k])
    ensures Threads(links, t)
  {
    var below := Kids(links, Under(t.firing), |links|);
    forall j | j in below
      ensures HasKid(t.kids, j)
    {
      var k :| 0 <= k < |below| && below[k] == j;
      assert t.kids[k].firing == j;
    }
  }

  lemma {:induction false} GrownThreads(log: Log, links: seq<Link>, kids: seq<nat>, bound: nat)
    requires Climbs(log, links) && forall k :: k in kids ==> k < |log| && Rank(log, k) < bound
    ensures var ts := GrowAll(log, links, kids, bound);
            |ts| == |kids| && forall k :: 0 <= k < |ts| ==> ts[k].firing == kids[k] && Threads(links, ts[k])
    decreases bound, |kids|
  {
    if kids != [] {
      var i := kids[0];
      assert i in kids && forall k :: k in kids[1..] ==> k in kids;
      KidsRank(log, links, i);
      var below := Kids(links, Under(i), |links|);
      GrownThreads(log, links, below, Rank(log, i));
      GrownThreads(log, links, kids[1..], bound);
      RootThreads(links, Grow(log, links, i));
    }
  }

  /** The forest of a split with every list of children sorted. */
  ghost function Arranged(log: Log, split: nat, order: seq<Tree> -> seq<Tree>): seq<Tree>
    requires Permutes(order) && Climbs(log, Links(log, split))
  {
    SortForest(order, Forest(log, Links(log, split)))
  }

  lemma ForestThreads(log: Log, split: nat, order: seq<Tree> -> seq<Tree>)
    requires Permutes(order)
    ensures Climbs(log, Links(log, split))
    ensures var sorted := Arranged(log, split, order); forall k :: 0 <= k < |sorted| ==>
            Threads(Links(log, split), sorted[k])
  {
    var links := Links(log, split);
    LinksClimb(log, split);
    RootsRank(log, links);
    var roots := Forest(log, links);
    GrownThreads(log, links, Kids(links, Root, |links|), Bound(log, |log|));
    var kids := order(roots);
    SameElements(kids, roots);
    forall k | 0 <= k < |kids|
      ensures Threads(links, SortKids(order, kids[k]))
    {
      assert kids[k] in roots;
      SortKeepsThreads(order, links, kids[k]);
    }
  }

  lemma LinksRise(log: Log, split: nat)
    requires OnePerColumn(log, split)
    ensures LinksRising(log, Links(log, split))
  {
    var links := Links(log, split);
    LinksClimb(log, split);
    ColumnsRiseIff(log, split);
    forall i: nat | i < |links| && links[i].Under?
      ensures links[i].parent < |log| && log[links[i].parent].col < log[i].col
    {
      LinkIs(log, split, i, ParentOf(log, split, i));
    }
  }

  /** The whole view: the forest of a split, sorted in any way and laid out, has
      every firing of the branch once. */
  lemma SplitViewIsWhole(log: Log, split: nat, order: seq<Tree> -> seq<Tree>)
    requires Permutes(order)
    ensures Climbs(log, Links(log, split))
    ensures forall i: nat :: multiset(Firings(Arranged(log, split, order)))[i] == if InSub(log, split, i) then 1 else 0
  {
    EveryFiringOnce(log, split);
    SortForestFirings(order, Forest(log, Links(log, split)));
  }

  /** Every execution of a column has rows of its own exactly if no aggregate fires
      twice in one column. */
  lemma SplitViewApartIff(log: Log, split: nat, order: seq<Tree> -> seq<Tree>)
    requires Permutes(order)
    ensures Climbs(log, Links(log, split))
    ensures AllApart(log, Spots(Arranged(log, split, order), 0)) <==> OnePerColumn(log, split)
  {
    LinksClimb(log, split);
    if OnePerColumn(log, split) {
      OnePerColumnIsApart(log, split, order);
    } else {
      var i: nat, j: nat :| InSub(log, split, i) && InSub(log, split, j) && i < j && log[i].aggId == log[j].aggId
          && log[i].col == log[j].col;
      LaterInColumn(log, split, i, j);
      LinkIs(log, split, j, ParentOf(log, split, j));
      SameColumnIsNotApart(log, split, order, j);
    }
  }

  lemma OnePerColumnIsApart(log: Log, split: nat, order: seq<Tree> -> seq<Tree>)
    requires Permutes(order) && OnePerColumn(log, split)
    ensures Climbs(log, Links(log, split)) && AllApart(log, Spots(Arranged(log, split, order), 0))
  {
    ForestThreads(log, split, order);
    LinksRise(log, split);
    var sorted := Arranged(log, split, order);
    forall k | 0 <= k < |sorted|
      ensures RisingTree(log, sorted[k])
    {
      ThreadsRise(log, Links(log, split), sorted[k]);
    }
    RisingIsApart(log, sorted, 0);
  }

  lemma SameColumnIsNotApart(log: Log, split: nat, order: seq<Tree> -> seq<Tree>, j: nat)
    requires Permutes(order) && Climbs(log, Links(log, split)) && j < |log|
    requires var l := Links(log, split)[j]; l.Under? && log[l.parent].col == log[j].col
    ensures !AllApart(log, Spots(Arranged(log, split, order), 0))
  {
    var sorted, p := Arranged(log, split, order), Links(log, split)[j].parent;
    ParentIsPlaced(log, split, order, j);
    var s, k := ChildInside(Links(log, split), sorted, 0, p, j);
    NestedNotApart(log, Spots(sorted, 0), s, k);
  }

  lemma ParentIsPlaced(log: Log, split: nat, order: seq<Tree> -> seq<Tree>, j: nat)
    requires Permutes(order) && Climbs(log, Links(log, split)) && j < |log| && Links(log, split)[j].Under?
    ensures var sorted := Arranged(log, split, order);
            Links(log, split)[j].parent in Firings(sorted)
              && forall k :: 0 <= k < |sorted| ==> Threads(Links(log, split), sorted[k])
  {
    ForestThreads(log, split, order);
    SplitViewIsWhole(log, split, order);
    LinksClimb(log, split);
    assert multiset(Firings(Arranged(log, split, order)))[Links(log, split)[j].parent] == 1;
  }

  /** As long as no aggregate fires twice in one column, cards of the same column
      are at least one row apart. */
  lemma SplitViewIsClear(log: Log, split: nat, order: seq<Tree> -> seq<Tree>)
    requires Permutes(order)
    ensures Climbs(log, Links(log, split))
    ensures OnePerColumn(log, split) ==> AllClear(log, Spots(Arranged(log, split, order), 0))
  {
    LinksClimb(log, split);
    if OnePerColumn(log, split) {
      OnePerColumnIsApart(log, split, order);
      ApartIsClear(log, Spots(Arranged(log, split, order), 0));
    }
  }

  /** An only child gets the row of its parent; within one column the two cards
      coincide. */
  lemma OnlyChildSharesRow(log: Log, split: nat, order: seq<Tree> -> seq<Tree>, p: nat, j: nat)
    returns (s: Spot, c: Spot)
    requires Permutes(order) && Kids(Links(log, split), Under(p), |log|) == [j]
    ensures Climbs(log, Links(log, split)) && j < |log| && p < |log|
    ensures var spots := Spots(Arranged(log, split, order), 0);
            && s in spots && s.tree.firing == p && c in spots && c.tree.firing == j && Row(s) == Row(c)
            && (log[p].col == log[j].col ==> !AllClear(log, spots))
  {
    LinksClimb(log, split);
    var links, sorted := Links(log, split), Arranged(log, split, order);
    assert j in Kids(links, Under(p), |log|);
    ParentIsPlaced(log, split, order, j);
    var k;
    s, k := ChildInside(links, sorted, 0, p, j);
    OnlyChildRow(s);
    c := KidOf(s, 0);
    if log[p].col == log[j].col {
      NestedNotApart(log, Spots(sorted, 0), s, k);
    }
  }

  /** Two firings of one aggregate in one column: the second hangs alone below the
      first, so both cards get the same cell. */
  lemma TwiceInAColumnOverlaps(order: seq<Tree> -> seq<Tree>)
    requires Permutes(order)
    ensures var log := [Firing(1, "order-7", []), Firing(1, "order-7", [])];
            Climbs(log, Links(log, 1)) && !AllClear(log, Spots(Arranged(log, 1, order), 0))
  {
    var log := [Firing(1, "order-7", []), Firing(1, "order-7", [])];
    TwiceLinks();
    var links := Links(log, 1);
    assert Kids(links, Under(0), 0) == [] && Kids(links, Under(0), 1) == [] && Kids(links, Under(0), 2) == [1];
    var s, c := OnlyChildSharesRow(log, 1, order, 0, 1);
  }

  lemma TwiceLinks()
    ensures Links([Firing(1, "order-7", []), Firing(1, "order-7", [])], 1) == [Root, Under(0)]
  {
    var log := [Firing(1, "order-7", []), Firing(1, "order-7", [])];
    ChainParentIsPrevious(log, 1, 0);
    ChainParentIsPrevious(log, 1, 1);
    assert InSub(log, 1, 0) && InSub(log, 1, 1) && Earlier(log, 0, 1);
    LinkIs(log, 1, 0, ParentOf(log, 1, 0));
    LinkIs(log, 1, 1, ParentOf(log, 1, 1));
    assert Links(log, 1) == [Root, Under(0)];
  }
}
