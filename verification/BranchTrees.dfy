/** The threaded firings seen as trees: each firing of the branch occurs once. */
module BranchTrees {
  import opened Common
  import opened BranchForest

  /** Every parent is itself in the branch and lies strictly below its child. */
  ghost predicate Climbs(log: Log, links: seq<Link>) {
    && |links| == |log|
    && forall i :: 0 <= i < |links| && links[i].Under? ==>
         Earlier(log, links[i].parent, i) && links[links[i].parent] != Outside
  }

  lemma LinksClimb(log: Log, split: nat)
    ensures Climbs(log, Links(log, split))
    ensures forall i: nat :: i < |log| ==> (Links(log, split)[i] == Outside <==> !InSub(log, split, i))
  {
    var links := Links(log, split);
    forall i: nat | i < |links|
      ensures links[i].Under? ==> Earlier(log, links[i].parent, i) && links[links[i].parent] != Outside
      ensures links[i] == Outside <==> !InSub(log, split, i)
    {
      LinkClimbs(log, split, i);
    }
  }

  lemma LinkClimbs(log: Log, split: nat, i: nat)
    requires i < |log|
    ensures var links := Links(log, split);
            && (links[i] == Outside <==> !InSub(log, split, i))
            && (links[i].Under? ==> Earlier(log, links[i].parent, i) && links[links[i].parent] != Outside)
  {
    if InSub(log, split, i) {
      var parent := ParentOf(log, split, i);
      LinkIs(log, split, i, parent);
      if parent.Some? {
        ParentBelow(log, split, i);
        LinkIs(log, split, parent.value, ParentOf(log, split, parent.value));
      }
    }
  }

  lemma LinkIs(log: Log, split: nat, i: nat, parent: Option<nat>)
    requires InSub(log, split, i) && parent == ParentOf(log, split, i)
    ensures Links(log, split)[i] == if parent.Some? then Under(parent.value) else Root
  {
  }

  // --- growing trees ---------------------------------------------------------------------------

  ghost function MaxCol(log: Log): (m: nat)
    ensures forall i :: 0 <= i < |log| ==> log[i].col <= m
  {
    if log == [] then 0
    else
      var m := MaxCol(log[..|log| - 1]);
      if log[|log| - 1].col > m then log[|log| - 1].col else m
  }

  /** Later firings have a smaller rank. */
  ghost function Rank(log: Log, i: nat): nat
    requires i < |log|
  {
    (MaxCol(log) - log[i].col) * (|log| + 1) + (|log| - i)
  }

  lemma RankDrops(log: Log, a: nat, b: nat)
    requires Earlier(log, a, b)
    ensures Rank(log, b) < Rank(log, a)
  {
    var n, x, y := |log| + 1, MaxCol(log) - log[a].col, MaxCol(log) - log[b].col;
    if log[a].col < log[b].col {
      Scaled(x, y + 1, n);
      assert x * n >= y * n + n;
    }
  }

  lemma Scaled(x: nat, y: nat, n: nat)
    requires y <= x
    ensures y * n <= x * n
  {
  }

  ghost function Grow(log: Log, links: seq<Link>, i: nat): Tree
    requires Climbs(log, links) && i < |log|
    decreases Rank(log, i), 1, 0
  {
    KidsRank(log, links, i);
    Tree(i, GrowAll(log, links, Kids(links, Under(i), |links|), Rank(log, i)))
  }

  ghost function GrowAll(log: Log, links: seq<Link>, kids: seq<nat>, bound: nat): seq<Tree>
    requires Climbs(log, links) && forall k :: k in kids ==> k < |log| && Rank(log, k) < bound
    decreases bound, 0, |kids|
  {
    if kids == [] then []
    else
      assert kids[0] in kids && forall k :: k in kids[1..] ==> k in kids;
      [Grow(log, links, kids[0])] + GrowAll(log, links, kids[1..], bound)
  }

  lemma KidsRank(log: Log, links: seq<Link>, i: nat)
    requires Climbs(log, links) && i < |log|
    ensures forall k :: k in Kids(links, Under(i), |links|) ==> k < |log| && Rank(log, k) < Rank(log, i)
  {
    forall k | k in Kids(links, Under(i), |links|)
      ensures k < |log| && Rank(log, k) < Rank(log, i)
    {
      RankDrops(log, i, k);
    }
  }

  ghost function Bound(log: Log, n: nat): (b: nat)
    requires n <= |log|
    ensures forall k :: 0 <= k < n ==> Rank(log, k) < b
  {
    if n == 0 then 0
    else
      var b, r := Bound(log, n - 1), Rank(log, n - 1);
      if r < b then b else r + 1
  }

  /** The forest the build leaves behind. */
  ghost function Forest(log: Log, links: seq<Link>): seq<Tree>
    requires Climbs(log, links)
  {
    GrowAll(log, links, Kids(links, Root, |links|), Bound(log, |log|))
  }

  // --- every firing once -----------------------------------------------------------------------

  /** `a` is `i` or one of its ancestors. */
  ghost predicate Reaches(log: Log, links: seq<Link>, i: nat, a: nat)
    requires Climbs(log, links) && i < |log|
    decreases log[i].col, i
  {
    i == a || (links[i].Under? && Reaches(log, links, links[i].parent, a))
  }

  lemma {:induction false} AncestorsEarlier(log: Log, links: seq<Link>, i: nat, a: nat)
    requires Climbs(log, links) && i < |log| && Reaches(log, links, i, a) && i != a
    ensures Earlier(log, a, i)
    decreases log[i].col, i
  {
    var p := links[i].parent;
    if p != a {
      AncestorsEarlier(log, links, p, a);
    }
  }

  lemma {:induction false} ReachesThrough(log: Log, links: seq<Link>, i: nat, c: nat)
    requires Climbs(log, links) && i < |log| && c < |log| && Reaches(log, links, i, c) && links[c].Under?
    ensures Reaches(log, links, i, links[c].parent) && i != links[c].parent
    decreases log[i].col, i
  {
    if i != c {
      ReachesThrough(log, links, links[i].parent, c);
      AncestorsEarlier(log, links, links[i].parent, links[c].parent);
    }
  }

  /** Of two ancestors that hang at the same place, only one lies above `i`. */
  lemma {:induction false} OneSibling(log: Log, links: seq<Link>, i: nat, c: nat, d: nat)
    requires Climbs(log, links) && i < |log| && c < |log| && d < |log| && links[c] == links[d] != Outside
    requires Reaches(log, links, i, c) && Reaches(log, links, i, d)
    ensures c == d
    decreases log[i].col, i
  {
    if i == c && i != d {
      AboveSibling(log, links, c, d);
    } else if i == d && i != c {
      AboveSibling(log, links, d, c);
    } else if i != c {
      OneSibling(log, links, links[i].parent, c, d);
    }
  }

  lemma AboveSibling(log: Log, links: seq<Link>, c: nat, d: nat)
    requires Climbs(log, links) && c < |log| && d < |log| && links[c] == links[d] && c != d
    ensures !Reaches(log, links, c, d)
  {
    if links[c].Under? && Reaches(log, links, links[c].parent, d) {
      ReachesThrough(log, links, links[c].parent, d);
    }
  }

  /** What `at` stands for: everything in the branch, or the firings below one. */
  ghost predicate Covers(log: Log, links: seq<Link>, at: Link, i: nat)
    requires Climbs(log, links) && i < |log|
  {
    match at
    case Outside => false
    case Root => links[i] != Outside
    case Under(a) => i != a && Reaches(log, links, i, a)
  }

  lemma {:induction false} SomeSibling(log: Log, links: seq<Link>, at: Link, i: nat) returns (c: nat)
    requires Climbs(log, links) && i < |log| && Covers(log, links, at, i)
    ensures c < |log| && links[c] == at && Reaches(log, links, i, c)
    decreases log[i].col, i
  {
    if links[i] == at {
      c := i;
    } else {
      c := SomeSibling(log, links, at, links[i].parent);
    }
  }

  /** How many of `kids` lie above `i` or are `i`. */
  ghost function Hits(log: Log, links: seq<Link>, kids: seq<nat>, i: nat): nat
    requires Climbs(log, links) && i < |log|
  {
    if kids == [] then 0 else (if Reaches(log, links, i, kids[0]) then 1 else 0) + Hits(log, links, kids[1..], i)
  }

  lemma {:induction false} NoHits(log: Log, links: seq<Link>, kids: seq<nat>, i: nat)
    requires Climbs(log, links) && i < |log| && forall k :: k in kids ==> !Reaches(log, links, i, k)
    ensures Hits(log, links, kids, i) == 0
  {
    if kids != [] {
      NoHits(log, links, kids[1..], i);
    }
  }

  lemma {:induction false} OneHit(log: Log, links: seq<Link>, kids: seq<nat>, i: nat, c: nat)
    requires Climbs(log, links) && i < |log| && Distinct(kids)
    requires c in kids && forall k :: k in kids ==> (Reaches(log, links, i, k) <==> k == c)
    ensures Hits(log, links, kids, i) == 1
  {
    if kids[0] == c {
      NoHits(log, links, kids[1..], i);
    } else {
      OneHit(log, links, kids[1..], i, c);
    }
  }

  lemma KidsHits(log: Log, links: seq<Link>, at: Link, i: nat)
    requires Climbs(log, links) && i < |log| && at != Outside
    ensures Hits(log, links, Kids(links, at, |links|), i) == if Covers(log, links, at, i) then 1 else 0
  {
    var kids := Kids(links, at, |links|);
    if Covers(log, links, at, i) {
      var c := SomeSibling(log, links, at, i);
      forall k | k in kids
        ensures Reaches(log, links, i, k) <==> k == c
      {
        if Reaches(log, links, i, k) {
          OneSibling(log, links, i, k, c);
        }
      }
      OneHit(log, links, kids, i, c);
    } else {
      forall k | k in kids
        ensures !Reaches(log, links, i, k)
      {
        if Reaches(log, links, i, k) {
          ReachedIsCovered(log, links, at, i, k);
        }
      }
      NoHits(log, links, kids, i);
    }
  }

  lemma ReachedIsCovered(log: Log, links: seq<Link>, at: Link, i: nat, k: nat)
    requires Climbs(log, links) && i < |log| && k < |log| && at != Outside && links[k] == at
             && Reaches(log, links, i, k)
    ensures Covers(log, links, at, i)
  {
    if at.Under? {
      ReachesThrough(log, links, i, k);
    }
  }

  lemma {:induction false} GrowCounts(log: Log, links: seq<Link>, a: nat, i: nat)
    requires Climbs(log, links) && a < |log| && i < |log|
    ensures multiset(FiringsOf(Grow(log, links, a)))[i] == if Reaches(log, links, i, a) then 1 else 0
    decreases Rank(log, a), 1, 0
  {
    KidsRank(log, links, a);
    var kids := Kids(links, Under(a), |links|);
    GrowAllCounts(log, links, kids, Rank(log, a), i);
    KidsHits(log, links, Under(a), i);
    var below := Firings(GrowAll(log, links, kids, Rank(log, a)));
    assert FiringsOf(Grow(log, links, a)) == [a] + below;
  }

  lemma GrownCons(log: Log, links: seq<Link>, kids: seq<nat>, bound: nat)
    requires Climbs(log, links) && kids != [] && forall k :: k in kids ==> k < |log| && Rank(log, k) < bound
    ensures kids[0] in kids && kids[0] < |log| && forall k :: k in kids[1..] ==> k < |log| && Rank(log, k) < bound
    ensures Firings(GrowAll(log, links, kids, bound))
         == FiringsOf(Grow(log, links, kids[0])) + Firings(GrowAll(log, links, kids[1..], bound))
  {
    assert kids[0] in kids && forall k :: k in kids[1..] ==> k in kids;
    var t, ts := Grow(log, links, kids[0]), GrowAll(log, links, kids[1..], bound);
    assert ([t] + ts)[1..] == ts;
  }

  lemma {:induction false} GrowAllCounts(log: Log, links: seq<Link>, kids: seq<nat>, bound: nat, i: nat)
    requires Climbs(log, links) && i < |log| && forall k :: k in kids ==> k < |log| && Rank(log, k) < bound
    ensures multiset(Firings(GrowAll(log, links, kids, bound)))[i] == Hits(log, links, kids, i)
    decreases bound, 0, |kids|
  {
    if kids != [] {
      GrownCons(log, links, kids, bound);
      GrowCounts(log, links, kids[0], i);
      GrowAllCounts(log, links, kids[1..], bound, i);
      var t, ts := Grow(log, links, kids[0]), GrowAll(log, links, kids[1..], bound);
      assert multiset(FiringsOf(t) + Firings(ts)) == multiset(FiringsOf(t)) + multiset(Firings(ts));
    }
  }

  lemma {:induction false} GrownFirings(log: Log, links: seq<Link>, kids: seq<nat>, bound: nat, f: nat)
    requires Climbs(log, links) && forall k :: k in kids ==> k < |log| && Rank(log, k) < bound
    requires f in Firings(GrowAll(log, links, kids, bound))
    ensures f < |log|
    decreases bound, |kids|
  {
    if kids != [] {
      var k := kids[0];
      assert k in kids;
      KidsRank(log, links, k);
      GrownCons(log, links, kids, bound);
      var t, ts := Grow(log, links, k), GrowAll(log, links, kids[1..], bound);
      if f in Firings(ts) {
        GrownFirings(log, links, kids[1..], bound, f);
      } else if f != k {
        assert f in Firings(t.kids);
        GrownFirings(log, links, Kids(links, Under(k), |links|), Rank(log, k), f);
      }
    }
  }

  lemma RootsRank(log: Log, links: seq<Link>)
    requires Climbs(log, links)
    ensures forall k :: k in Kids(links, Root, |links|) ==> k < |log| && Rank(log, k) < Bound(log, |log|)
  {
  }

  lemma ForestCounts(log: Log, links: seq<Link>, i: nat)
    requires Climbs(log, links)
    ensures multiset(Firings(Forest(log, links)))[i] == if i < |log| && links[i] != Outside then 1 else 0
  {
    RootsRank(log, links);
    if i < |log| {
      GrowAllCounts(log, links, Kids(links, Root, |links|), Bound(log, |log|), i);
      KidsHits(log, links, Root, i);
    } else if i in Firings(Forest(log, links)) {
      GrownFirings(log, links, Kids(links, Root, |links|), Bound(log, |log|), i);
    }
  }

  /** Conservation: every firing at or right of the split occurs in the forest
      exactly once, reachable from a root, and nothing else does. */
  lemma EveryFiringOnce(log: Log, split: nat)
    ensures Climbs(log, Links(log, split))
    ensures forall i: nat ::
              multiset(Firings(Forest(log, Links(log, split))))[i] == if InSub(log, split, i) then 1 else 0
  {
    LinksClimb(log, split);
    forall i: nat
      ensures multiset(Firings(Forest(log, Links(log, split))))[i] == if InSub(log, split, i) then 1 else 0
    {
      ForestCounts(log, Links(log, split), i);
    }
  }
}
