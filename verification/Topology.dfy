/** Kahn's algorithm over the `follows` graph, and the linear order built on it. */
module Topology {
  import opened Common
  import opened Graph

  /** `keys` lists the nodes of `g`, each once, and every predecessor is a node. */
  ghost predicate Listing(keys: seq<Node>, g: Preds) {
    Distinct(keys) && Elements(keys) == g.Keys && Closed(g)
  }

  // --- successor lists -----------------------------------------------------------

  /** How often `b` stands in the list of `a` after `i` events and `j` predecessors
      of the next one. */
  ghost function Due(keys: seq<Node>, g: Preds, i: nat, j: nat, a: Node, b: Node): nat
    requires i <= |keys| && Elements(keys) == g.Keys && (i < |keys| ==> j <= |g[keys[i]]|)
  {
    if b in keys[..i] then multiset(g[b])[a]
    else if i < |keys| && b == keys[i] then multiset(g[b][..j])[a]
    else 0
  }

  ghost predicate SuccessorsUpTo(keys: seq<Node>, g: Preds, succ: Preds, i: nat, j: nat)
    requires i <= |keys| && Elements(keys) == g.Keys && (i < |keys| ==> j <= |g[keys[i]]|)
  {
    succ.Keys == g.Keys && forall a, b :: a in g ==> multiset(succ[a])[b] == Due(keys, g, i, j, a, b)
  }

  /** Each occurrence of `p` in `e.predecessors` pushes `e` onto `p`'s list. */
  method Successors(keys: seq<Node>, g: Preds) returns (succ: Preds)
    requires Listing(keys, g)
    ensures Reversal(g, succ)
  {
    succ := map k | k in keys :: [];
    for i := 0 to |keys|
      invariant SuccessorsUpTo(keys, g, succ, i, 0)
    {
      var e := keys[i];
      for j := 0 to |g[e]|
        invariant SuccessorsUpTo(keys, g, succ, i, j)
      {
        var p := g[e][j];
        ghost var before := succ;
        succ := succ[p := succ[p] + [e]];
        PushedOne(keys, g, before, succ, i, j);
      }
      RowDone(keys, g, succ, i);
    }
    AllDone(keys, g, succ);
  }

  lemma AllDone(keys: seq<Node>, g: Preds, succ: Preds)
    requires Listing(keys, g) && SuccessorsUpTo(keys, g, succ, |keys|, 0)
    ensures Reversal(g, succ)
  {
    forall a, b | a in g
      ensures multiset(succ[a])[b] == if b in g then multiset(g[b])[a] else 0
    {
      AllDue(keys, g, a, b);
    }
    forall a, b | a in g && b in succ[a]
      ensures b in g
    {
      assert b in multiset(succ[a]);
    }
  }

  lemma AllDue(keys: seq<Node>, g: Preds, a: Node, b: Node)
    requires Listing(keys, g)
    ensures Due(keys, g, |keys|, 0, a, b) == if b in g then multiset(g[b])[a] else 0
  {
    assert keys[..|keys|] == keys;
    assert b in keys <==> b in Elements(keys);
  }

  lemma PushedOne(keys: seq<Node>, g: Preds, before: Preds, succ: Preds, i: nat, j: nat)
    requires Listing(keys, g) && i < |keys| && j < |g[keys[i]]|
    requires SuccessorsUpTo(keys, g, before, i, j)
    requires var p := g[keys[i]][j]; succ == before[p := before[p] + [keys[i]]]
    ensures SuccessorsUpTo(keys, g, succ, i, j + 1)
  {
    var e, p := keys[i], g[keys[i]][j];
    forall a, b | a in g
      ensures multiset(succ[a])[b] == Due(keys, g, i, j + 1, a, b)
    {
      DueOnce(keys, g, i, j, a, b);
      assert multiset(succ[a])[b] == multiset(before[a])[b] + if a == p && b == e then 1 else 0;
    }
  }

  lemma DueOnce(keys: seq<Node>, g: Preds, i: nat, j: nat, a: Node, b: Node)
    requires Listing(keys, g) && i < |keys| && j < |g[keys[i]]|
    ensures Due(keys, g, i, j + 1, a, b) == Due(keys, g, i, j, a, b)
            + if a == g[keys[i]][j] && b == keys[i] then 1 else 0
  {
    var ps := g[keys[i]];
    assert keys[i] !in keys[..i];
    assert ps[..j + 1] == ps[..j] + [ps[j]];
  }

  lemma RowDone(keys: seq<Node>, g: Preds, succ: Preds, i: nat)
    requires Listing(keys, g) && i < |keys|
    requires SuccessorsUpTo(keys, g, succ, i, |g[keys[i]]|)
    ensures SuccessorsUpTo(keys, g, succ, i + 1, 0)
  {
    forall a, b | a in g
      ensures Due(keys, g, i, |g[keys[i]]|, a, b) == Due(keys, g, i + 1, 0, a, b)
    {
      RowDue(keys, g, i, a, b);
    }
  }

  lemma RowDue(keys: seq<Node>, g: Preds, i: nat, a: Node, b: Node)
    requires Listing(keys, g) && i < |keys|
    ensures Due(keys, g, i, |g[keys[i]]|, a, b) == Due(keys, g, i + 1, 0, a, b)
  {
    assert g[keys[i]][..|g[keys[i]]|] == g[keys[i]];
    assert keys[..i + 1] == keys[..i] + [keys[i]];
  }

  // --- Kahn ----------------------------------------------------------------------

  /** The occurrences in `ps` that are not yet emitted. */
  ghost function Open(ps: seq<Node>, done: set<Node>): nat {
    if ps == [] then 0 else Open(ps[..|ps| - 1], done) + if ps[|ps| - 1] in done then 0 else 1
  }

  lemma {:induction false} OpenZero(ps: seq<Node>, done: set<Node>)
    ensures Open(ps, done) == 0 <==> forall a :: a in ps ==> a in done
  {
    if ps != [] {
      OpenZero(ps[..|ps| - 1], done);
      assert ps == ps[..|ps| - 1] + [ps[|ps| - 1]];
    }
  }

  lemma {:induction false} OpenAfter(ps: seq<Node>, done: set<Node>, k: Node)
    requires k !in done
    ensures Open(ps, done) == Open(ps, done + {k}) + multiset(ps)[k]
  {
    if ps != [] {
      OpenAfter(ps[..|ps| - 1], done, k);
      assert ps == ps[..|ps| - 1] + [ps[|ps| - 1]];
    }
  }

  lemma {:induction false} OpenNone(ps: seq<Node>)
    ensures Open(ps, {}) == |ps|
  {
    if ps != [] {
      OpenNone(ps[..|ps| - 1]);
    }
  }

  /** A complete order in which every predecessor comes first. */
  ghost predicate IsTopological(g: Preds, order: seq<Node>) {
    && Distinct(order)
    && Elements(order) == g.Keys
    && PredsFirst(g, order)
  }

  ghost predicate PredsFirst(g: Preds, order: seq<Node>) {
    forall i, a :: 0 <= i < |order| && order[i] in g && a in g[order[i]] ==> a in order[..i]
  }

  ghost predicate QueueExact(g: Preds, indegree: map<Node, int>, queue: seq<Node>, order: seq<Node>) {
    && indegree.Keys == g.Keys
    && Distinct(queue) && Distinct(order)
    && (forall x :: x in queue <==> x in g && x !in order && indegree[x] == 0)
    && (forall x :: x in order ==> x in g)
  }

  ghost predicate OuterInvariant(g: Preds, indegree: map<Node, int>, queue: seq<Node>, order: seq<Node>) {
    && QueueExact(g, indegree, queue, order)
    && (forall b :: b in g ==> indegree[b] == Open(g[b], Elements(order)))
    && PredsFirst(g, order)
  }

  /** Halfway through the successors of `k`, which was just appended to `order`. */
  ghost predicate InnerInvariant(g: Preds, succ: Preds, indegree: map<Node, int>, queue: seq<Node>,
                                 order: seq<Node>, k: Node, j: nat)
    requires k in succ && j <= |succ[k]|
  {
    && QueueExact(g, indegree, queue, order + [k])
    && (forall b :: b in g ==> indegree[b] == Open(g[b], Elements(order)) - multiset(succ[k][..j])[b])
  }

  /** `indegree` starts as the number of predecessors; the queue holds the keys
      without any, in key order. */
  method StartQueue(keys: seq<Node>, g: Preds) returns (indegree: map<Node, int>, queue: seq<Node>)
    requires Listing(keys, g)
    ensures OuterInvariant(g, indegree, queue, [])
  {
    indegree := map k | k in keys :: |g[k]|;
    queue := [];
    for i := 0 to |keys|
      invariant Distinct(queue)
      invariant forall x :: x in queue <==> x in keys[..i] && indegree[x] == 0
    {
      assert keys[..i + 1] == keys[..i] + [keys[i]];
      if indegree[keys[i]] == 0 {
        queue := queue + [keys[i]];
      }
    }
    assert keys[..|keys|] == keys;
    forall b | b in g
      ensures indegree[b] == Open(g[b], Elements([]))
    {
      OpenNone(g[b]);
      assert Elements<Node>([]) == {};
    }
  }

  /** Everything that follows the emitted `k` loses one open predecessor per
      occurrence, and joins the queue when none is left. */
  method Release(g: Preds, succ: Preds, start: map<Node, int>, waiting: seq<Node>, ghost emitted: seq<Node>, k: Node)
    returns (indegree: map<Node, int>, queue: seq<Node>)
    requires Reversal(g, succ) && k in g && k !in emitted && PredsFirst(g, emitted + [k])
    requires QueueExact(g, start, waiting, emitted + [k])
    requires forall b :: b in g ==> start[b] == Open(g[b], Elements(emitted))
    ensures OuterInvariant(g, indegree, queue, emitted + [k])
  {
    indegree, queue := start, waiting;
    for j := 0 to |succ[k]|
      invariant InnerInvariant(g, succ, indegree, queue, emitted, k, j)
    {
      var s := succ[k][j];
      OneSuccessor(g, succ, indegree, queue, emitted, k, j);
      var d := indegree[s] - 1;
      indegree := indegree[s := d];
      if d == 0 {
        queue := queue + [s];
      }
    }
    AllSuccessors(g, succ, indegree, queue, emitted, k);
  }

  method TopologicalOrder(keys: seq<Node>, g: Preds, succ: Preds) returns (r: Option<seq<Node>>)
    requires Listing(keys, g) && Reversal(g, succ)
    ensures r.Some? <==> Acyclic(g)
    ensures r.Some? ==> IsTopological(g, r.value) && |r.value| == |keys|
  {
    var indegree, queue := StartQueue(keys, g);
    var order := [];
    while queue != []
      invariant OuterInvariant(g, indegree, queue, order)
      decreases |g.Keys| - |order|
    {
      var k := queue[0];
      assert k in queue;
      Emittable(g, indegree, queue, order);
      Fits(g, order + [k]);
      indegree, queue := Release(g, succ, indegree, queue[1..], order, k);
      order := order + [k];
    }
    DistinctSize(keys);
    if |order| != |keys| {
      Stuck(g, indegree, order);
      return None;
    }
    DistinctSize(order);
    SubsetOfSameSize(Elements(order), g.Keys);
    TopologicalIsAcyclic(g, order);
    return Some(order);
  }

  lemma Fits(g: Preds, order: seq<Node>)
    requires Distinct(order) && forall x :: x in order ==> x in g
    ensures |order| <= |g.Keys|
  {
    DistinctSize(order);
    SubsetSize(Elements(order), g.Keys);
  }

  lemma Emittable(g: Preds, indegree: map<Node, int>, queue: seq<Node>, order: seq<Node>)
    requires OuterInvariant(g, indegree, queue, order) && queue != []
    ensures var k := queue[0];
            && PredsFirst(g, order + [k])
            && QueueExact(g, indegree, queue[1..], order + [k])
            && forall a :: a in g[k] ==> a in order
  {
    var k := queue[0];
    assert k in queue;
    OpenZero(g[k], Elements(order));
    var next := order + [k];
    forall i, a | 0 <= i < |next| && next[i] in g && a in g[next[i]]
      ensures a in next[..i]
    {
      assert next[..|order|] == order;
      if i < |order| {
        assert next[..i] == order[..i];
      }
    }
    forall x
      ensures x in queue[1..] <==> x in g && x !in next && indegree[x] == 0
    {
      assert x in queue <==> x == k || x in queue[1..];
    }
  }

  /** The next successor is a node not yet emitted that still waits for `k`. */
  lemma SuccessorWaits(g: Preds, succ: Preds, order: seq<Node>, k: Node, j: nat)
    requires Reversal(g, succ) && k in g && j < |succ[k]|
    requires Distinct(order + [k]) && PredsFirst(g, order + [k])
    ensures var s := succ[k][j];
            && s in g && s !in order + [k]
            && Open(g[s], Elements(order)) >= multiset(succ[k][..j])[s] + 1
  {
    var s := succ[k][j];
    var next := order + [k];
    assert s in multiset(succ[k]);
    assert k in multiset(g[s]);
    forall i | 0 <= i < |order|
      ensures order[i] != k
    {
      assert next[i] == order[i] && next[|order|] == k;
    }
    forall i | 0 <= i < |next|
      ensures next[i] != s
    {
      assert next[..i] == order[..i];
      assert k !in order[..i];
    }
    OpenAfter(g[s], Elements(order), k);
    assert succ[k] == succ[k][..j] + [s] + succ[k][j + 1..];
    assert multiset(succ[k])[s] == multiset(succ[k][..j])[s] + 1 + multiset(succ[k][j + 1..])[s];
  }

  lemma QueueStep(g: Preds, indegree: map<Node, int>, queue: seq<Node>, order: seq<Node>, s: Node)
    requires QueueExact(g, indegree, queue, order)
    requires s in g && s !in order && indegree[s] >= 1
    ensures var indegree' := indegree[s := indegree[s] - 1];
            var queue' := if indegree[s] - 1 == 0 then queue + [s] else queue;
            QueueExact(g, indegree', queue', order)
  {
    assert s !in queue;
  }

  lemma CountStep(s: seq<Node>, j: nat, b: Node)
    requires j < |s|
    ensures multiset(s[..j + 1])[b] == multiset(s[..j])[b] + if s[j] == b then 1 else 0
  {
    assert s[..j + 1] == s[..j] + [s[j]];
  }

  lemma OneSuccessor(g: Preds, succ: Preds, indegree: map<Node, int>, queue: seq<Node>,
                     order: seq<Node>, k: Node, j: nat)
    requires Reversal(g, succ) && k in g && j < |succ[k]|
    requires InnerInvariant(g, succ, indegree, queue, order, k, j)
    requires PredsFirst(g, order + [k])
    ensures succ[k][j] in g
    ensures var s := succ[k][j];
            var indegree' := indegree[s := indegree[s] - 1];
            var queue' := if indegree[s] - 1 == 0 then queue + [s] else queue;
            InnerInvariant(g, succ, indegree', queue', order, k, j + 1)
  {
    SuccessorWaits(g, succ, order, k, j);
    var s := succ[k][j];
    QueueStep(g, indegree, queue, order + [k], s);
    forall b | b in g
      ensures indegree[s := indegree[s] - 1][b] == Open(g[b], Elements(order)) - multiset(succ[k][..j + 1])[b]
    {
      CountStep(succ[k], j, b);
    }
  }

  lemma AllSuccessors(g: Preds, succ: Preds, indegree: map<Node, int>, queue: seq<Node>, order: seq<Node>, k: Node)
    requires Reversal(g, succ) && k in g && k !in order && PredsFirst(g, order + [k])
    requires InnerInvariant(g, succ, indegree, queue, order, k, |succ[k]|)
    ensures OuterInvariant(g, indegree, queue, order + [k])
  {
    assert succ[k][..|succ[k]|] == succ[k];
    ElementsSnoc(order, k);
    forall b | b in g
      ensures indegree[b] == Open(g[b], Elements(order + [k]))
    {
      OpenAfter(g[b], Elements(order), k);
    }
  }

  lemma Stuck(g: Preds, indegree: map<Node, int>, order: seq<Node>)
    requires Closed(g) && OuterInvariant(g, indegree, [], order) && |order| != |g.Keys|
    ensures !Acyclic(g)
  {
    DistinctSize(order);
    var stuck := g.Keys - Elements(order);
    forall k | k in stuck
      ensures HasPredIn(g, stuck, k)
    {
      OpenZero(g[k], Elements(order));
    }
    assert |stuck| == |g.Keys| - |Elements(order)|;
    NoSourceMeansCycle(g, stuck);
  }

  // --- what a topological order means -----------------------------------------------

  ghost function Positions(order: seq<Node>): (pos: map<Node, nat>)
    ensures forall k :: k in order ==> k in pos && pos[k] < |order| && order[pos[k]] == k
  {
    map k | k in order :: IndexOf(order, k)
  }

  lemma TopologicalRises(g: Preds, order: seq<Node>)
    requires IsTopological(g, order)
    ensures Rises(g, Positions(order))
  {
    var pos := Positions(order);
    forall k | k in g
      ensures k in pos
    {
      assert k in Elements(order);
    }
    forall a, b | Edge(g, a, b)
      ensures pos[a] < pos[b]
    {
      var i := pos[b];
      assert a in order[..i];
      var j :| 0 <= j < i && order[j] == a;
    }
  }

  lemma TopologicalIsAcyclic(g: Preds, order: seq<Node>)
    requires IsTopological(g, order)
    ensures Acyclic(g)
  {
    TopologicalRises(g, order);
    RankedIsAcyclic(g, Positions(order));
  }

  /** In a topological order every proper ancestor comes earlier. */
  lemma AncestorsComeFirst(g: Preds, order: seq<Node>, i: nat, j: nat)
    requires IsTopological(g, order) && i < |order| && j < |order| && Before(g, order[i], order[j])
    ensures i < j
  {
    TopologicalRises(g, order);
    var p :| PathBetween(g, order[i], order[j], p) && |p| >= 2;
    PathRises(g, Positions(order), p);
  }

  // --- linearOrder: overlay order first, topology as tiebreaker ---------------------

  type Overlay = map<Node, int>

  function CompareSteps(overlay: Overlay, topo: seq<Node>, a: Node, b: Node): int {
    if a in overlay && b in overlay && overlay[a] != overlay[b] then overlay[a] - overlay[b]
    else if a in overlay && b !in overlay then -1
    else if a !in overlay && b in overlay then 1
    else TopoIndex(topo, a) - TopoIndex(topo, b)
  }

  function TopoIndex(topo: seq<Node>, a: Node): int {
    if a in topo then IndexOf(topo, a) else -1
  }

  function LinearOrder(keys: seq<Node>, topo: seq<Node>, overlay: Overlay): seq<Node> {
    Sorted(keys, (a, b) => CompareSteps(overlay, topo, a, b))
  }

  /** The overlay does not tell the two apart. */
  predicate Tied(overlay: Overlay, a: Node, b: Node) {
    (a in overlay <==> b in overlay) && (a in overlay ==> overlay[a] == overlay[b])
  }

  /** `a` may stand before `b` in the linear walk: by overlay order, steps without
      one last; tied steps by topological position, so never against the graph. */
  ghost predicate WalksBefore(g: Preds, topo: seq<Node>, overlay: Overlay, a: Node, b: Node) {
    && (b in overlay ==> a in overlay && overlay[a] <= overlay[b])
    && (Tied(overlay, a, b) ==> TopoIndex(topo, a) < TopoIndex(topo, b) && !Before(g, b, a))
  }

  lemma CompareMeansWalk(g: Preds, topo: seq<Node>, overlay: Overlay, a: Node, b: Node)
    requires IsTopological(g, topo) && a in g && b in g && a != b
    requires CompareSteps(overlay, topo, a, b) <= 0
    ensures WalksBefore(g, topo, overlay, a, b)
  {
    assert a in Elements(topo) && b in Elements(topo);
    if Before(g, b, a) {
      AncestorsComeFirst(g, topo, IndexOf(topo, b), IndexOf(topo, a));
    }
  }

  lemma CompareIsPreorder(overlay: Overlay, topo: seq<Node>, pool: set<Node>)
    ensures TotalPreorder((a, b) => CompareSteps(overlay, topo, a, b), pool)
  {
  }

  /** The linear walk lists every event once, every pair in walk order. */
  lemma LinearOrderSorted(g: Preds, keys: seq<Node>, topo: seq<Node>, overlay: Overlay)
    requires Distinct(keys) && Elements(keys) == g.Keys && IsTopological(g, topo)
    ensures var linear := LinearOrder(keys, topo, overlay);
            && Distinct(linear) && multiset(linear) == multiset(keys)
            && forall i, j :: 0 <= i < j < |linear| ==> WalksBefore(g, topo, overlay, linear[i], linear[j])
  {
    var cmp := (a, b) => CompareSteps(overlay, topo, a, b);
    var linear := LinearOrder(keys, topo, overlay);
    CompareIsPreorder(overlay, topo, g.Keys);
    SortedInOrder(keys, cmp, g.Keys);
    PermutationDistinct(keys, linear);
    SameElements(keys, linear);
    forall i, j | 0 <= i < j < |linear|
      ensures WalksBefore(g, topo, overlay, linear[i], linear[j])
    {
      assert linear[i] in keys && linear[j] in keys;
      assert linear[i] in Elements(keys) && linear[j] in Elements(keys);
      assert cmp(linear[i], linear[j]) <= 0;
      CompareMeansWalk(g, topo, overlay, linear[i], linear[j]);
    }
  }

  lemma UnorderedByPosition(topo: seq<Node>, overlay: Overlay, i: nat, j: nat)
    requires Distinct(topo) && i < j < |topo| && topo[i] !in overlay && topo[j] !in overlay
    ensures CompareSteps(overlay, topo, topo[i], topo[j]) < 0 && CompareSteps(overlay, topo, topo[j], topo[i]) > 0
  {
    IndexOfDistinct(topo, i);
    IndexOfDistinct(topo, j);
  }

  /** Without overlay orders the linear walk is the topological order itself. */
  lemma LinearOrderIsTopological(g: Preds, keys: seq<Node>, topo: seq<Node>, overlay: Overlay)
    requires Distinct(keys) && Elements(keys) == g.Keys && IsTopological(g, topo)
    requires forall k :: k in keys ==> k !in overlay
    ensures LinearOrder(keys, topo, overlay) == topo
  {
    var cmp := (a, b) => CompareSteps(overlay, topo, a, b);
    SortedInOrder(keys, cmp, g.Keys);
    SameSetSameMultiset(keys, topo);
    forall i, j | 0 <= i < j < |topo|
      ensures cmp(topo[i], topo[j]) < 0 && cmp(topo[j], topo[i]) > 0
    {
      assert topo[i] in Elements(keys) && topo[j] in Elements(keys);
      UnorderedByPosition(topo, overlay, i, j);
    }
    StrictOrderUnique(topo, LinearOrder(keys, topo, overlay), cmp);
  }

  lemma IndexOfDistinct(s: seq<Node>, i: nat)
    requires Distinct(s) && i < |s|
    ensures IndexOf(s, s[i]) == i
  {
  }

  lemma SameSetSameMultiset(a: seq<Node>, b: seq<Node>)
    requires Distinct(a) && Distinct(b) && Elements(a) == Elements(b)
    ensures multiset(a) == multiset(b)
  {
    forall x
      ensures multiset(a)[x] == multiset(b)[x]
    {
      DistinctCounts(a, x);
      DistinctCounts(b, x);
      assert x in multiset(a) <==> x in a;
      assert x in multiset(b) <==> x in b;
      assert x in Elements(a) <==> x in Elements(b);
    }
  }
}
