/** How far away the event is whose root another one inherits: the closest with a
    root of its own, or only the one the first resolving predecessor leads to. */
module InheritanceDistance {
  import opened Common
  import opened Graph
  import opened Inheritance

  /** A path to `k` from an event that has a root of its own. */
  ghost predicate RootedPath(g: Preds, roots: Roots, p: seq<Node>, k: Node)
    requires roots.Keys == g.Keys
  {
    PathTo(g, p, k) && roots[p[0]] != ""
  }

  ghost predicate Reachable(g: Preds, roots: Roots, k: Node)
    requires roots.Keys == g.Keys
  {
    exists p :: RootedPath(g, roots, p, k)
  }

  /** The closest event with a root of its own lies `n` steps before `k`. */
  ghost predicate IsNearest(g: Preds, roots: Roots, k: Node, n: nat)
    requires roots.Keys == g.Keys
  {
    && (exists p :: RootedPath(g, roots, p, k) && |p| == n + 1)
    && (forall p :: RootedPath(g, roots, p, k) ==> |p| >= n + 1)
  }

  ghost function Nearest(g: Preds, roots: Roots, k: Node): (n: nat)
    requires roots.Keys == g.Keys && Reachable(g, roots, k)
    ensures IsNearest(g, roots, k, n)
  {
    NearestExists(g, roots, k);
    var n: nat :| IsNearest(g, roots, k, n);
    n
  }

  lemma NearestExists(g: Preds, roots: Roots, k: Node)
    requires roots.Keys == g.Keys && Reachable(g, roots, k)
    ensures exists n: nat :: IsNearest(g, roots, k, n)
  {
    var best :| RootedPath(g, roots, best, k);
    while exists p :: RootedPath(g, roots, p, k) && |p| < |best|
      invariant RootedPath(g, roots, best, k)
      decreases |best|
    {
      var p :| RootedPath(g, roots, p, k) && |p| < |best|;
      best := p;
    }
    assert IsNearest(g, roots, k, |best| - 1);
  }

  /** A predecessor's path goes on to `k`. */
  lemma NearestThrough(g: Preds, roots: Roots, k: Node, p: Node)
    requires roots.Keys == g.Keys && Edge(g, p, k) && Reachable(g, roots, p)
    ensures Reachable(g, roots, k) && Nearest(g, roots, k) <= 1 + Nearest(g, roots, p)
  {
    var n := Nearest(g, roots, p);
    var q :| RootedPath(g, roots, q, p) && |q| == n + 1;
    ExtendPath(g, q, k);
    assert RootedPath(g, roots, q + [k], k);
  }

  /** Without a root of its own, an event's closest one lies through some
      predecessor. */
  lemma NearestVia(g: Preds, roots: Roots, k: Node) returns (p: Node)
    requires roots.Keys == g.Keys && k in g && roots[k] == "" && Reachable(g, roots, k)
    ensures Edge(g, p, k) && Reachable(g, roots, p) && Nearest(g, roots, k) == 1 + Nearest(g, roots, p)
  {
    var q :| RootedPath(g, roots, q, k) && |q| == Nearest(g, roots, k) + 1;
    assert |q| > 1;
    PathFront(g, q);
    p := q[|q| - 2];
    assert RootedPath(g, roots, q[..|q| - 1], p);
    NearestThrough(g, roots, k, p);
  }

  /** An event resolves exactly if some event with a root leads to it. */
  lemma {:induction false} ResolvesIffReachable(g: Preds, roots: Roots, k: Node)
    requires roots.Keys == g.Keys && Acyclic(g) && k in g
    ensures Resolve(g, roots, k) != "" <==> Reachable(g, roots, k)
  {
    if Resolve(g, roots, k) != "" {
      var p := TakenPath(g, roots, k);
    } else if Reachable(g, roots, k) {
      ReachableResolves(g, roots, k);
    }
  }

  lemma {:induction false} ReachableResolves(g: Preds, roots: Roots, k: Node)
    requires roots.Keys == g.Keys && Acyclic(g) && k in g && Reachable(g, roots, k)
    ensures Resolve(g, roots, k) != ""
    decreases |Ancestors(g, k)|
  {
    if roots[k] == "" {
      var p := NearestVia(g, roots, k);
      AncestorsShrink(g, p, k);
      ReachableResolves(g, roots, p);
      FirstResolvingMeaning(g, roots, k, 0);
      var m :| 0 <= m < |g[k]| && g[k][m] == p;
    }
  }

  /** The predecessor the search inherits through. */
  ghost function Through(g: Preds, roots: Roots, k: Node): (p: Node)
    requires roots.Keys == g.Keys && Acyclic(g) && k in g && roots[k] == "" && Resolve(g, roots, k) != ""
    ensures Edge(g, p, k) && Resolve(g, roots, p) == Resolve(g, roots, k)
  {
    g[k][FirstResolving(g, roots, k, 0)]
  }

  /** How many steps before `k` the event lies whose root `k` ends up with. */
  ghost function Taken(g: Preds, roots: Roots, k: Node): nat
    requires roots.Keys == g.Keys && Acyclic(g) && k in g && Resolve(g, roots, k) != ""
    decreases |Ancestors(g, k)|
  {
    if roots[k] != "" then 0
    else
      var p := Through(g, roots, k);
      AncestorsShrink(g, p, k);
      1 + Taken(g, roots, p)
  }

  /** Exactly that many steps lead from an event that owns the inherited root. */
  lemma {:induction false} TakenPath(g: Preds, roots: Roots, k: Node) returns (p: seq<Node>)
    requires roots.Keys == g.Keys && Acyclic(g) && k in g && Resolve(g, roots, k) != ""
    ensures RootedPath(g, roots, p, k) && |p| == Taken(g, roots, k) + 1 && roots[p[0]] == Resolve(g, roots, k)
    decreases |Ancestors(g, k)|
  {
    if roots[k] != "" {
      p := [k];
    } else {
      var via := Through(g, roots, k);
      AncestorsShrink(g, via, k);
      p := TakenPath(g, roots, via);
      ExtendPath(g, p, k);
      p := p + [k];
    }
  }

  /** The event inherits from the closest one that has a root. */
  ghost predicate TakesNearest(g: Preds, roots: Roots, k: Node)
    requires roots.Keys == g.Keys && Acyclic(g) && k in g && Resolve(g, roots, k) != ""
  {
    IsNearest(g, roots, k, Taken(g, roots, k))
  }

  /** No predecessor has a root closer by than the first one that has any. */
  ghost predicate FirstIsNearest(g: Preds, roots: Roots, k: Node)
    requires roots.Keys == g.Keys && Acyclic(g) && k in g && roots[k] == "" && Resolve(g, roots, k) != ""
  {
    var via := Through(g, roots, k);
    forall n: nat, p, m: nat :: Edge(g, p, k) && IsNearest(g, roots, via, n) && IsNearest(g, roots, p, m) ==> n <= m
  }

  lemma NearestUnique(g: Preds, roots: Roots, k: Node, m: nat, n: nat)
    requires roots.Keys == g.Keys && IsNearest(g, roots, k, m) && IsNearest(g, roots, k, n)
    ensures m == n
  {
    var p :| RootedPath(g, roots, p, k) && |p| == m + 1;
    var q :| RootedPath(g, roots, q, k) && |q| == n + 1;
  }

  lemma NoCloserPredecessor(g: Preds, roots: Roots, k: Node, n: nat, p: Node, m: nat)
    requires roots.Keys == g.Keys && IsNearest(g, roots, k, n + 1) && Edge(g, p, k) && IsNearest(g, roots, p, m)
    ensures n <= m
  {
    var q :| RootedPath(g, roots, q, p) && |q| == m + 1;
    ExtendPath(g, q, k);
    assert RootedPath(g, roots, q + [k], k);
  }

  lemma NearestNeedsFirst(g: Preds, roots: Roots, k: Node)
    requires roots.Keys == g.Keys && Acyclic(g) && k in g && roots[k] == "" && Resolve(g, roots, k) != ""
    requires TakesNearest(g, roots, k) && TakesNearest(g, roots, Through(g, roots, k))
    ensures FirstIsNearest(g, roots, k)
  {
    var via := Through(g, roots, k);
    forall n: nat, p, m: nat | Edge(g, p, k) && IsNearest(g, roots, via, n) && IsNearest(g, roots, p, m)
      ensures n <= m
    {
      NearestUnique(g, roots, via, n, Taken(g, roots, via));
      NoCloserPredecessor(g, roots, k, n, p, m);
    }
  }

  lemma {:induction false} FirstGivesNearest(g: Preds, roots: Roots, k: Node)
    requires roots.Keys == g.Keys && Acyclic(g) && k in g && Resolve(g, roots, k) != ""
    requires forall x :: x in g && roots[x] == "" && Resolve(g, roots, x) != "" ==> FirstIsNearest(g, roots, x)
    ensures TakesNearest(g, roots, k)
    decreases |Ancestors(g, k)|
  {
    var path := TakenPath(g, roots, k);
    if roots[k] == "" {
      var via := Through(g, roots, k);
      AncestorsShrink(g, via, k);
      FirstGivesNearest(g, roots, via);
      var p := NearestVia(g, roots, k);
      assert FirstIsNearest(g, roots, k);
      assert Taken(g, roots, via) <= Nearest(g, roots, p);
    }
  }

  /** Every event inherits from the closest event with a root exactly if at every
      event without one the first predecessor that resolves is also the one whose
      root is closest. */
  lemma NearestIff(g: Preds, roots: Roots)
    requires roots.Keys == g.Keys && Acyclic(g)
    ensures (forall k :: k in g && Resolve(g, roots, k) != "" ==> TakesNearest(g, roots, k))
       <==> (forall k :: k in g && roots[k] == "" && Resolve(g, roots, k) != "" ==> FirstIsNearest(g, roots, k))
  {
    if forall k :: k in g && Resolve(g, roots, k) != "" ==> TakesNearest(g, roots, k) {
      forall k | k in g && roots[k] == "" && Resolve(g, roots, k) != ""
        ensures FirstIsNearest(g, roots, k)
      {
        NearestNeedsFirst(g, roots, k);
      }
    }
    if forall k :: k in g && roots[k] == "" && Resolve(g, roots, k) != "" ==> FirstIsNearest(g, roots, k) {
      forall k | k in g && Resolve(g, roots, k) != ""
        ensures TakesNearest(g, roots, k)
      {
        FirstGivesNearest(g, roots, k);
      }
    }
  }

  // --- a model where the closest root loses ------------------------------------------

  /** `e` follows a rootless event, which follows `x`, and then `y`; only `x` and
      `y` have roots. */
  ghost predicate IsDetour(g: Preds, roots: Roots, x: Node, between: Node, y: Node, e: Node) {
    && x != between && x != y && x != e && between != y && between != e && y != e
    && g.Keys == roots.Keys == {x, between, y, e}
    && g[x] == [] && g[between] == [x] && g[y] == [] && g[e] == [between, y]
    && roots[x] != "" && roots[y] != "" && roots[between] == "" && roots[e] == ""
  }

  lemma DetourIsAcyclic(g: Preds, roots: Roots, x: Node, between: Node, y: Node, e: Node)
    requires IsDetour(g, roots, x, between, y, e)
    ensures Acyclic(g)
  {
    var rank := map[x := 0, between := 1, y := 0, e := 2];
    assert rank[x] == 0 && rank[between] == 1 && rank[y] == 0 && rank[e] == 2;
    RankedIsAcyclic(g, rank);
  }

  /** There `e` gets the root of `x`, two steps away, though `y` is one step away. */
  lemma ClosestRootLoses(g: Preds, roots: Roots, x: Node, between: Node, y: Node, e: Node)
    requires IsDetour(g, roots, x, between, y, e)
    ensures Acyclic(g) && Resolve(g, roots, e) == roots[x] && Taken(g, roots, e) == 2 && IsNearest(g, roots, e, 1)
  {
    DetourIsAcyclic(g, roots, x, between, y, e);
    assert Resolve(g, roots, x) == roots[x] && g[between][0] == x;
    assert FirstResolving(g, roots, between, 0) == 0;
    assert Resolve(g, roots, between) == roots[x] && g[e][0] == between;
    assert FirstResolving(g, roots, e, 0) == 0;
    assert Through(g, roots, e) == between && Through(g, roots, between) == x;
    assert Taken(g, roots, between) == 1 + Taken(g, roots, x) == 1;
    assert Edge(g, y, e);
    assert RootedPath(g, roots, [y, e], e);
  }

  lemma DetourExists()
    ensures var x, between, y, e := Node("x"), Node("between"), Node("y"), Node("e");
            IsDetour(map[x := [], between := [x], y := [], e := [between, y]],
                     map[x := "Order", between := "", y := "Invoice", e := ""], x, between, y, e)
  {
  }
}
