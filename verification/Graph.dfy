/** The `follows` graph: every node lists the nodes that must come before it.
    Paths, ancestors, cycles and longest paths, defined on paths alone. */
module Graph {
  import opened Common

  /** An event, identified by its key (in the model) or its ref (in the UI). */
  datatype Node = Node(name: string)

  type Preds = map<Node, seq<Node>>

  ghost predicate Closed(g: Preds) {
    forall b, a :: b in g && a in g[b] ==> a in g
  }

  predicate Edge(g: Preds, a: Node, b: Node) {
    a in g && b in g && a in g[b]
  }

  ghost predicate IsPath(g: Preds, p: seq<Node>) {
    && |p| >= 1
    && (forall i :: 0 <= i < |p| ==> p[i] in g)
    && (forall i :: 0 < i < |p| ==> Edge(g, p[i - 1], p[i]))
  }

  ghost predicate PathBetween(g: Preds, a: Node, b: Node, p: seq<Node>) {
    IsPath(g, p) && p[0] == a && p[|p| - 1] == b
  }

  ghost predicate PathTo(g: Preds, p: seq<Node>, k: Node) {
    IsPath(g, p) && p[|p| - 1] == k
  }

  ghost predicate PathFrom(g: Preds, p: seq<Node>, k: Node) {
    IsPath(g, p) && p[0] == k
  }

  /** `a` is a proper ancestor of `b`: at least one edge lies between them. */
  ghost predicate Before(g: Preds, a: Node, b: Node) {
    exists p :: PathBetween(g, a, b, p) && |p| >= 2
  }

  ghost predicate Acyclic(g: Preds) {
    forall a :: a in g ==> !Before(g, a, a)
  }

  // --- paths ---------------------------------------------------------------

  lemma SubPath(g: Preds, p: seq<Node>, i: nat, j: nat)
    requires IsPath(g, p) && i < j <= |p|
    ensures IsPath(g, p[i..j])
  {
    forall k | 0 < k < |p[i..j]|
      ensures Edge(g, p[i..j][k - 1], p[i..j][k])
    {
      assert Edge(g, p[i + k - 1], p[i + k]);
    }
  }

  lemma ExtendPath(g: Preds, p: seq<Node>, b: Node)
    requires IsPath(g, p) && Edge(g, p[|p| - 1], b)
    ensures IsPath(g, p + [b])
  {
    var q := p + [b];
    forall k | 0 < k < |q|
      ensures Edge(g, q[k - 1], q[k])
    {
      if k < |p| {
        assert Edge(g, p[k - 1], p[k]);
      }
    }
  }

  lemma PrependPath(g: Preds, a: Node, p: seq<Node>)
    requires IsPath(g, p) && Edge(g, a, p[0])
    ensures IsPath(g, [a] + p)
  {
    var q := [a] + p;
    forall k | 0 < k < |q|
      ensures Edge(g, q[k - 1], q[k])
    {
      if k > 1 {
        assert Edge(g, p[k - 2], p[k - 1]);
      }
    }
  }

  lemma PathEdge(g: Preds, p: seq<Node>, i: nat)
    requires IsPath(g, p) && 0 < i < |p|
    ensures Edge(g, p[i - 1], p[i])
  {
  }

  /** A path that visits a node twice closes a cycle. */
  lemma RepeatIsCycle(g: Preds, p: seq<Node>, i: nat, j: nat)
    requires IsPath(g, p) && i < j < |p| && p[i] == p[j]
    ensures !Acyclic(g)
  {
    SubPath(g, p, i, j + 1);
    assert PathBetween(g, p[i], p[i], p[i..j + 1]);
    assert Before(g, p[i], p[i]);
  }

  lemma EdgeIsBefore(g: Preds, a: Node, b: Node)
    requires Edge(g, a, b)
    ensures Before(g, a, b)
  {
    assert PathBetween(g, a, b, [a, b]);
  }

  lemma {:induction false} BeforeTransitive(g: Preds, a: Node, b: Node, c: Node)
    requires Before(g, a, b) && Before(g, b, c)
    ensures Before(g, a, c)
  {
    var p :| PathBetween(g, a, b, p) && |p| >= 2;
    var q :| PathBetween(g, b, c, q) && |q| >= 2;
    JoinPaths(g, p, q);
    assert PathBetween(g, a, c, p + q[1..]);
  }

  lemma JoinPaths(g: Preds, p: seq<Node>, q: seq<Node>)
    requires IsPath(g, p) && IsPath(g, q) && p[|p| - 1] == q[0]
    ensures IsPath(g, p + q[1..])
  {
    var r := p + q[1..];
    forall k | 0 < k < |r|
      ensures Edge(g, r[k - 1], r[k])
    {
      if k < |p| {
        assert Edge(g, p[k - 1], p[k]);
      } else {
        assert Edge(g, q[k - |p|], q[k - |p| + 1]);
      }
    }
  }

  // --- ancestors, the measure behind every recursion over predecessors ------

  ghost function Ancestors(g: Preds, b: Node): set<Node> {
    set a | a in g && Before(g, a, b)
  }

  lemma AncestorsShrink(g: Preds, a: Node, b: Node)
    requires Acyclic(g) && Edge(g, a, b)
    ensures Ancestors(g, a) < Ancestors(g, b)
    ensures |Ancestors(g, a)| < |Ancestors(g, b)|
  {
    EdgeIsBefore(g, a, b);
    forall x | x in Ancestors(g, a)
      ensures x in Ancestors(g, b)
    {
      BeforeTransitive(g, x, a, b);
    }
    assert a in Ancestors(g, b) && a !in Ancestors(g, a);
    SubsetSize(Ancestors(g, a), Ancestors(g, b) - {a});
  }

  // --- a ranking rules out cycles -------------------------------------------

  ghost predicate Rises(g: Preds, rank: map<Node, nat>) {
    && (forall k :: k in g ==> k in rank)
    && (forall a, b :: Edge(g, a, b) ==> rank[a] < rank[b])
  }

  lemma {:induction false} PathRises(g: Preds, rank: map<Node, nat>, p: seq<Node>)
    requires Rises(g, rank) && IsPath(g, p)
    ensures rank[p[0]] + |p| - 1 <= rank[p[|p| - 1]]
  {
    if |p| > 1 {
      SubPath(g, p, 0, |p| - 1);
      PathRises(g, rank, p[0..|p| - 1]);
      assert Edge(g, p[|p| - 2], p[|p| - 1]);
    }
  }

  lemma RankedIsAcyclic(g: Preds, rank: map<Node, nat>)
    requires Rises(g, rank)
    ensures Acyclic(g)
  {
    forall a | a in g
      ensures !Before(g, a, a)
    {
      if p :| PathBetween(g, a, a, p) && |p| >= 2 {
        PathRises(g, rank, p);
      }
    }
  }

  ghost predicate HasPredIn(g: Preds, stuck: set<Node>, k: Node) {
    k in g && exists a :: a in stuck && a in g[k]
  }

  /** A nonempty set in which every node has a predecessor inside the set
      contains a cycle: walk backwards until a node repeats. */
  lemma NoSourceMeansCycle(g: Preds, stuck: set<Node>)
    requires stuck != {} && forall k :: k in stuck ==> HasPredIn(g, stuck, k)
    ensures !Acyclic(g)
  {
    var p := WalkBack(g, stuck, |stuck| + 1);
    var i, j := Pigeonhole(p, stuck);
    RepeatIsCycle(g, p, i, j);
  }

  lemma {:induction false} WalkBack(g: Preds, stuck: set<Node>, n: nat) returns (p: seq<Node>)
    requires n >= 1 && stuck != {} && forall k :: k in stuck ==> HasPredIn(g, stuck, k)
    ensures |p| == n && IsPath(g, p) && forall i :: 0 <= i < |p| ==> p[i] in stuck
  {
    if n == 1 {
      var k :| k in stuck;
      assert HasPredIn(g, stuck, k);
      p := [k];
    } else {
      var q := WalkBack(g, stuck, n - 1);
      assert HasPredIn(g, stuck, q[0]);
      var a :| a in stuck && a in g[q[0]];
      assert HasPredIn(g, stuck, a);
      PrependPath(g, a, q);
      p := [a] + q;
    }
  }

  // --- longest paths ----------------------------------------------------------

  /** `n` edges is the length of the longest path that ends at `k`. */
  ghost predicate IsDepth(g: Preds, k: Node, n: nat) {
    && (exists p :: PathTo(g, p, k) && |p| == n + 1)
    && (forall p :: PathTo(g, p, k) ==> |p| <= n + 1)
  }

  ghost function Depth(g: Preds, k: Node): nat
    requires Acyclic(g) && k in g
  {
    DepthExists(g, k);
    var n :| IsDepth(g, k, n);
    n
  }

  lemma DepthMeaning(g: Preds, k: Node)
    requires Acyclic(g) && k in g
    ensures IsDepth(g, k, Depth(g, k))
  {
    DepthExists(g, k);
  }

  lemma DepthBound(g: Preds, p: seq<Node>, k: Node)
    requires Acyclic(g) && k in g && PathTo(g, p, k)
    ensures |p| <= Depth(g, k) + 1
  {
    DepthMeaning(g, k);
  }

  lemma PathIsShort(g: Preds, p: seq<Node>)
    requires Acyclic(g) && IsPath(g, p)
    ensures |p| <= |g.Keys|
  {
    if |p| > |g.Keys| {
      var i, j := Pigeonhole(p, g.Keys);
      RepeatIsCycle(g, p, i, j);
    }
  }

  lemma DepthExists(g: Preds, k: Node)
    requires Acyclic(g) && k in g
    ensures exists n: nat :: IsDepth(g, k, n)
  {
    assert PathTo(g, [k], k);
    var best := [k];
    while exists p :: PathTo(g, p, k) && |p| > |best|
      invariant PathTo(g, best, k)
      decreases |g.Keys| - |best|
    {
      var p :| PathTo(g, p, k) && |p| > |best|;
      PathIsShort(g, p);
      best := p;
    }
    assert IsDepth(g, k, |best| - 1);
  }

  lemma DepthUnique(g: Preds, k: Node, m: nat, n: nat)
    requires IsDepth(g, k, m) && IsDepth(g, k, n)
    ensures m == n
  {
    var p :| PathTo(g, p, k) && |p| == m + 1;
    var q :| PathTo(g, q, k) && |q| == n + 1;
  }

  /** The recurrence the layout computes: a node is one deeper than its deepest
      predecessor. */
  lemma DepthStep(g: Preds, k: Node, deepest: Node)
    requires Acyclic(g) && Closed(g) && k in g && Edge(g, deepest, k)
    requires forall a :: a in g[k] ==> Depth(g, a) <= Depth(g, deepest)
    ensures Depth(g, k) == 1 + Depth(g, deepest)
  {
    var n := 1 + Depth(g, deepest);
    DepthMeaning(g, deepest);
    var p :| PathTo(g, p, deepest) && |p| == n;
    ExtendPath(g, p, k);
    assert PathTo(g, p + [k], k);
    forall r | PathTo(g, r, k)
      ensures |r| <= n + 1
    {
      if |r| > 1 {
        PathFront(g, r);
        DepthBound(g, r[..|r| - 1], r[|r| - 2]);
      }
    }
    DepthMeaning(g, k);
    DepthUnique(g, k, n, Depth(g, k));
  }

  lemma PathFront(g: Preds, p: seq<Node>)
    requires IsPath(g, p) && |p| > 1
    ensures PathTo(g, p[..|p| - 1], p[|p| - 2]) && Edge(g, p[|p| - 2], p[|p| - 1])
  {
    SubPath(g, p, 0, |p| - 1);
    PathEdge(g, p, |p| - 1);
    assert p[..|p| - 1] == p[0..|p| - 1];
  }

  lemma DepthOfSource(g: Preds, k: Node)
    requires Acyclic(g) && k in g && g[k] == []
    ensures Depth(g, k) == 0
  {
    assert PathTo(g, [k], k);
    forall r | PathTo(g, r, k)
      ensures |r| <= 1
    {
      if |r| > 1 {
        PathFront(g, r);
      }
    }
    DepthMeaning(g, k);
    DepthUnique(g, k, 0, Depth(g, k));
  }

  lemma DepthRises(g: Preds, a: Node, b: Node)
    requires Acyclic(g) && Edge(g, a, b)
    ensures Depth(g, a) < Depth(g, b)
  {
    DepthMeaning(g, a);
    DepthMeaning(g, b);
    var p :| PathTo(g, p, a) && |p| == Depth(g, a) + 1;
    ExtendPath(g, p, b);
    assert PathTo(g, p + [b], b);
  }

  /** The longest path that ends at a node starts at a source. */
  lemma LongestPathStartsAtSource(g: Preds, k: Node)
    requires Acyclic(g) && Closed(g) && k in g
    ensures exists p :: PathTo(g, p, k) && |p| == Depth(g, k) + 1 && g[p[0]] == []
  {
    DepthMeaning(g, k);
    var p :| PathTo(g, p, k) && |p| == Depth(g, k) + 1;
    if g[p[0]] != [] {
      var a := g[p[0]][0];
      PrependPath(g, a, p);
      DepthBound(g, [a] + p, k);
    }
  }

  // --- the reversed graph ------------------------------------------------------

  /** `s` lists, for every node, exactly the nodes it precedes, as often as it
      is listed there. */
  ghost predicate Reversal(g: Preds, s: Preds) {
    && s.Keys == g.Keys
    && (forall a, b :: a in g && b in g ==> multiset(s[a])[b] == multiset(g[b])[a])
    && (forall a, b :: a in g && b in s[a] ==> b in g)
  }

  lemma ReversalEdge(g: Preds, s: Preds, a: Node, b: Node)
    requires Reversal(g, s)
    ensures Edge(g, a, b) <==> Edge(s, b, a)
  {
    if a in g && b in g {
      assert a in g[b] <==> a in multiset(g[b]);
      assert b in s[a] <==> b in multiset(s[a]);
      assert multiset(s[a])[b] == multiset(g[b])[a];
    }
  }

  ghost function Backwards(p: seq<Node>): (r: seq<Node>)
    ensures |r| == |p| && forall i :: 0 <= i < |r| ==> r[i] == p[|p| - 1 - i]
  {
    seq(|p|, i requires 0 <= i < |p| => p[|p| - 1 - i])
  }

  lemma ReversedPath(g: Preds, s: Preds, p: seq<Node>)
    requires Reversal(g, s)
    ensures IsPath(g, p) <==> IsPath(s, Backwards(p))
  {
    var r := Backwards(p);
    if IsPath(g, p) {
      forall i | 0 < i < |r|
        ensures Edge(s, r[i - 1], r[i])
      {
        var j := |p| - i;
        assert Edge(g, p[j - 1], p[j]);
        ReversalEdge(g, s, p[j - 1], p[j]);
      }
      forall i | 0 <= i < |r|
        ensures r[i] in s
      {
        assert p[|p| - 1 - i] in g;
      }
    }
    if IsPath(s, r) {
      forall i | 0 < i < |p|
        ensures Edge(g, p[i - 1], p[i])
      {
        var j := |p| - i;
        assert Edge(s, r[j - 1], r[j]);
        assert r[j] == p[i - 1] && r[j - 1] == p[i];
        ReversalEdge(g, s, p[i - 1], p[i]);
      }
      forall i | 0 <= i < |p|
        ensures p[i] in g
      {
        assert r[|p| - 1 - i] in s;
      }
    }
  }

  lemma BackwardsTwice(p: seq<Node>)
    ensures Backwards(Backwards(p)) == p
  {
  }

  lemma ReversalBefore(g: Preds, s: Preds, a: Node, b: Node)
    requires Reversal(g, s) && Before(s, a, b)
    ensures Before(g, b, a)
  {
    var p :| PathBetween(s, a, b, p) && |p| >= 2;
    BackwardsTwice(p);
    ReversedPath(g, s, Backwards(p));
    assert PathBetween(g, b, a, Backwards(p));
  }

  lemma ReversalAcyclic(g: Preds, s: Preds)
    requires Reversal(g, s) && Acyclic(g)
    ensures Acyclic(s) && Closed(s)
  {
    forall a | a in s
      ensures !Before(s, a, a)
    {
      if Before(s, a, a) {
        ReversalBefore(g, s, a, a);
      }
    }
  }

  /** `n` edges is the length of the longest path that starts at `k`. */
  ghost predicate IsHeight(g: Preds, k: Node, n: nat) {
    && (exists p :: PathFrom(g, p, k) && |p| == n + 1)
    && (forall p :: PathFrom(g, p, k) ==> |p| <= n + 1)
  }

  /** Depth in the reversed graph is height in the graph. */
  lemma HeightIsReversedDepth(g: Preds, s: Preds, k: Node)
    requires Reversal(g, s) && Acyclic(s) && k in g
    ensures IsHeight(g, k, Depth(s, k))
  {
    var n := Depth(s, k);
    DepthMeaning(s, k);
    var p :| PathTo(s, p, k) && |p| == n + 1;
    BackwardsTwice(p);
    ReversedPath(g, s, Backwards(p));
    assert PathFrom(g, Backwards(p), k);
    forall r | PathFrom(g, r, k)
      ensures |r| <= n + 1
    {
      ReversedPath(g, s, r);
      assert PathTo(s, Backwards(r), k);
    }
  }
}
