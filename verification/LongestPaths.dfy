/** The memoised recursions behind the layout's columns and heights. */
module LongestPaths {
  import opened Common
  import opened Graph
  import opened Topology

  /** The length of the longest path that ends at each node. */
  ghost function Depths(g: Preds): (r: map<Node, nat>)
    requires Acyclic(g)
  {
    map k | k in g :: Depth(g, k)
  }

  /** The recurrence at one node: depth 0 without predecessors, else one deeper
      than the deepest of them. */
  ghost predicate RecursAt(g: Preds, depth: map<Node, nat>, k: Node)
    requires depth.Keys == g.Keys && k in g
  {
    && (g[k] == [] ==> depth[k] == 0)
    && (forall a :: a in g[k] ==> a in g && depth[a] < depth[k])
    && (g[k] != [] ==> exists a :: a in g[k] && a in g && depth[k] == 1 + depth[a])
  }

  ghost predicate Recurrence(g: Preds, depth: map<Node, nat>) {
    && depth.Keys == g.Keys
    && forall k {:trigger RecursAt(g, depth, k)} :: k in g ==> RecursAt(g, depth, k)
  }

  lemma {:induction false} DeepestUpTo(g: Preds, k: Node, i: nat) returns (a: Node)
    requires Acyclic(g) && Closed(g) && k in g && 1 <= i <= |g[k]|
    ensures a in g[k] && a in g && forall j :: 0 <= j < i ==> Depth(g, g[k][j]) <= Depth(g, a)
  {
    if i == 1 {
      a := g[k][0];
    } else {
      a := DeepestUpTo(g, k, i - 1);
      var b := g[k][i - 1];
      if Depth(g, b) > Depth(g, a) {
        a := b;
      }
    }
  }

  lemma Deepest(g: Preds, k: Node) returns (a: Node)
    requires Acyclic(g) && Closed(g) && k in g && g[k] != []
    ensures a in g[k] && a in g && Depth(g, k) == 1 + Depth(g, a)
  {
    a := DeepestUpTo(g, k, |g[k]|);
    DepthStep(g, k, a);
  }

  lemma DepthsRecur(g: Preds)
    requires Acyclic(g) && Closed(g)
    ensures Recurrence(g, Depths(g))
  {
    forall k | k in g
      ensures RecursAt(g, Depths(g), k)
    {
      if g[k] == [] {
        DepthOfSource(g, k);
      } else {
        var a := Deepest(g, k);
      }
      forall a | a in g[k]
        ensures Depth(g, a) < Depth(g, k)
      {
        DepthRises(g, a, k);
      }
    }
  }

  /** `col` over predecessor lists, `height` over successor lists: the same
      recursion, each with a memo of its own. */
  class LongestPath {
    const adj: Preds
    ghost const depth: map<Node, nat>
    var memo: map<Node, nat>

    ghost predicate Valid()
      reads this
    {
      && Recurrence(adj, depth)
      && forall k :: k in memo ==> k in adj && memo[k] == depth[k]
    }

    constructor (adj: Preds, ghost depth: map<Node, nat>)
      requires Recurrence(adj, depth)
      ensures Valid() && this.adj == adj && this.depth == depth && memo == map[]
    {
      this.adj, this.depth := adj, depth;
      memo := map[];
    }

    /** The recursion ends and finds the longest path that ends at `ref`. */
    method Rank(ref: Node) returns (c: nat)
      requires Valid() && ref in adj
      modifies this
      ensures Valid() && c == depth[ref]
      ensures ref in memo && old(memo.Keys) <= memo.Keys
      decreases depth[ref]
    {
      if ref in memo {
        return memo[ref];
      }
      assert RecursAt(adj, depth, ref);
      var ps := adj[ref];
      var max := 0;
      for i := 0 to |ps|
        invariant Valid() && old(memo.Keys) <= memo.Keys
        invariant forall j :: 0 <= j < i ==> depth[ps[j]] <= max
        invariant max < depth[ref] || i == 0
        invariant max == 0 || exists j :: 0 <= j < i && max == depth[ps[j]]
      {
        var d := Rank(ps[i]);
        max := if d > max then d else max;
      }
      c := if ps == [] then 0 else 1 + max;
      memo := memo[ref := c];
    }
  }

  /** Runs the recursion for every node and hands out the filled memo. */
  method FillMemo(keys: seq<Node>, adj: Preds, ghost depth: map<Node, nat>) returns (rank: map<Node, nat>)
    requires Recurrence(adj, depth) && Elements(keys) == adj.Keys
    ensures rank == depth
  {
    var paths := new LongestPath(adj, depth);
    for i := 0 to |keys|
      invariant paths.Valid() && paths.adj == adj && paths.depth == depth && fresh(paths)
      invariant forall j :: 0 <= j < i ==> keys[j] in paths.memo
    {
      assert keys[i] in Elements(keys);
      var _ := paths.Rank(keys[i]);
    }
    forall k | k in adj
      ensures k in paths.memo
    {
      assert k in Elements(keys);
    }
    rank := paths.memo;
  }

  method Ranks(keys: seq<Node>, adj: Preds) returns (rank: map<Node, nat>)
    requires Acyclic(adj) && Closed(adj) && Elements(keys) == adj.Keys
    ensures rank == Depths(adj)
  {
    DepthsRecur(adj);
    rank := FillMemo(keys, adj, Depths(adj));
  }
}
