/** The branches of the drawing: the events off the spine, split into weakly
    connected groups by an explicit-stack search. */
module Branches {
  import opened Common
  import opened Graph

  type Adjacency = map<Node, seq<Node>>

  /** Two off-spine events linked by an edge in either direction. */
  ghost predicate Linked(g: Preds, pool: set<Node>, a: Node, b: Node) {
    a in pool && b in pool && (Edge(g, a, b) || Edge(g, b, a))
  }

  ghost predicate AdjacencyOf(g: Preds, pool: set<Node>, adj: Adjacency) {
    && adj.Keys == pool
    && (forall a, b :: a in pool && b in adj[a] ==> Linked(g, pool, a, b))
    && (forall a, b :: Linked(g, pool, a, b) ==> b in adj[a])
  }

  /** Only links are entered, and those of the rows filled so far are. */
  ghost predicate FilledUpTo(g: Preds, pool: set<Node>, adj: Adjacency, rows: seq<Node>) {
    && adj.Keys == pool
    && (forall a, b :: a in pool && b in adj[a] ==> Linked(g, pool, a, b))
    && (forall a, b :: b in rows && b in pool && a in pool && Edge(g, a, b) ==> b in adj[a] && a in adj[b])
  }

  /** `adj.get(r).push(p); adj.get(p).push(r)` */
  function AddLink(adj: Adjacency, r: Node, p: Node): (adj': Adjacency)
    requires r in adj && p in adj
    ensures adj'.Keys == adj.Keys
    ensures forall a, b :: a in adj ==> (b in adj'[a] <==> b in adj[a] || (a == r && b == p) || (a == p && b == r))
  {
    var once := adj[r := adj[r] + [p]];
    once[p := once[p] + [r]]
  }

  /** One row: the event's off-spine predecessors, each entered on both ends. */
  method AddRow(g: Preds, pool: set<Node>, start: Adjacency, r: Node, ghost rows: seq<Node>) returns (adj: Adjacency)
    requires FilledUpTo(g, pool, start, rows) && r in pool && r in g && forall k :: k in pool ==> k in g
    ensures FilledUpTo(g, pool, adj, rows + [r])
  {
    adj := start;
    for j := 0 to |g[r]|
      invariant FilledUpTo(g, pool, adj, rows)
      invariant forall m :: 0 <= m < j && g[r][m] in pool ==> r in adj[g[r][m]] && g[r][m] in adj[r]
    {
      var p := g[r][j];
      if p in adj {
        assert Linked(g, pool, r, p) && Linked(g, pool, p, r);
        adj := AddLink(adj, r, p);
      }
    }
  }

  /** Every off-spine predecessor edge is entered on both ends. */
  method Adjacent(g: Preds, nonSpine: seq<Node>) returns (adj: Adjacency)
    requires forall k :: k in nonSpine ==> k in g
    ensures AdjacencyOf(g, Elements(nonSpine), adj)
  {
    var pool := Elements(nonSpine);
    adj := map r | r in nonSpine :: [];
    for i := 0 to |nonSpine|
      invariant FilledUpTo(g, pool, adj, nonSpine[..i])
    {
      assert nonSpine[..i + 1] == nonSpine[..i] + [nonSpine[i]];
      adj := AddRow(g, pool, adj, nonSpine[i], nonSpine[..i]);
    }
    assert nonSpine[..|nonSpine|] == nonSpine;
  }

  lemma AdjacencyIsSymmetric(g: Preds, pool: set<Node>, adj: Adjacency)
    requires AdjacencyOf(g, pool, adj)
    ensures Symmetric(adj)
  {
    forall a, b | a in adj && b in adj[a]
      ensures b in adj && a in adj[b]
    {
      assert Linked(g, pool, a, b) && Linked(g, pool, b, a);
    }
  }

  // --- components ------------------------------------------------------------------

  ghost predicate Symmetric(adj: Adjacency) {
    && (forall a, b :: a in adj && b in adj[a] ==> b in adj)
    && (forall a, b :: a in adj && b in adj && b in adj[a] ==> a in adj[b])
  }

  /** A walk along neighbours, read from its last step backwards. */
  ghost predicate Walk(adj: Adjacency, w: seq<Node>) {
    && w != [] && w[|w| - 1] in adj
    && (|w| == 1 || (Walk(adj, w[..|w| - 1]) && w[|w| - 1] in adj[w[|w| - 2]]))
  }

  ghost predicate Connected(adj: Adjacency, a: Node, b: Node) {
    exists w :: Walk(adj, w) && w[0] == a && w[|w| - 1] == b
  }

  /** Everything connected to `a`. */
  ghost function Component(adj: Adjacency, a: Node): set<Node> {
    set b | b in adj && Connected(adj, a, b)
  }

  ghost predicate ClosedUnder(adj: Adjacency, s: set<Node>) {
    forall a, b :: a in s && a in adj && b in adj[a] ==> b in s
  }

  /** One group: the whole component of its first member, listed without
      repetition. */
  ghost predicate IsComponent(adj: Adjacency, members: seq<Node>) {
    members != [] && Distinct(members) && Elements(members) == Component(adj, members[0])
  }

  lemma WalkSnoc(adj: Adjacency, w: seq<Node>, y: Node)
    requires Walk(adj, w) && y in adj && y in adj[w[|w| - 1]]
    ensures Walk(adj, w + [y]) && (w + [y])[0] == w[0] && (w + [y])[|w|] == y
  {
    assert (w + [y])[..|w|] == w;
  }

  lemma ComponentHas(adj: Adjacency, a: Node)
    requires a in adj && Symmetric(adj)
    ensures a in Component(adj, a) && ClosedUnder(adj, Component(adj, a))
  {
    assert Walk(adj, [a]);
    forall x, y | x in Component(adj, a) && y in adj[x]
      ensures y in Component(adj, a)
    {
      var w :| Walk(adj, w) && w[0] == a && w[|w| - 1] == x;
      WalkSnoc(adj, w, y);
    }
  }

  /** No closed set that holds `a` is smaller than its component. */
  lemma ComponentLeast(adj: Adjacency, a: Node, s: set<Node>)
    requires ClosedUnder(adj, s) && a in s
    ensures Component(adj, a) <= s
  {
    forall b | b in Component(adj, a)
      ensures b in s
    {
      var w :| Walk(adj, w) && w[0] == a && w[|w| - 1] == b;
      WalkStays(adj, s, w);
    }
  }

  lemma {:induction false} WalkStays(adj: Adjacency, s: set<Node>, w: seq<Node>)
    requires ClosedUnder(adj, s) && Walk(adj, w) && w[0] in s
    ensures w[|w| - 1] in s
  {
    if |w| > 1 {
      WalkStays(adj, s, w[..|w| - 1]);
    }
  }

  /** Members and stack hold each reached event once, all within `bound`, none of
      them from an earlier group. */
  ghost predicate Reached(bound: set<Node>, start: Node, before: set<Node>, seen: set<Node>, members: seq<Node>,
                          stack: seq<Node>) {
    && Distinct(members + stack) && (if members == [] then stack == [start] else members[0] == start)
    && (forall x :: x in members + stack ==> x in bound && x !in before)
    && seen == before + Elements(members + stack)
  }

  /** Every neighbour of a finished member is reached. */
  ghost predicate Expanded(adj: Adjacency, seen: set<Node>, members: seq<Node>) {
    forall x, y :: x in members && x in adj && y in adj[x] ==> y in seen
  }

  lemma MoveTop(bound: set<Node>, start: Node, before: set<Node>, seen: set<Node>, members: seq<Node>, stack: seq<Node>)
    requires stack != [] && Reached(bound, start, before, seen, members, stack)
    ensures var x := stack[|stack| - 1];
            x in bound && Reached(bound, start, before, seen, members + [x], stack[..|stack| - 1])
  {
    var x, rest := stack[|stack| - 1], stack[..|stack| - 1];
    var a, b := members + stack, members + [x] + rest;
    assert stack == rest + [x];
    assert a == (members + rest) + [x];
    forall i, j | 0 <= i < j < |b|
      ensures b[i] != b[j]
    {
      var p := if i < |members| then i else if i == |members| then |a| - 1 else i - 1;
      var q := if j < |members| then j else if j == |members| then |a| - 1 else j - 1;
      assert a[p] == b[i] && a[q] == b[j] && p != q;
    }
    assert Elements(a) == Elements(b);
    assert x in a;
  }

  lemma Push(bound: set<Node>, start: Node, before: set<Node>, seen: set<Node>, members: seq<Node>, stack: seq<Node>,
             y: Node)
    requires Reached(bound, start, before, seen, members, stack) && y in bound && y !in seen && members != []
    ensures Reached(bound, start, before, seen + {y}, members, stack + [y])
  {
    assert members + (stack + [y]) == (members + stack) + [y];
    DistinctAppend(members + stack, y);
    ElementsSnoc(members + stack, y);
  }

  method PushNeighbours(ys: seq<Node>, ghost bound: set<Node>, ghost start: Node, ghost before: set<Node>,
                        ghost members: seq<Node>, seen0: set<Node>, stack0: seq<Node>)
    returns (seen: set<Node>, stack: seq<Node>)
    requires Reached(bound, start, before, seen0, members, stack0) && members != []
             && forall y :: y in ys ==> y in bound
    ensures Reached(bound, start, before, seen, members, stack) && seen0 <= seen
    ensures forall y :: y in ys ==> y in seen
  {
    seen, stack := seen0, stack0;
    for i := 0 to |ys|
      invariant Reached(bound, start, before, seen, members, stack) && seen0 <= seen
      invariant forall j :: 0 <= j < i ==> ys[j] in seen
    {
      var y := ys[i];
      if y !in seen {
        Push(bound, start, before, seen, members, stack, y);
        seen := seen + {y};
        stack := stack + [y];
      }
    }
  }

  /** Pops an event, lists it, and pushes its unseen neighbours, until the stack
      is empty. `bound` is any closed set around the start. */
  method Search(adj: Adjacency, start: Node, before: set<Node>, ghost bound: set<Node>)
    returns (members: seq<Node>, seen: set<Node>)
    requires start in bound && start !in before && bound <= adj.Keys && ClosedUnder(adj, bound)
    ensures Reached(bound, start, before, seen, members, []) && Expanded(adj, seen, members) && members != []
  {
    members := [];
    var stack := [start];
    seen := before + {start};
    assert members + stack == [start];
    while stack != []
      invariant Reached(bound, start, before, seen, members, stack)
      invariant Expanded(adj, seen, members)
      decreases |bound| - |members|
    {
      var x := stack[|stack| - 1];
      MoveTop(bound, start, before, seen, members, stack);
      members, stack := members + [x], stack[..|stack| - 1];
      Fits(bound, members + stack);
      seen, stack := PushNeighbours(adj[x], bound, start, before, members, seen, stack);
    }
  }

  method Explore(adj: Adjacency, start: Node, before: set<Node>) returns (members: seq<Node>, seen: set<Node>)
    requires Symmetric(adj) && start in adj && start !in before && ClosedUnder(adj, before) && before <= adj.Keys
    ensures IsComponent(adj, members) && members[0] == start
    ensures seen == before + Elements(members) && Elements(members) !! before
    ensures ClosedUnder(adj, seen) && seen <= adj.Keys
  {
    ComponentHas(adj, start);
    members, seen := Search(adj, start, before, Component(adj, start));
    assert members + [] == members;
    Finished(adj, Component(adj, start), start, before, seen, members);
    ComponentLeast(adj, start, Elements(members));
  }

  lemma Fits(bound: set<Node>, reached: seq<Node>)
    requires Distinct(reached) && forall x :: x in reached ==> x in bound
    ensures |reached| <= |bound|
  {
    DistinctSize(reached);
    SubsetSize(Elements(reached), bound);
  }

  lemma BackIntoClosed(adj: Adjacency, s: set<Node>, a: Node, b: Node)
    requires Symmetric(adj) && ClosedUnder(adj, s) && a in adj && b in adj[a] && b in s
    ensures a in s
  {
    assert a in adj[b];
  }

  /** With an empty stack the reached events are closed: a neighbour from an
      earlier, closed group would have pulled the member in with it. */
  lemma Finished(adj: Adjacency, bound: set<Node>, start: Node, before: set<Node>, seen: set<Node>, members: seq<Node>)
    requires Symmetric(adj) && ClosedUnder(adj, before) && before <= adj.Keys && bound <= adj.Keys
    requires members + [] == members && Reached(bound, start, before, seen, members, []) && Expanded(adj, seen, members)
    ensures ClosedUnder(adj, Elements(members)) && start in members
    ensures seen == before + Elements(members) && Elements(members) !! before
    ensures ClosedUnder(adj, seen) && seen <= adj.Keys
  {
    forall a, b | a in Elements(members) && a in adj && b in adj[a]
      ensures b in Elements(members)
    {
      if b in before {
        BackIntoClosed(adj, before, a, b);
      }
    }
  }

  // --- all groups --------------------------------------------------------------------

  /** The groups are disjoint, and each is a whole component. */
  ghost predicate Groups(adj: Adjacency, branches: seq<seq<Node>>) {
    && (forall i :: 0 <= i < |branches| ==> IsComponent(adj, branches[i]))
    && (forall i, j, x :: 0 <= i < j < |branches| && x in branches[i] ==> x !in branches[j])
  }

  ghost function Covered(branches: seq<seq<Node>>): set<Node> {
    set i, x | 0 <= i < |branches| && x in branches[i] :: x
  }

  /** The split into branches: disjoint, covering every off-spine event, each the
      whole weakly connected component of its first member. */
  ghost predicate IsSplit(nonSpine: seq<Node>, adj: Adjacency, branches: seq<seq<Node>>) {
    && Groups(adj, branches)
    && Covered(branches) == Elements(nonSpine)
  }

  /** One round of the split: an event already in a group is skipped, any other
      starts the next group. */
  method Extend(adj: Adjacency, r: Node, branches0: seq<seq<Node>>, seen0: set<Node>)
    returns (branches: seq<seq<Node>>, seen: set<Node>)
    requires Symmetric(adj) && r in adj && Groups(adj, branches0) && seen0 == Covered(branches0)
    requires ClosedUnder(adj, seen0) && seen0 <= adj.Keys
    ensures Groups(adj, branches) && seen == Covered(branches)
    ensures ClosedUnder(adj, seen) && seen0 + {r} <= seen <= adj.Keys
  {
    if r in seen0 {
      return branches0, seen0;
    }
    var members;
    members, seen := Explore(adj, r, seen0);
    AddGroup(adj, branches0, members);
    assert members[0] in Elements(members);
    branches := branches0 + [members];
  }

  method Split(nonSpine: seq<Node>, adj: Adjacency) returns (branches: seq<seq<Node>>)
    requires Symmetric(adj) && adj.Keys == Elements(nonSpine)
    ensures IsSplit(nonSpine, adj, branches)
  {
    branches := [];
    var seen: set<Node> := {};
    for i := 0 to |nonSpine|
      invariant Groups(adj, branches) && seen == Covered(branches)
      invariant ClosedUnder(adj, seen) && Elements(nonSpine[..i]) <= seen <= adj.Keys
    {
      assert nonSpine[..i + 1] == nonSpine[..i] + [nonSpine[i]];
      assert nonSpine[i] in Elements(nonSpine);
      branches, seen := Extend(adj, nonSpine[i], branches, seen);
    }
    assert nonSpine[..|nonSpine|] == nonSpine;
  }

  lemma AddGroup(adj: Adjacency, branches: seq<seq<Node>>, members: seq<Node>)
    requires Groups(adj, branches) && IsComponent(adj, members) && Elements(members) !! Covered(branches)
    ensures Groups(adj, branches + [members])
    ensures Covered(branches + [members]) == Covered(branches) + Elements(members)
  {
    var more := branches + [members];
    forall x
      ensures x in Covered(more) <==> x in Covered(branches) + Elements(members)
    {
      if x in Covered(branches) {
        var i :| 0 <= i < |branches| && x in branches[i];
        assert more[i] == branches[i];
      } else if x in members {
        assert more[|branches|] == members;
      }
    }
    forall i, j, x | 0 <= i < j < |more| && x in more[i]
      ensures x !in more[j]
    {
      if j == |branches| {
        assert x in Covered(branches);
      }
    }
  }

  // --- what a group is ------------------------------------------------------------------

  /** Membership in one group is the connectedness relation itself. */
  lemma SameBranchIffConnected(nonSpine: seq<Node>, adj: Adjacency, branches: seq<seq<Node>>, i: nat, x: Node, y: Node)
    requires Symmetric(adj) && IsSplit(nonSpine, adj, branches)
    requires i < |branches| && x in branches[i] && y in adj
    ensures y in branches[i] <==> Connected(adj, x, y)
  {
    var a := branches[i][0];
    assert x in Component(adj, a);
    ConnectedBack(adj, a, x);
    if Connected(adj, x, y) {
      ConnectedJoin(adj, a, x, y);
    }
    if y in branches[i] {
      assert y in Component(adj, a);
      ConnectedJoin(adj, x, a, y);
    }
  }

  lemma ConnectedJoin(adj: Adjacency, a: Node, b: Node, c: Node)
    requires Connected(adj, a, b) && Connected(adj, b, c)
    ensures Connected(adj, a, c)
  {
    var v :| Walk(adj, v) && v[0] == a && v[|v| - 1] == b;
    var w :| Walk(adj, w) && w[0] == b && w[|w| - 1] == c;
    WalkJoin(adj, v, w);
  }

  lemma {:induction false} WalkJoin(adj: Adjacency, v: seq<Node>, w: seq<Node>)
    requires Walk(adj, v) && Walk(adj, w) && v[|v| - 1] == w[0]
    ensures Walk(adj, v + w[1..])
  {
    if |w| == 1 {
      assert v + w[1..] == v;
    } else {
      var front := w[..|w| - 1];
      WalkJoin(adj, v, front);
      var u := v + w[1..];
      assert u[..|u| - 1] == v + front[1..];
    }
  }

  lemma {:induction false} ConnectedBack(adj: Adjacency, a: Node, b: Node)
    requires Symmetric(adj) && Connected(adj, a, b)
    ensures Connected(adj, b, a)
  {
    var w :| Walk(adj, w) && w[0] == a && w[|w| - 1] == b;
    WalkBackwards(adj, w);
  }

  lemma {:induction false} WalkBackwards(adj: Adjacency, w: seq<Node>)
    requires Symmetric(adj) && Walk(adj, w)
    ensures Connected(adj, w[|w| - 1], w[0])
  {
    if |w| == 1 {
    } else {
      var x, y := w[|w| - 2], w[|w| - 1];
      WalkBackwards(adj, w[..|w| - 1]);
      var step := [y, x];
      assert step[..1] == [y];
      assert Walk(adj, step);
      ConnectedJoin(adj, y, x, w[0]);
    }
  }
}
