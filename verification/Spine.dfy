/** The main spine of the drawing: one source-to-sink walk. */
module Spine {
  import opened Common
  import opened Graph
  import opened Topology
  import opened LongestPaths

  type Score = map<Node, nat>

  /** `reduce((a, b) => score(b) > score(a) ? b : a)`: the first of the best. */
  function FirstBest(ss: seq<Node>, score: Score): (r: Node)
    requires ss != [] && forall s :: s in ss ==> s in score
    ensures r in ss && forall s :: s in ss ==> score[s] <= score[r]
    ensures forall j :: 0 <= j < IndexOf(ss, r) ==> score[ss[j]] < score[r]
  {
    if |ss| == 1 then ss[0]
    else
      var front, b := ss[..|ss| - 1], ss[|ss| - 1];
      assert ss == front + [b];
      var a := FirstBest(front, score);
      SameFirstIndex(front, b, a);
      if score[b] > score[a] then b else a
  }

  lemma {:induction false} SameFirstIndex(front: seq<Node>, b: Node, a: Node)
    requires a in front
    ensures IndexOf(front + [b], a) == IndexOf(front, a)
    ensures b !in front ==> IndexOf(front + [b], b) == |front|
  {
    var s := front + [b];
    assert s[..|front|] == front;
    assert s[IndexOf(front, a)] == a;
  }

  predicate IsShortcut(s: Node, cur: Node, col: Score)
    requires s in col && cur in col
  {
    col[s] as int - col[cur] > 1
  }

  function Shortcuts(ss: seq<Node>, cur: Node, col: Score): (r: seq<Node>)
    requires cur in col && forall s :: s in ss ==> s in col
    ensures forall s :: s in r <==> s in ss && IsShortcut(s, cur, col)
    ensures r == [] <==> forall s :: s in ss ==> !IsShortcut(s, cur, col)
  {
    if ss == [] then []
    else
      assert ss == ss[..|ss| - 1] + [ss[|ss| - 1]];
      Shortcuts(ss[..|ss| - 1], cur, col) + if IsShortcut(ss[|ss| - 1], cur, col) then [ss[|ss| - 1]] else []
  }

  /** At a fork: the furthest shortcut if there is one, else the deepest way on. */
  function NextOnSpine(ss: seq<Node>, cur: Node, col: Score, height: Score): (r: Node)
    requires ss != [] && cur in col && forall s :: s in ss ==> s in col && s in height
    ensures r in ss
    ensures forall s :: s in ss && IsShortcut(s, cur, col) ==> IsShortcut(r, cur, col) && col[s] <= col[r]
    ensures (forall s :: s in ss ==> !IsShortcut(s, cur, col)) ==> forall s :: s in ss ==> height[s] <= height[r]
  {
    var shortcuts := Shortcuts(ss, cur, col);
    if shortcuts != [] then FirstBest(shortcuts, col) else FirstBest(ss, height)
  }

  function Sources(refs: seq<Node>, g: Preds): (r: seq<Node>)
    requires forall k :: k in refs ==> k in g
    ensures forall k :: k in r <==> k in refs && g[k] == []
  {
    if refs == [] then []
    else
      assert refs == refs[..|refs| - 1] + [refs[|refs| - 1]];
      Sources(refs[..|refs| - 1], g) + if g[refs[|refs| - 1]] == [] then [refs[|refs| - 1]] else []
  }

  /** What the walk needs to know of the graph and its two ranks: successor lists
      hold exactly the edges, columns rise along them, heights recur over them. */
  ghost predicate Drawable(g: Preds, succ: Preds, col: Score, height: Score) {
    && succ.Keys == g.Keys == col.Keys == height.Keys
    && (forall a, b :: a in succ && b in succ[a] ==> Edge(g, a, b))
    && (forall a, b :: Edge(g, a, b) ==> b in succ[a])
    && (forall a, b :: Edge(g, a, b) ==> col[a] < col[b] && height[b] < height[a])
  }

  /** `p` is the walk the layout takes: it starts at the first source of greatest
      height, each step is the preferred successor, and it ends at a sink. */
  ghost predicate IsSpine(g: Preds, succ: Preds, refs: seq<Node>, col: Score, height: Score, p: seq<Node>)
    requires Drawable(g, succ, col, height) && Elements(refs) == g.Keys
  {
    && StepsPreferred(g, succ, col, height, p)
    && Sources(refs, g) != [] && p[0] == FirstBest(Sources(refs, g), height)
    && succ[p[|p| - 1]] == []
  }

  ghost predicate StepsPreferred(g: Preds, succ: Preds, col: Score, height: Score, p: seq<Node>)
    requires Drawable(g, succ, col, height)
  {
    IsPath(g, p) && Follows(Choices(g, succ, col, height), p)
  }

  /** The preferred successor of every event that has one. */
  ghost function Choices(g: Preds, succ: Preds, col: Score, height: Score): map<Node, Node>
    requires Drawable(g, succ, col, height)
  {
    map a | a in succ && succ[a] != [] :: NextOnSpine(succ[a], a, col, height)
  }

  /** Every step of `p` is the chosen one. */
  ghost predicate Follows(next: map<Node, Node>, p: seq<Node>) {
    |p| <= 1 || (Follows(next, p[..|p| - 1]) && p[|p| - 2] in next && p[|p| - 1] == next[p[|p| - 2]])
  }

  lemma FollowsSnoc(next: map<Node, Node>, p: seq<Node>)
    requires p != [] && Follows(next, p) && p[|p| - 1] in next
    ensures Follows(next, p + [next[p[|p| - 1]]])
  {
    assert (p + [next[p[|p| - 1]]])[..|p|] == p;
  }

  lemma {:induction false} FollowsAt(next: map<Node, Node>, p: seq<Node>, i: nat)
    requires Follows(next, p) && i + 1 < |p|
    ensures p[i] in next && p[i + 1] == next[p[i]]
  {
    if i + 2 < |p| {
      FollowsAt(next, p[..|p| - 1], i);
    }
  }

  ghost predicate Preferred(g: Preds, succ: Preds, col: Score, height: Score, a: Node, b: Node)
    requires Drawable(g, succ, col, height)
  {
    a in g && succ[a] != [] && b == NextOnSpine(succ[a], a, col, height)
  }

  lemma NoneIsSource(g: Preds, refs: seq<Node>)
    requires Closed(g) && refs != [] && Elements(refs) == g.Keys && Sources(refs, g) == []
    ensures g.Keys != {} && forall k :: k in g.Keys ==> HasPredIn(g, g.Keys, k)
  {
    assert refs[0] in g.Keys;
    forall k | k in g.Keys
      ensures HasPredIn(g, g.Keys, k)
    {
      assert k in Elements(refs) && k !in Sources(refs, g);
      assert g[k][0] in g[k];
    }
  }

  lemma SourceExists(g: Preds, refs: seq<Node>)
    requires Acyclic(g) && Closed(g) && refs != [] && Elements(refs) == g.Keys
    ensures Sources(refs, g) != []
  {
    if Sources(refs, g) == [] {
      NoneIsSource(g, refs);
      NoSourceMeansCycle(g, g.Keys);
    }
  }

  lemma SpineStep(g: Preds, succ: Preds, col: Score, height: Score, p: seq<Node>)
    requires Drawable(g, succ, col, height) && StepsPreferred(g, succ, col, height, p) && succ[p[|p| - 1]] != []
    ensures var cur := p[|p| - 1];
            var next := NextOnSpine(succ[cur], cur, col, height);
            StepsPreferred(g, succ, col, height, p + [next]) && height[next] < height[cur]
  {
    var cur := p[|p| - 1];
    var next := NextOnSpine(succ[cur], cur, col, height);
    assert Edge(g, cur, next);
    ExtendPath(g, p, next);
    FollowsSnoc(Choices(g, succ, col, height), p);
  }

  /** The walk onwards from `source`. */
  method WalkOn(g: Preds, succ: Preds, col: Score, height: Score, source: Node) returns (p: seq<Node>)
    requires Drawable(g, succ, col, height) && source in g
    ensures StepsPreferred(g, succ, col, height, p) && p[0] == source && succ[p[|p| - 1]] == []
  {
    p := [source];
    var cur := source;
    while succ[cur] != []
      invariant StepsPreferred(g, succ, col, height, p) && p[|p| - 1] == cur && p[0] == source
      decreases height[cur]
    {
      SpineStep(g, succ, col, height, p);
      cur := NextOnSpine(succ[cur], cur, col, height);
      p := p + [cur];
    }
  }

  method WalkSpine(g: Preds, succ: Preds, refs: seq<Node>, col: Score, height: Score) returns (p: seq<Node>)
    requires Drawable(g, succ, col, height) && Elements(refs) == g.Keys && Sources(refs, g) != []
    ensures IsSpine(g, succ, refs, col, height, p)
  {
    var source := FirstBest(Sources(refs, g), height);
    assert source in Elements(refs);
    p := WalkOn(g, succ, col, height, source);
  }

  /** Columns strictly rise along `p`. */
  ghost predicate Climbs(col: Score, p: seq<Node>) {
    && (forall k :: k in p ==> k in col)
    && forall i :: 0 < i < |p| ==> col[p[i - 1]] < col[p[i]]
  }

  lemma PathClimbs(g: Preds, succ: Preds, col: Score, height: Score, p: seq<Node>)
    requires Drawable(g, succ, col, height) && IsPath(g, p)
    ensures Climbs(col, p)
  {
    forall i | 0 < i < |p|
      ensures col[p[i - 1]] < col[p[i]]
    {
      PathEdge(g, p, i);
    }
  }

  lemma {:induction false} ColumnsRise(col: Score, p: seq<Node>, i: nat, j: nat)
    requires Climbs(col, p) && i <= j < |p|
    ensures col[p[i]] + (j - i) <= col[p[j]]
  {
    if i < j {
      ColumnsRise(col, p, i, j - 1);
    }
  }

  // --- how long the spine is --------------------------------------------------------

  ghost predicate NoShortcutAt(succ: Preds, col: Score, a: Node) {
    a in succ && a in col && forall s :: s in succ[a] && s in col ==> !IsShortcut(s, a, col)
  }

  ghost predicate LongestOfAll(g: Preds, p: seq<Node>) {
    forall q :: IsPath(g, q) ==> |q| <= |p|
  }

  lemma DeepestStep(g: Preds, succ: Preds, col: Score, height: Score, a: Node, b: Node)
    requires Drawable(g, succ, col, height) && Preferred(g, succ, col, height, a, b) && NoShortcutAt(succ, col, a)
    requires RecursAt(succ, height, a)
    ensures height[a] == 1 + height[b]
  {
    assert Shortcuts(succ[a], a, col) == [];
    var s :| s in succ[a] && s in succ && height[a] == 1 + height[s];
  }

  lemma DeepestDescends(g: Preds, succ: Preds, col: Score, height: Score, p: seq<Node>)
    requires Drawable(g, succ, col, height) && StepsPreferred(g, succ, col, height, p) && Recurrence(succ, height)
    requires forall a :: a in p ==> NoShortcutAt(succ, col, a)
    ensures height[p[0]] == height[p[|p| - 1]] + |p| - 1
  {
    var i := 1;
    while i < |p|
      invariant 1 <= i <= |p| && height[p[0]] == height[p[i - 1]] + i - 1
    {
      var a, b := p[i - 1], p[i];
      FollowsAt(Choices(g, succ, col, height), p, i - 1);
      assert RecursAt(succ, height, a) && Preferred(g, succ, col, height, a, b) && a in p;
      DeepestStep(g, succ, col, height, a, b);
      i := i + 1;
    }
  }

  lemma ShortcutTaken(g: Preds, succ: Preds, col: Score, height: Score, a: Node, b: Node)
    requires Drawable(g, succ, col, height) && Preferred(g, succ, col, height, a, b) && !NoShortcutAt(succ, col, a)
    ensures IsShortcut(b, a, col)
  {
    var s :| s in succ[a] && s in col && IsShortcut(s, a, col);
    assert s in Shortcuts(succ[a], a, col);
  }

  lemma TakenShortcutSkips(g: Preds, succ: Preds, col: Score, height: Score, p: seq<Node>, i: nat)
    requires Drawable(g, succ, col, height) && StepsPreferred(g, succ, col, height, p) && succ[p[|p| - 1]] == []
    requires i < |p| && !NoShortcutAt(succ, col, p[i])
    ensures |p| <= col[p[|p| - 1]]
  {
    assert i < |p| - 1;
    FollowsAt(Choices(g, succ, col, height), p, i);
    assert Preferred(g, succ, col, height, p[i], p[i + 1]);
    ShortcutTaken(g, succ, col, height, p[i], p[i + 1]);
    PathClimbs(g, succ, col, height, p);
    SkipCounts(col, p, i);
  }

  lemma SkipCounts(col: Score, p: seq<Node>, i: nat)
    requires Climbs(col, p) && i + 1 < |p| && IsShortcut(p[i + 1], p[i], col)
    ensures |p| <= col[p[|p| - 1]]
  {
    ColumnsRise(col, p, 0, i);
    ColumnsRise(col, p, i + 1, |p| - 1);
  }

  lemma SourceReachesAsFar(g: Preds, succ: Preds, refs: seq<Node>, height: Score, q: seq<Node>) returns (s: Node)
    requires Closed(g) && Acyclic(g) && Reversal(g, succ) && Acyclic(succ) && height == Depths(succ)
    requires Elements(refs) == g.Keys && IsPath(g, q)
    ensures s in Sources(refs, g) && s in height && |q| <= height[s] + 1
  {
    var k := q[|q| - 1];
    DepthBound(g, q, k);
    LongestPathStartsAtSource(g, k);
    var r :| PathTo(g, r, k) && |r| == Depth(g, k) + 1 && g[r[0]] == [];
    s := r[0];
    HeightIsReversedDepth(g, succ, s);
    assert PathFrom(g, r, s);
    assert s in Elements(refs);
  }

  lemma LongestWithoutShortcuts(g: Preds, succ: Preds, refs: seq<Node>, col: Score, height: Score, p: seq<Node>)
    requires Closed(g) && Acyclic(g) && Reversal(g, succ) && Acyclic(succ) && height == Depths(succ)
             && Recurrence(succ, height)
    requires Drawable(g, succ, col, height) && Elements(refs) == g.Keys && IsSpine(g, succ, refs, col, height, p)
    requires forall a :: a in p ==> NoShortcutAt(succ, col, a)
    ensures LongestOfAll(g, p)
  {
    DeepestDescends(g, succ, col, height, p);
    assert RecursAt(succ, height, p[|p| - 1]);
    forall q | IsPath(g, q)
      ensures |q| <= |p|
    {
      var s := SourceReachesAsFar(g, succ, refs, height, q);
    }
  }

  lemma NotLongestWithShortcut(g: Preds, succ: Preds, col: Score, height: Score, p: seq<Node>, a: Node)
    requires Acyclic(g) && col == Depths(g) && Drawable(g, succ, col, height)
    requires StepsPreferred(g, succ, col, height, p) && succ[p[|p| - 1]] == []
    requires a in p && !NoShortcutAt(succ, col, a)
    ensures !LongestOfAll(g, p)
  {
    TakenShortcutSkips(g, succ, col, height, p, IndexOf(p, a));
    var last := p[|p| - 1];
    DepthMeaning(g, last);
    var q :| PathTo(g, q, last) && |q| == col[last] + 1;
  }

  /** The spine is a longest path of the whole graph exactly when no event on it
      has a shortcut to take; the code prefers the shortcut over the length. */
  lemma SpineIsLongestIff(g: Preds, succ: Preds, refs: seq<Node>, col: Score, height: Score, p: seq<Node>)
    requires Closed(g) && Acyclic(g) && Reversal(g, succ) && col == Depths(g) && height == DepthsOfReversal(g, succ)
    requires Drawable(g, succ, col, height) && Elements(refs) == g.Keys && IsSpine(g, succ, refs, col, height, p)
    ensures LongestOfAll(g, p) <==> forall a :: a in p ==> NoShortcutAt(succ, col, a)
  {
    ReversalAcyclic(g, succ);
    DepthsRecur(succ);
    if forall a :: a in p ==> NoShortcutAt(succ, col, a) {
      LongestWithoutShortcuts(g, succ, refs, col, height, p);
    } else {
      var a :| a in p && !NoShortcutAt(succ, col, a);
      NotLongestWithShortcut(g, succ, col, height, p, a);
    }
  }

  ghost function DepthsOfReversal(g: Preds, succ: Preds): Score
    requires Reversal(g, succ) && Acyclic(g)
  {
    ReversalAcyclic(g, succ);
    Depths(succ)
  }

  lemma RanksAreDrawable(g: Preds, succ: Preds)
    requires Closed(g) && Acyclic(g) && Reversal(g, succ)
    ensures Drawable(g, succ, Depths(g), DepthsOfReversal(g, succ))
  {
    ReversalAcyclic(g, succ);
    forall a, b
      ensures Edge(g, a, b) <==> Edge(succ, b, a)
    {
      ReversalEdge(g, succ, a, b);
    }
    forall a, b | Edge(g, a, b)
      ensures Depth(g, a) < Depth(g, b) && Depth(succ, b) < Depth(succ, a)
    {
      DepthRises(g, a, b);
      DepthRises(succ, b, a);
    }
  }

  // --- the smallest graph whose spine is not longest --------------------------------

  /** Three events, `a` before `b` before `c`, and `a` before `c` as well. */
  ghost predicate IsFork(g: Preds, succ: Preds, a: Node, b: Node, c: Node) {
    && a != b && b != c && a != c && g.Keys == succ.Keys == {a, b, c}
    && g[a] == [] && g[b] == [a] && g[c] == [a, b]
    && succ[a] == [b, c] && succ[b] == [c] && succ[c] == []
  }

  /** Lists without repeats reverse each other as soon as their edges do. */
  lemma ReversalOfDistinct(g: Preds, succ: Preds)
    requires succ.Keys == g.Keys && Closed(succ) && forall k :: k in g ==> Distinct(g[k]) && Distinct(succ[k])
    requires forall x, y :: x in g && y in g ==> (y in succ[x] <==> x in g[y])
    ensures Reversal(g, succ)
  {
    forall x, y | x in g && y in g
      ensures multiset(succ[x])[y] == multiset(g[y])[x]
    {
      DistinctCounts(succ[x], y);
      DistinctCounts(g[y], x);
      assert y in multiset(succ[x]) <==> y in succ[x];
      assert x in multiset(g[y]) <==> x in g[y];
    }
  }

  lemma ForkIsReversed(g: Preds, succ: Preds, a: Node, b: Node, c: Node)
    requires IsFork(g, succ, a, b, c)
    ensures Reversal(g, succ) && Closed(g)
  {
    ReversalOfDistinct(g, succ);
  }

  lemma ForkIsAcyclic(g: Preds, succ: Preds, a: Node, b: Node, c: Node)
    requires IsFork(g, succ, a, b, c)
    ensures Acyclic(g)
  {
    var rank := map[a := 0, b := 1, c := 2];
    assert rank[a] == 0 && rank[b] == 1 && rank[c] == 2;
    RankedIsAcyclic(g, rank);
  }

  lemma ForkColumns(g: Preds, succ: Preds, a: Node, b: Node, c: Node, col: Score)
    requires IsFork(g, succ, a, b, c) && Recurrence(g, col)
    ensures col[a] == 0 && col[b] == 1 && col[c] == 2
  {
    assert RecursAt(g, col, a) && RecursAt(g, col, b) && RecursAt(g, col, c);
    assert b in g[c];
  }

  lemma ForkTakesShortcut(g: Preds, succ: Preds, a: Node, b: Node, c: Node, col: Score, height: Score)
    requires IsFork(g, succ, a, b, c) && Drawable(g, succ, col, height) && col[a] == 0 && col[b] == 1 && col[c] == 2
    ensures NextOnSpine(succ[a], a, col, height) == c
  {
    assert c in succ[a] && IsShortcut(c, a, col) && !IsShortcut(b, a, col);
  }

  lemma OneStep(next: map<Node, Node>, a: Node)
    requires a in next
    ensures Follows(next, [a, next[a]])
  {
    FollowsSnoc(next, [a]);
    assert [a] + [next[a]] == [a, next[a]];
  }

  lemma ForkPath(g: Preds, succ: Preds, a: Node, b: Node, c: Node)
    requires IsFork(g, succ, a, b, c)
    ensures IsPath(g, [a, c])
  {
    assert Edge(g, a, c);
  }

  lemma ForkSteps(g: Preds, succ: Preds, a: Node, b: Node, c: Node, col: Score, height: Score)
    requires IsFork(g, succ, a, b, c) && Drawable(g, succ, col, height) && col[a] == 0 && col[b] == 1 && col[c] == 2
    ensures StepsPreferred(g, succ, col, height, [a, c])
  {
    ForkTakesShortcut(g, succ, a, b, c, col, height);
    ForkPath(g, succ, a, b, c);
    OneStep(Choices(g, succ, col, height), a);
  }

  lemma ForkStart(g: Preds, succ: Preds, a: Node, b: Node, c: Node, height: Score)
    requires IsFork(g, succ, a, b, c) && height.Keys == g.Keys
    ensures Sources([a, b, c], g) != [] && FirstBest(Sources([a, b, c], g), height) == a
  {
    var refs := [a, b, c];
    assert a in refs && a in Sources(refs, g);
  }

  /** There the spine takes the shortcut from `a` to `c` and misses the longer way
      over `b`. */
  lemma ForkSpineIsShorter(g: Preds, succ: Preds, a: Node, b: Node, c: Node)
    requires IsFork(g, succ, a, b, c)
    ensures Closed(g) && Acyclic(g) && Reversal(g, succ) && Drawable(g, succ, Depths(g), DepthsOfReversal(g, succ))
    ensures IsSpine(g, succ, [a, b, c], Depths(g), DepthsOfReversal(g, succ), [a, c])
    ensures !LongestOfAll(g, [a, c])
  {
    ForkIsReversed(g, succ, a, b, c);
    ForkIsAcyclic(g, succ, a, b, c);
    RanksAreDrawable(g, succ);
    DepthsRecur(g);
    var col, height := Depths(g), DepthsOfReversal(g, succ);
    ForkColumns(g, succ, a, b, c, col);
    ForkSteps(g, succ, a, b, c, col, height);
    ForkStart(g, succ, a, b, c, height);
    LongerWay(g, succ, a, b, c);
  }

  lemma LongerWay(g: Preds, succ: Preds, a: Node, b: Node, c: Node)
    requires IsFork(g, succ, a, b, c)
    ensures !LongestOfAll(g, [a, c])
  {
    assert Edge(g, a, b) && Edge(g, b, c);
    assert IsPath(g, [a, b, c]);
  }

  /** The three-event model itself. */
  lemma SpineNeedNotBeLongest()
    ensures var a, b, c := Node("a"), Node("b"), Node("c");
            var g, succ := map[a := [], b := [a], c := [a, b]], map[a := [b, c], b := [c], c := []];
            && Acyclic(g) && Reversal(g, succ) && Drawable(g, succ, Depths(g), DepthsOfReversal(g, succ))
            && IsSpine(g, succ, [a, b, c], Depths(g), DepthsOfReversal(g, succ), [a, c]) && !LongestOfAll(g, [a, c])
  {
    var a, b, c := Node("a"), Node("b"), Node("c");
    var g, succ := map[a := [], b := [a], c := [a, b]], map[a := [b, c], b := [c], c := []];
    ForkSpineIsShorter(g, succ, a, b, c);
  }
}
