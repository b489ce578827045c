/** Aggregate-root inheritance along `follows`: what the depth-first search with
    a shared `seen` set computes, on any graph and on an acyclic one. */
module Inheritance {
  import opened Common
  import opened Graph

  type Roots = map<Node, string>

  /** What one search answers: the root found ("" for none), the predecessor it
      came through, and the `seen` set it leaves behind. */
  datatype Found = Found(root: string, via: Option<Node>, seen: set<Node>)

  function Search(g: Preds, roots: Roots, k: Node, seen: set<Node>): (r: Found)
    requires roots.Keys == g.Keys
    ensures seen <= r.seen <= seen + g.Keys
    ensures r.root != "" && k in g && roots[k] == "" ==> r.via.Some? && Edge(g, r.via.value, k)
    decreases |g.Keys - seen|, 0
  {
    if k !in g then Found("", None, seen)
    else if roots[k] != "" then Found(roots[k], None, seen)
    else if k in seen then Found("", None, seen)
    else
      assert g.Keys - (seen + {k}) < g.Keys - seen;
      SubsetSize(g.Keys - (seen + {k}), g.Keys - seen - {k});
      Scan(g, roots, k, 0, seen + {k})
  }

  /** The loop over `k`'s predecessors from position `i` on. */
  function Scan(g: Preds, roots: Roots, k: Node, i: nat, seen: set<Node>): (r: Found)
    requires roots.Keys == g.Keys && k in g && i <= |g[k]|
    ensures seen <= r.seen <= seen + g.Keys
    ensures r.root != "" ==> r.via.Some? && Edge(g, r.via.value, k)
    decreases |g.Keys - seen|, |g[k]| - i
  {
    if i == |g[k]| then Found("", None, seen)
    else
      var p := g[k][i];
      if p !in g then Scan(g, roots, k, i + 1, seen)
      else if roots[p] != "" then Found(roots[p], Some(p), seen)
      else
        var f := Search(g, roots, p, seen);
        if f.root != "" then Found(f.root, Some(p), f.seen)
        else
          SubsetSize(g.Keys - f.seen, g.Keys - seen);
          Scan(g, roots, k, i + 1, f.seen)
  }

  // --- any graph: a root is inherited iff one is reachable --------------------------

  ghost predicate HasRoot(g: Preds, roots: Roots, k: Node)
    requires roots.Keys == g.Keys
  {
    k in g && (roots[k] != "" || exists a :: Before(g, a, k) && a in g && roots[a] != "")
  }

  /** `n` has no root and the search has looked at everything before it. */
  ghost predicate Exhausted(g: Preds, roots: Roots, n: Node, seen: set<Node>)
    requires roots.Keys == g.Keys
  {
    n in g && roots[n] == "" && forall p :: p in g[n] && p in g ==> p in seen
  }

  lemma {:induction false} SearchFinds(g: Preds, roots: Roots, k: Node, seen: set<Node>)
    requires roots.Keys == g.Keys
    ensures Search(g, roots, k, seen).root != "" ==> HasRoot(g, roots, k)
    decreases |g.Keys - seen|, 0
  {
    if k in g && roots[k] == "" && k !in seen {
      SubsetSize(g.Keys - (seen + {k}), g.Keys - seen - {k});
      ScanFinds(g, roots, k, 0, seen + {k});
    }
  }

  lemma {:induction false} ScanFinds(g: Preds, roots: Roots, k: Node, i: nat, seen: set<Node>)
    requires roots.Keys == g.Keys && k in g && i <= |g[k]|
    ensures Scan(g, roots, k, i, seen).root != "" ==> HasRoot(g, roots, k)
    decreases |g.Keys - seen|, |g[k]| - i
  {
    if i < |g[k]| {
      var p := g[k][i];
      if p !in g {
        ScanFinds(g, roots, k, i + 1, seen);
      } else {
        EdgeIsBefore(g, p, k);
        if roots[p] == "" {
          SearchFinds(g, roots, p, seen);
          if HasRoot(g, roots, p) {
            var a :| Before(g, a, p) && a in g && roots[a] != "";
            BeforeTransitive(g, a, p, k);
          }
          var f := Search(g, roots, p, seen);
          if f.root == "" {
            SubsetSize(g.Keys - f.seen, g.Keys - seen);
            ScanFinds(g, roots, k, i + 1, f.seen);
          }
        }
      }
    }
  }

  lemma {:induction false} SearchExhausts(g: Preds, roots: Roots, k: Node, seen: set<Node>)
    requires roots.Keys == g.Keys && k in g
    ensures var r := Search(g, roots, k, seen);
            r.root == "" ==>
              k in r.seen && roots[k] == "" && forall n :: n in r.seen - seen ==> Exhausted(g, roots, n, r.seen)
    decreases |g.Keys - seen|, 0
  {
    if roots[k] == "" && k !in seen {
      SubsetSize(g.Keys - (seen + {k}), g.Keys - seen - {k});
      ScanExhausts(g, roots, k, 0, seen + {k});
    }
  }

  lemma {:induction false} ScanExhausts(g: Preds, roots: Roots, k: Node, i: nat, seen: set<Node>)
    requires roots.Keys == g.Keys && k in g && i <= |g[k]|
    ensures var r := Scan(g, roots, k, i, seen);
            r.root == "" ==>
              && (forall j :: i <= j < |g[k]| && g[k][j] in g ==> g[k][j] in r.seen)
              && (forall n :: n in r.seen - seen ==> Exhausted(g, roots, n, r.seen))
    decreases |g.Keys - seen|, |g[k]| - i
  {
    if i < |g[k]| {
      var p := g[k][i];
      if p !in g {
        ScanExhausts(g, roots, k, i + 1, seen);
        assert Scan(g, roots, k, i, seen) == Scan(g, roots, k, i + 1, seen);
      } else if roots[p] == "" {
        SearchExhausts(g, roots, p, seen);
        var f := Search(g, roots, p, seen);
        if f.root == "" {
          SubsetSize(g.Keys - f.seen, g.Keys - seen);
          ScanExhausts(g, roots, k, i + 1, f.seen);
          var r := Scan(g, roots, k, i, seen);
          forall n | r.root == "" && n in r.seen - seen
            ensures Exhausted(g, roots, n, r.seen)
          {
            assert n in f.seen ==> Exhausted(g, roots, n, f.seen);
          }
        }
      }
    }
  }

  lemma {:induction false} NothingBeforeExhausted(g: Preds, roots: Roots, seen: set<Node>, p: seq<Node>)
    requires roots.Keys == g.Keys && IsPath(g, p) && p[|p| - 1] in seen
    requires forall n :: n in seen ==> Exhausted(g, roots, n, seen)
    ensures p[0] in seen
  {
    if |p| > 1 {
      PathFront(g, p);
      assert Exhausted(g, roots, p[|p| - 1], seen);
      NothingBeforeExhausted(g, roots, seen, p[..|p| - 1]);
    }
  }

  /** On any graph, cyclic or not: a search from an event without a root finds
      one exactly when a declared root lies somewhere before it. */
  lemma InheritsIffReachable(g: Preds, roots: Roots, k: Node)
    requires roots.Keys == g.Keys && k in g
    ensures Search(g, roots, k, {}).root != "" <==> HasRoot(g, roots, k)
  {
    SearchFinds(g, roots, k, {});
    SearchExhausts(g, roots, k, {});
    var r := Search(g, roots, k, {});
    if r.root == "" && HasRoot(g, roots, k) {
      var a :| Before(g, a, k) && a in g && roots[a] != "";
      var p :| PathBetween(g, a, k, p) && |p| >= 2;
      NothingBeforeExhausted(g, roots, r.seen, p);
    }
  }

  /** Writing an inherited root back changes nobody's chance of finding one. */
  lemma WriteBackKeepsReachability(g: Preds, roots: Roots, k: Node, root: string, x: Node)
    requires roots.Keys == g.Keys && k in g && root != "" && HasRoot(g, roots, k)
    ensures HasRoot(g, roots[k := root], x) <==> HasRoot(g, roots, x)
  {
    var roots' := roots[k := root];
    if HasRoot(g, roots', x) {
      if roots'[x] == "" {
        var a :| Before(g, a, x) && a in g && roots'[a] != "";
        if a == k && roots[k] == "" {
          var b :| Before(g, b, k) && b in g && roots[b] != "";
          BeforeTransitive(g, b, k, x);
        }
      }
    }
  }

  // --- acyclic graph: the first predecessor that resolves ---------------------------

  /** The pure definition: an event's own root, else what its first resolving
      predecessor resolves to. */
  ghost function Resolve(g: Preds, roots: Roots, k: Node): string
    requires roots.Keys == g.Keys && Acyclic(g) && k in g
    decreases |Ancestors(g, k)|, |g[k]| + 1
  {
    if roots[k] != "" then roots[k]
    else
      var i := FirstResolving(g, roots, k, 0);
      if i == |g[k]| then "" else AncestorsShrink(g, g[k][i], k); Resolve(g, roots, g[k][i])
  }

  /** The position of the first predecessor, from `i` on, that resolves. */
  ghost function FirstResolving(g: Preds, roots: Roots, k: Node, i: nat): (j: nat)
    requires roots.Keys == g.Keys && Acyclic(g) && k in g && i <= |g[k]|
    ensures i <= j <= |g[k]| && (j < |g[k]| ==> g[k][j] in g)
    decreases |Ancestors(g, k)|, |g[k]| - i
  {
    if i == |g[k]| then i
    else if g[k][i] in g && (AncestorsShrink(g, g[k][i], k); Resolve(g, roots, g[k][i]) != "") then i
    else FirstResolving(g, roots, k, i + 1)
  }

  lemma {:induction false} FirstResolvingMeaning(g: Preds, roots: Roots, k: Node, i: nat)
    requires roots.Keys == g.Keys && Acyclic(g) && k in g && i <= |g[k]|
    ensures var j := FirstResolving(g, roots, k, i);
            && (j < |g[k]| ==> Resolve(g, roots, g[k][j]) != "")
            && (forall m :: i <= m < j && g[k][m] in g ==> Resolve(g, roots, g[k][m]) == "")
    decreases |g[k]| - i
  {
    if i < |g[k]| && FirstResolving(g, roots, k, i) != i {
      FirstResolvingMeaning(g, roots, k, i + 1);
    }
  }

  /** `seen` holds only events that resolve to nothing, and events the search is
      still inside, all of which lie after `k`. */
  ghost predicate SeenIsSpent(g: Preds, roots: Roots, k: Node, seen: set<Node>)
    requires roots.Keys == g.Keys && Acyclic(g)
  {
    forall s :: s in seen && s in g ==> Resolve(g, roots, s) == "" || Before(g, k, s)
  }

  lemma {:induction false} SearchResolves(g: Preds, roots: Roots, k: Node, seen: set<Node>)
    requires roots.Keys == g.Keys && Acyclic(g) && k in g && SeenIsSpent(g, roots, k, seen)
    ensures var r := Search(g, roots, k, seen);
            && r.root == Resolve(g, roots, k)
            && (roots[k] == "" && r.root != "" ==> r.via == Some(g[k][FirstResolving(g, roots, k, 0)]))
            && (r.root == "" ==> forall s :: s in r.seen - seen && s in g ==> Resolve(g, roots, s) == "")
    decreases |g.Keys - seen|, 0
  {
    if roots[k] == "" && k !in seen {
      SubsetSize(g.Keys - (seen + {k}), g.Keys - seen - {k});
      ScanResolves(g, roots, k, 0, seen + {k});
    } else if roots[k] == "" {
      assert !Before(g, k, k);
    }
  }

  lemma {:induction false} ScanResolves(g: Preds, roots: Roots, k: Node, i: nat, seen: set<Node>)
    requires roots.Keys == g.Keys && Acyclic(g) && k in g && roots[k] == "" && i <= |g[k]|
    requires k in seen && SeenIsSpent(g, roots, k, seen - {k})
    ensures var r := Scan(g, roots, k, i, seen);
            var j := FirstResolving(g, roots, k, i);
            && (j < |g[k]| ==> r.root == Resolve(g, roots, g[k][j]) && r.root != "" && r.via == Some(g[k][j]))
            && (j == |g[k]| ==> r.root == "" && forall s :: s in r.seen - seen && s in g ==> Resolve(g, roots, s) == "")
    decreases |g.Keys - seen|, |g[k]| - i
  {
    if i < |g[k]| {
      var p := g[k][i];
      if p !in g {
        ScanResolves(g, roots, k, i + 1, seen);
      } else {
        assert Edge(g, p, k);
        AncestorsShrink(g, p, k);
        StillInside(g, roots, p, k, seen);
        SearchResolves(g, roots, p, seen);
        var f := Search(g, roots, p, seen);
        if f.root == "" {
          SubsetSize(g.Keys - f.seen, g.Keys - seen);
          ScanResolves(g, roots, k, i + 1, f.seen);
        }
      }
    }
  }

  lemma StillInside(g: Preds, roots: Roots, p: Node, k: Node, seen: set<Node>)
    requires roots.Keys == g.Keys && Acyclic(g) && Edge(g, p, k)
    requires SeenIsSpent(g, roots, k, seen - {k})
    ensures SeenIsSpent(g, roots, p, seen)
  {
    EdgeIsBefore(g, p, k);
    forall s | s in seen && s in g
      ensures Resolve(g, roots, s) == "" || Before(g, p, s)
    {
      if s != k && Before(g, k, s) {
        BeforeTransitive(g, p, k, s);
      }
    }
  }

  /** Writing a resolved root back leaves every resolution as it was, which is
      why the order in which events are visited does not matter. */
  lemma {:induction false} WriteBackKeepsResolution(g: Preds, roots: Roots, k: Node, x: Node)
    requires roots.Keys == g.Keys && Acyclic(g) && k in g && x in g && Resolve(g, roots, k) != ""
    ensures Resolve(g, roots[k := Resolve(g, roots, k)], x) == Resolve(g, roots, x)
    decreases |Ancestors(g, x)|, |g[x]| + 1
  {
    if x != k && roots[x] == "" {
      WriteBackKeepsFirst(g, roots, k, x, 0);
      var i := FirstResolving(g, roots, x, 0);
      if i < |g[x]| {
        AncestorsShrink(g, g[x][i], x);
        WriteBackKeepsResolution(g, roots, k, g[x][i]);
      }
    }
  }

  lemma {:induction false} WriteBackKeepsFirst(g: Preds, roots: Roots, k: Node, x: Node, i: nat)
    requires roots.Keys == g.Keys && Acyclic(g) && k in g && x in g && i <= |g[x]| && Resolve(g, roots, k) != ""
    ensures FirstResolving(g, roots[k := Resolve(g, roots, k)], x, i) == FirstResolving(g, roots, x, i)
    decreases |Ancestors(g, x)|, |g[x]| - i
  {
    if i < |g[x]| {
      if g[x][i] in g {
        AncestorsShrink(g, g[x][i], x);
        WriteBackKeepsResolution(g, roots, k, g[x][i]);
      }
      WriteBackKeepsFirst(g, roots, k, x, i + 1);
    }
  }

  // --- the pass over all events ------------------------------------------------------

  /** The events that own a root or can inherit one. */
  ghost function Rooted(g: Preds, roots: Roots): set<Node>
    requires roots.Keys == g.Keys
  {
    set k | k in g && HasRoot(g, roots, k)
  }

  ghost function Resolution(g: Preds, roots: Roots): Roots
    requires roots.Keys == g.Keys && Acyclic(g)
  {
    map k | k in g :: Resolve(g, roots, k)
  }

  /** For every event, the predecessor it would inherit from. */
  ghost function Vias(g: Preds, roots: Roots): map<Node, Node>
    requires roots.Keys == g.Keys && Acyclic(g)
  {
    map k | k in g && FirstResolving(g, roots, k, 0) < |g[k]| :: g[k][FirstResolving(g, roots, k, 0)]
  }

  /** The pass rewrote `before` into `now` while it visited the events in `done`.
      The last part needs an acyclic graph; everything else holds on any. */
  ghost predicate PassedUpTo(g: Preds, before: Roots, now: Roots, coupled: map<Node, Node>, done: set<Node>) {
    && before.Keys == now.Keys == g.Keys && done <= g.Keys
    && Rooted(g, now) == Rooted(g, before)
    && Rewritten(g, Rooted(g, before), before, now, coupled, done)
    && (Acyclic(g) ==> ResolvedUpTo(g, before, now, coupled, done))
  }

  /** Only visited events without a root of their own changed; they carry a root
      exactly if they are `rooted`, and then they are coupled to a predecessor. */
  ghost predicate Rewritten(g: Preds, rooted: set<Node>, before: Roots, now: Roots, coupled: map<Node, Node>,
                            done: set<Node>)
    requires before.Keys == now.Keys == g.Keys && done <= g.Keys
  {
    && (forall k :: k in g && (k !in done || before[k] != "") ==> now[k] == before[k])
    && (forall k :: k in done ==> (now[k] != "" <==> k in rooted))
    && (forall k :: k in coupled <==> k in done && before[k] == "" && now[k] != "")
    && (forall k :: k in coupled ==> Edge(g, coupled[k], k))
  }

  lemma RewrittenWrites(g: Preds, rooted: set<Node>, before: Roots, now: Roots, coupled: map<Node, Node>,
                        done: set<Node>, k: Node, root: string, via: Node)
    requires before.Keys == now.Keys == g.Keys && done <= g.Keys && Rewritten(g, rooted, before, now, coupled, done)
    requires k in g && k !in done && now[k] == "" && root != "" && k in rooted && Edge(g, via, k)
    ensures Rewritten(g, rooted, before, now[k := root], coupled[k := via], done + {k})
  {
  }

  ghost predicate ResolvedUpTo(g: Preds, before: Roots, now: Roots, coupled: map<Node, Node>, done: set<Node>)
    requires before.Keys == now.Keys == g.Keys && done <= g.Keys && Acyclic(g)
  {
    Resolution(g, now) == Resolution(g, before) && Copied(Resolution(g, before), Vias(g, before), now, coupled, done)
  }

  /** The events in `done` carry their resolved root, the coupled ones the
      predecessor it comes through. */
  ghost predicate Copied(resolved: Roots, vias: map<Node, Node>, now: Roots, coupled: map<Node, Node>,
                         done: set<Node>) {
    && (forall k :: k in done ==> k in now && k in resolved && now[k] == resolved[k])
    && (forall k :: k in coupled ==> k in vias && coupled[k] == vias[k])
  }

  lemma CopiedWrites(resolved: Roots, vias: map<Node, Node>, now: Roots, coupled: map<Node, Node>, done: set<Node>,
                     k: Node)
    requires Copied(resolved, vias, now, coupled, done) && k in resolved && k in vias
    ensures Copied(resolved, vias, now[k := resolved[k]], coupled[k := vias[k]], done + {k})
  {
  }

  lemma PassStarts(g: Preds, before: Roots)
    requires before.Keys == g.Keys
    ensures PassedUpTo(g, before, before, map[], {})
  {
  }

  /** An event with a root of its own is skipped. */
  lemma PassSkips(g: Preds, before: Roots, now: Roots, coupled: map<Node, Node>, done: set<Node>, k: Node)
    requires PassedUpTo(g, before, now, coupled, done) && k in g && k !in done && now[k] != ""
    ensures PassedUpTo(g, before, now, coupled, done + {k})
  {
    assert k in Rooted(g, before) by {
      assert HasRoot(g, before, k);
    }
  }

  /** An event for which the search comes back empty is reported. */
  lemma PassReports(g: Preds, before: Roots, now: Roots, coupled: map<Node, Node>, done: set<Node>, k: Node)
    requires PassedUpTo(g, before, now, coupled, done) && k in g && k !in done && now[k] == ""
    requires Search(g, now, k, {}).root == ""
    ensures PassedUpTo(g, before, now, coupled, done + {k})
  {
    InheritsIffReachable(g, now, k);
    assert k !in Rooted(g, now);
    if Acyclic(g) {
      SearchResolves(g, now, k, {});
      assert Resolution(g, now)[k] == "";
    }
  }

  lemma RootedKept(g: Preds, now: Roots, k: Node, root: string)
    requires now.Keys == g.Keys && k in g && root != "" && HasRoot(g, now, k)
    ensures Rooted(g, now[k := root]) == Rooted(g, now)
  {
    forall x | x in g
      ensures HasRoot(g, now[k := root], x) <==> HasRoot(g, now, x)
    {
      WriteBackKeepsReachability(g, now, k, root, x);
    }
  }

  lemma ResolutionKept(g: Preds, now: Roots, k: Node)
    requires now.Keys == g.Keys && k in g && Acyclic(g) && Resolve(g, now, k) != ""
    ensures Resolution(g, now[k := Resolve(g, now, k)]) == Resolution(g, now)
  {
    forall x | x in g
      ensures Resolve(g, now[k := Resolve(g, now, k)], x) == Resolve(g, now, x)
    {
      WriteBackKeepsResolution(g, now, k, x);
    }
  }

  lemma {:induction false} SameFirst(g: Preds, a: Roots, b: Roots, k: Node, i: nat)
    requires a.Keys == g.Keys && b.Keys == g.Keys && Acyclic(g) && k in g && i <= |g[k]|
    requires Resolution(g, a) == Resolution(g, b)
    ensures FirstResolving(g, a, k, i) == FirstResolving(g, b, k, i)
    decreases |g[k]| - i
  {
    if i < |g[k]| {
      if g[k][i] in g {
        assert Resolution(g, a)[g[k][i]] == Resolution(g, b)[g[k][i]];
      }
      SameFirst(g, a, b, k, i + 1);
    }
  }

  lemma ViaOfSearch(g: Preds, before: Roots, now: Roots, k: Node)
    requires before.Keys == now.Keys == g.Keys && Acyclic(g) && k in g && now[k] == ""
    requires Resolution(g, now) == Resolution(g, before)
    requires Search(g, now, k, {}).root != ""
    ensures var f := Search(g, now, k, {});
            && f.root == Resolve(g, now, k) == Resolution(g, before)[k]
            && k in Vias(g, before) && f.via == Some(Vias(g, before)[k])
  {
    SearchResolves(g, now, k, {});
    SameFirst(g, before, now, k, 0);
    FirstResolvingMeaning(g, now, k, 0);
    assert Resolution(g, now)[k] == Resolve(g, now, k);
  }

  lemma ResolvedWrites(g: Preds, before: Roots, now: Roots, coupled: map<Node, Node>, done: set<Node>, k: Node,
                       root: string, via: Node)
    requires before.Keys == now.Keys == g.Keys && done <= g.Keys && k in g && Acyclic(g)
    requires ResolvedUpTo(g, before, now, coupled, done)
    requires Resolution(g, now[k := root]) == Resolution(g, now) && root == Resolution(g, before)[k]
    requires k in Vias(g, before) && via == Vias(g, before)[k]
    ensures ResolvedUpTo(g, before, now[k := root], coupled[k := via], done + {k})
  {
    CopiedWrites(Resolution(g, before), Vias(g, before), now, coupled, done, k);
  }

  lemma Writes(g: Preds, before: Roots, now: Roots, coupled: map<Node, Node>, done: set<Node>, k: Node, root: string,
               via: Node)
    requires PassedUpTo(g, before, now, coupled, done) && k in g && k !in done && now[k] == ""
    requires root != "" && k in Rooted(g, before) && Rooted(g, now[k := root]) == Rooted(g, before) && Edge(g, via, k)
    requires Acyclic(g) ==> ResolvedUpTo(g, before, now[k := root], coupled[k := via], done + {k})
    ensures PassedUpTo(g, before, now[k := root], coupled[k := via], done + {k})
  {
    RewrittenWrites(g, Rooted(g, before), before, now, coupled, done, k, root, via);
  }

  /** A found root and the predecessor it came through are written back. */
  lemma PassWrites(g: Preds, before: Roots, now: Roots, coupled: map<Node, Node>, done: set<Node>, k: Node)
    requires PassedUpTo(g, before, now, coupled, done) && k in g && k !in done && now[k] == ""
    requires Search(g, now, k, {}).root != ""
    ensures var f := Search(g, now, k, {});
            PassedUpTo(g, before, now[k := f.root], coupled[k := f.via.value], done + {k})
  {
    var f := Search(g, now, k, {});
    var root, via := f.root, f.via.value;
    assert k in Rooted(g, now) && Rooted(g, now[k := root]) == Rooted(g, now) by {
      InheritsIffReachable(g, now, k);
      RootedKept(g, now, k, root);
    }
    if Acyclic(g) {
      ViaOfSearch(g, before, now, k);
      ResolutionKept(g, now, k);
      ResolvedWrites(g, before, now, coupled, done, k, root, via);
    }
    Writes(g, before, now, coupled, done, k, root, via);
  }

  /** One round of the pass, on the maps. */
  ghost function Round(g: Preds, now: Roots, coupled: map<Node, Node>, k: Node): (Roots, map<Node, Node>)
    requires now.Keys == g.Keys && k in g
  {
    var f := Search(g, now, k, {});
    if now[k] != "" || f.root == "" then (now, coupled)
    else (now[k := f.root], coupled[k := f.via.value])
  }

  lemma PassRound(g: Preds, before: Roots, now: Roots, coupled: map<Node, Node>, done: set<Node>, k: Node)
    requires PassedUpTo(g, before, now, coupled, done) && k in g && k !in done
    ensures var (now', coupled') := Round(g, now, coupled, k);
            PassedUpTo(g, before, now', coupled', done + {k})
  {
    if now[k] != "" {
      PassSkips(g, before, now, coupled, done, k);
    } else if Search(g, now, k, {}).root != "" {
      PassWrites(g, before, now, coupled, done, k);
    } else {
      PassReports(g, before, now, coupled, done, k);
    }
  }

  /** The whole pass over the first events of the list, on the maps. */
  ghost function Pass(g: Preds, before: Roots, keys: seq<Node>): (r: (Roots, map<Node, Node>))
    requires before.Keys == g.Keys && forall k :: k in keys ==> k in g
    ensures r.0.Keys == g.Keys
  {
    if keys == [] then (before, map[])
    else
      var (now, coupled) := Pass(g, before, keys[..|keys| - 1]);
      Round(g, now, coupled, keys[|keys| - 1])
  }

  lemma {:induction false} PassSound(g: Preds, before: Roots, keys: seq<Node>)
    requires before.Keys == g.Keys && Distinct(keys) && forall k :: k in keys ==> k in g
    ensures var (now, coupled) := Pass(g, before, keys);
            PassedUpTo(g, before, now, coupled, Elements(keys))
  {
    if keys == [] {
      PassStarts(g, before);
    } else {
      var front, last := keys[..|keys| - 1], keys[|keys| - 1];
      assert keys == front + [last];
      PassSound(g, before, front);
      ElementsSnoc(front, last);
      var (now, coupled) := Pass(g, before, front);
      PassRound(g, before, now, coupled, Elements(front), last);
    }
  }

  /** What a finished pass leaves at `k`: its own root, or the root of the first
      predecessor that has one and a coupling to exactly that predecessor, or
      nothing when no predecessor has one. */
  ghost predicate InheritedAt(g: Preds, before: Roots, after: Roots, coupled: map<Node, Node>, k: Node)
    requires before.Keys == after.Keys == g.Keys && k in g
  {
    if before[k] != "" then after[k] == before[k] && k !in coupled
    else if after[k] == "" then k !in coupled && forall p :: p in g[k] && p in g ==> after[p] == ""
    else
      && k in coupled && Edge(g, coupled[k], k) && after[k] == after[coupled[k]]
      && forall m :: 0 <= m < IndexOf(g[k], coupled[k]) && g[k][m] in g ==> after[g[k][m]] == ""
  }

  ghost predicate Inherited(g: Preds, before: Roots, after: Roots, coupled: map<Node, Node>)
    requires before.Keys == after.Keys == g.Keys
  {
    forall k {:trigger InheritedAt(g, before, after, coupled, k)} :: k in g ==>
        InheritedAt(g, before, after, coupled, k)
  }

  lemma InheritsAt(g: Preds, before: Roots, after: Roots, coupled: map<Node, Node>, k: Node)
    requires before.Keys == after.Keys == g.Keys && Acyclic(g) && k in g
    requires after == Resolution(g, before)
    requires k in coupled <==> before[k] == "" && after[k] != ""
    requires k in coupled ==> k in Vias(g, before) && coupled[k] == Vias(g, before)[k]
    ensures InheritedAt(g, before, after, coupled, k)
  {
    FirstResolvingMeaning(g, before, k, 0);
    var j := FirstResolving(g, before, k, 0);
    if k in coupled {
      assert coupled[k] == g[k][j];
      assert IndexOf(g[k], coupled[k]) <= j;
    } else if before[k] == "" {
      assert j == |g[k]|;
    }
  }

  lemma PassFinished(g: Preds, before: Roots, after: Roots, coupled: map<Node, Node>)
    requires PassedUpTo(g, before, after, coupled, g.Keys) && Acyclic(g)
    ensures Inherited(g, before, after, coupled)
  {
    assert ResolvedUpTo(g, before, after, coupled, g.Keys);
    assert after == Resolution(g, before);
    forall k | k in g
      ensures InheritedAt(g, before, after, coupled, k)
    {
      InheritsAt(g, before, after, coupled, k);
    }
  }

  /** On an acyclic graph these local conditions have one solution only. */
  lemma {:induction false} InheritedUnique(g: Preds, before: Roots, a: Roots, ca: map<Node, Node>, b: Roots,
                                           cb: map<Node, Node>, k: Node)
    requires before.Keys == a.Keys == b.Keys == g.Keys && Acyclic(g) && k in g
    requires Inherited(g, before, a, ca) && Inherited(g, before, b, cb)
    ensures a[k] == b[k]
    decreases |Ancestors(g, k)|
  {
    forall p | p in g[k] && p in g
      ensures a[p] == b[p]
    {
      AncestorsShrink(g, p, k);
      InheritedUnique(g, before, a, ca, b, cb, p);
    }
    assert InheritedAt(g, before, a, ca, k) && InheritedAt(g, before, b, cb, k);
    if before[k] == "" && a[k] != "" && b[k] != "" {
      var i, j := IndexOf(g[k], ca[k]), IndexOf(g[k], cb[k]);
      assert g[k][i] in g && g[k][j] in g;
    }
  }
}
