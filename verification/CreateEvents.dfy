/** The create-shape test of the generic command: is this event the first to
    touch its aggregate? */
module CreateEvents {
  import opened Common
  import opened Graph
  import opened Topology
  import opened Inheritance
  import opened Ontology

  /** No proper ancestor shares the event's aggregate root. */
  ghost predicate FirstToTouch(g: Preds, roots: Roots, event: Node)
    requires roots.Keys == g.Keys && event in g
  {
    forall a :: a in g && Before(g, a, event) ==> roots[a] != roots[event]
  }

  ghost function Mentioned(g: Preds): set<Node> {
    g.Keys + set b, a | b in g && a in g[b] :: a
  }

  /** `x` is followed no further: it is no event, or it is an ancestor with
      another root whose predecessors are all visited or waiting. */
  ghost predicate Settled(g: Preds, roots: Roots, event: Node, x: Node, visited: set<Node>)
    requires roots.Keys == g.Keys && event in g
  {
    x in g ==> Before(g, x, event) && roots[x] != roots[event] && forall p :: p in g[x] ==> p in visited
  }

  ghost predicate SearchInvariant(g: Preds, roots: Roots, event: Node, seen: set<Node>, stack: seq<Node>)
    requires roots.Keys == g.Keys && event in g
  {
    var visited := seen + Elements(stack);
    && visited <= Mentioned(g)
    && (forall x :: x in stack && x in g ==> Before(g, x, event))
    && (forall x :: x in seen ==> Settled(g, roots, event, x, visited))
    && (forall p :: p in g[event] ==> p in visited)
  }

  /** The explicit-stack search; it terminates on any graph, cyclic or not. */
  method IsCreateEvent(g: Preds, roots: Roots, event: Node) returns (r: bool)
    requires roots.Keys == g.Keys && event in g
    ensures r <==> FirstToTouch(g, roots, event)
  {
    var seen: set<Node> := {};
    var stack := g[event];
    Start(g, roots, event);
    while stack != []
      invariant SearchInvariant(g, roots, event, seen, stack)
      decreases |Mentioned(g) - seen|, |stack|
    {
      var k := stack[|stack| - 1];
      Pop(g, roots, event, seen, stack);
      stack := stack[..|stack| - 1];
      if k in seen {
        continue;
      }
      seen := seen + {k};
      if k !in g {
        continue;
      }
      if roots[k] == roots[event] {
        return false;
      }
      Follow(g, roots, event, seen, stack, k);
      stack := stack + g[k];
    }
    Complete(g, roots, event, seen);
    return true;
  }

  lemma Start(g: Preds, roots: Roots, event: Node)
    requires roots.Keys == g.Keys && event in g
    ensures SearchInvariant(g, roots, event, {}, g[event])
  {
    forall x | x in g[event] && x in g
      ensures Before(g, x, event)
    {
      EdgeIsBefore(g, x, event);
    }
  }

  /** What holds once the top of the stack moved into `seen`, except that its own
      predecessors may still be missing. */
  ghost predicate Popped(g: Preds, roots: Roots, event: Node, seen: set<Node>, stack: seq<Node>, k: Node)
    requires roots.Keys == g.Keys && event in g
  {
    var visited := seen + Elements(stack);
    && visited <= Mentioned(g) && k in seen
    && (k in g ==> Before(g, k, event))
    && (forall x :: x in stack && x in g ==> Before(g, x, event))
    && (forall x :: x in seen && x != k ==> Settled(g, roots, event, x, visited))
    && (forall p :: p in g[event] ==> p in visited)
  }

  lemma Pop(g: Preds, roots: Roots, event: Node, seen: set<Node>, stack: seq<Node>)
    requires roots.Keys == g.Keys && event in g && stack != []
    requires SearchInvariant(g, roots, event, seen, stack)
    ensures var k, rest := stack[|stack| - 1], stack[..|stack| - 1];
            && Popped(g, roots, event, seen + {k}, rest, k)
            && (k in seen || k !in g ==> SearchInvariant(g, roots, event, seen + {k}, rest))
            && (k in seen ==> seen + {k} == seen)
            && (k !in seen ==> |Mentioned(g) - (seen + {k})| < |Mentioned(g) - seen|)
  {
    var k, rest := stack[|stack| - 1], stack[..|stack| - 1];
    assert stack == rest + [k];
    ElementsSnoc(rest, k);
    assert k in stack;
    assert seen + Elements(stack) == seen + {k} + Elements(rest);
    if k !in seen {
      assert k in Mentioned(g);
      SubsetSize(Mentioned(g) - (seen + {k}), Mentioned(g) - seen - {k});
    }
  }

  lemma Follow(g: Preds, roots: Roots, event: Node, seen: set<Node>, stack: seq<Node>, k: Node)
    requires roots.Keys == g.Keys && event in g && k in g && roots[k] != roots[event]
    requires Popped(g, roots, event, seen, stack, k)
    ensures SearchInvariant(g, roots, event, seen, stack + g[k])
  {
    forall x | x in g[k] && x in g
      ensures Before(g, x, event)
    {
      EdgeIsBefore(g, x, k);
      BeforeTransitive(g, x, k, event);
    }
    var before, after := seen + Elements(stack), seen + Elements(stack + g[k]);
    forall x | x in seen
      ensures Settled(g, roots, event, x, after)
    {
      assert x != k ==> Settled(g, roots, event, x, before);
    }
  }

  lemma Complete(g: Preds, roots: Roots, event: Node, seen: set<Node>)
    requires roots.Keys == g.Keys && event in g && SearchInvariant(g, roots, event, seen, [])
    ensures FirstToTouch(g, roots, event)
  {
    assert seen + Elements<Node>([]) == seen;
    forall a | a in g && Before(g, a, event)
      ensures roots[a] != roots[event]
    {
      var p :| PathBetween(g, a, event, p) && |p| >= 2;
      PathFront(g, p);
      AllSettled(g, roots, event, seen, p[..|p| - 1]);
      assert Settled(g, roots, event, a, seen);
    }
  }

  lemma {:induction false} AllSettled(g: Preds, roots: Roots, event: Node, seen: set<Node>, p: seq<Node>)
    requires roots.Keys == g.Keys && event in g && IsPath(g, p) && p[|p| - 1] in seen
    requires forall x :: x in seen ==> Settled(g, roots, event, x, seen)
    ensures p[0] in seen
  {
    if |p| > 1 {
      PathFront(g, p);
      assert Settled(g, roots, event, p[|p| - 1], seen);
      AllSettled(g, roots, event, seen, p[..|p| - 1]);
    }
  }

  /** On an accepted model the topologically first event of every aggregate is
      create-shaped, so every aggregate has an event that can create it. */
  lemma EveryAggregateHasACreateEvent(m: Model, root: string)
    requires Accepted(m) && root in m.roots.Values
    ensures exists i :: 0 <= i < |m.topo| && m.topo[i] in m.preds && m.roots[m.topo[i]] == root
                        && (forall j :: 0 <= j < i ==> m.topo[j] in m.preds && m.roots[m.topo[j]] != root)
                        && FirstToTouch(m.preds, m.roots, m.topo[i])
  {
    var k :| k in m.roots && m.roots[k] == root;
    forall j | 0 <= j < |m.topo|
      ensures m.topo[j] in m.preds
    {
      assert m.topo[j] in Elements(m.topo);
    }
    assert k in Elements(m.topo);
    var i := 0;
    while m.roots[m.topo[i]] != root
      invariant i <= IndexOf(m.topo, k)
      invariant forall j :: 0 <= j < i ==> m.roots[m.topo[j]] != root
      decreases IndexOf(m.topo, k) - i
    {
      i := i + 1;
    }
    forall a | a in m.preds && Before(m.preds, a, m.topo[i])
      ensures m.roots[a] != root
    {
      assert a in Elements(m.topo);
      AncestorsComeFirst(m.preds, m.topo, IndexOf(m.topo, a), i);
    }
  }
}
