/** The event list handed to the UI: linear order, keys turned into refs. */
module Registry {
  import opened Common
  import opened Graph
  import opened Topology
  import opened Ontology

  datatype EventDef = EventDef(ref: Node, aggregateRoot: string, predecessors: seq<Node>)

  const REF_PREFIX := "#/domainEvents/"

  function RefOf(key: Node): Node {
    Node(REF_PREFIX + key.name)
  }

  /** The last path segment of a ref. */
  function RefTail(ref: string): (r: string)
    ensures '/' !in r && |r| <= |ref| && r == ref[|ref| - |r|..]
    ensures r == ref || ref[|ref| - |r| - 1] == '/'
  {
    if ref == "" || ref[|ref| - 1] == '/' then ""
    else
      var front := ref[..|ref| - 1];
      assert ref == front + [ref[|ref| - 1]];
      RefTail(front) + [ref[|ref| - 1]]
  }

  lemma RefInjective(a: Node, b: Node)
    requires RefOf(a) == RefOf(b)
    ensures a == b
  {
    assert a.name == RefOf(a).name[|REF_PREFIX|..] && b.name == RefOf(b).name[|REF_PREFIX|..];
  }

  lemma {:induction false} TailAfterSlash(prefix: string, tail: string)
    requires prefix != "" && prefix[|prefix| - 1] == '/' && '/' !in tail
    ensures RefTail(prefix + tail) == tail
  {
    var ref := prefix + tail;
    if tail != "" {
      assert tail[|tail| - 1] in tail;
      assert ref[..|ref| - 1] == prefix + tail[..|tail| - 1];
      TailAfterSlash(prefix, tail[..|tail| - 1]);
    }
  }

  /** A minted ref resolves back to its event exactly when the key has no slash. */
  lemma RefRoundTrip(key: Node)
    ensures RefTail(RefOf(key).name) == key.name <==> '/' !in key.name
  {
    if '/' !in key.name {
      TailAfterSlash(REF_PREFIX, key.name);
    }
  }

  function BuildEvents(m: Model, overlay: Overlay): seq<EventDef>
    requires m.roots.Keys == m.preds.Keys && Elements(m.keys) == m.preds.Keys
  {
    var linear := LinearOrder(m.keys, m.topo, overlay);
    SameElements(linear, m.keys);
    seq(|linear|, i requires 0 <= i < |linear| =>
      assert linear[i] in Elements(m.keys);
      EventDef(RefOf(linear[i]), m.roots[linear[i]], RefsOf(m.preds[linear[i]])))
  }

  function RefsOf(keys: seq<Node>): (r: seq<Node>)
    ensures |r| == |keys| && forall i :: 0 <= i < |r| ==> r[i] == RefOf(keys[i])
  {
    seq(|keys|, i requires 0 <= i < |keys| => RefOf(keys[i]))
  }

  // --- what the layout makes of the list -----------------------------------------------

  ghost predicate DistinctRefs(events: seq<EventDef>) {
    forall i, j :: 0 <= i < j < |events| ==> events[i].ref != events[j].ref
  }

  function Refs(events: seq<EventDef>): (r: seq<Node>)
    ensures |r| == |events| && forall i :: 0 <= i < |r| ==> r[i] == events[i].ref
  {
    seq(|events|, i requires 0 <= i < |events| => events[i].ref)
  }

  /** The predecessors that are in the list, in order; others are dropped. */
  function Known(ps: seq<Node>, refs: set<Node>): (r: seq<Node>)
    ensures forall p :: p in r <==> p in ps && p in refs
  {
    if ps == [] then []
    else Known(ps[..|ps| - 1], refs) + if ps[|ps| - 1] in refs then [ps[|ps| - 1]] else []
  }

  function IndexByRef(events: seq<EventDef>): (r: map<Node, nat>)
    requires DistinctRefs(events)
    ensures r.Keys == Elements(Refs(events))
    ensures forall i :: 0 <= i < |events| ==> events[i].ref in r && r[events[i].ref] == i
    ensures forall k :: k in r ==> r[k] < |events| && events[r[k]].ref == k
  {
    var refs := Refs(events);
    map k | k in refs :: IndexOf(refs, k)
  }

  function FlowGraph(events: seq<EventDef>): (g: Preds)
    requires DistinctRefs(events)
    ensures g.Keys == Elements(Refs(events)) && Closed(g)
  {
    var at := IndexByRef(events);
    map k | k in at :: Known(events[at[k]].predecessors, at.Keys)
  }

  lemma {:induction false} KnownAll(ps: seq<Node>, refs: set<Node>)
    requires forall p :: p in ps ==> p in refs
    ensures Known(ps, refs) == ps
  {
    if ps != [] {
      var front, last := ps[..|ps| - 1], ps[|ps| - 1];
      assert ps == front + [last];
      KnownAll(front, refs);
    }
  }

  /** Position by position, the list is the linear order with keys turned into refs. */
  lemma BuiltAt(m: Model, overlay: Overlay)
    requires Accepted(m)
    ensures var events, linear := BuildEvents(m, overlay), LinearOrder(m.keys, m.topo, overlay);
            |events| == |m.keys| && |linear| == |events| && Names(events, linear, m.preds)
    ensures var events, linear := BuildEvents(m, overlay), LinearOrder(m.keys, m.topo, overlay);
            forall i :: 0 <= i < |events| ==>
              linear[i] in m.roots && events[i].aggregateRoot == m.roots[linear[i]]
  {
    var linear := LinearOrder(m.keys, m.topo, overlay);
    SameElements(linear, m.keys);
    LinearOrderSorted(m.preds, m.keys, m.topo, overlay);
    forall k
      ensures k in linear <==> k in m.preds
    {
      assert k in Elements(m.keys) <==> k in m.preds;
    }
    forall i | 0 <= i < |linear|
      ensures linear[i] in m.preds
    {
      assert linear[i] in linear;
    }
  }

  /** The list names the nodes of `g` in the order `linear`, with their edges. */
  ghost predicate Names(events: seq<EventDef>, linear: seq<Node>, g: Preds) {
    && Distinct(linear) && |events| == |linear| && (forall k :: k in linear <==> k in g)
    && forall i :: 0 <= i < |events| ==>
         linear[i] in g && events[i].ref == RefOf(linear[i]) && events[i].predecessors == RefsOf(g[linear[i]])
  }

  lemma NamesRefs(events: seq<EventDef>, linear: seq<Node>, g: Preds)
    requires Names(events, linear, g)
    ensures DistinctRefs(events)
    ensures forall k :: k in g <==> RefOf(k) in Refs(events)
    ensures forall r :: r in Refs(events) ==> exists k :: k in g && r == RefOf(k)
  {
    forall i, j | 0 <= i < j < |events|
      ensures events[i].ref != events[j].ref
    {
      if events[i].ref == events[j].ref {
        RefInjective(linear[i], linear[j]);
      }
    }
    forall k
      ensures k in g <==> RefOf(k) in Refs(events)
    {
      NamesRef(events, linear, g, k);
    }
    forall r | r in Refs(events)
      ensures exists k :: k in g && r == RefOf(k)
    {
      var i := IndexOf(Refs(events), r);
      assert r == RefOf(linear[i]);
    }
  }

  lemma NamesRef(events: seq<EventDef>, linear: seq<Node>, g: Preds, k: Node)
    requires Names(events, linear, g)
    ensures k in g <==> RefOf(k) in Refs(events)
  {
    if k in g {
      var i := IndexOf(linear, k);
      assert Refs(events)[i] == RefOf(k);
    }
    if RefOf(k) in Refs(events) {
      var i := IndexOf(Refs(events), RefOf(k));
      RefInjective(k, linear[i]);
    }
  }

  /** The graph the layout reads off the list is `g` under refs. */
  lemma NamesPreds(events: seq<EventDef>, linear: seq<Node>, g: Preds, k: Node)
    requires Names(events, linear, g) && Closed(g) && k in g && DistinctRefs(events)
    ensures RefOf(k) in FlowGraph(events) && FlowGraph(events)[RefOf(k)] == RefsOf(g[k])
  {
    NamesRefs(events, linear, g);
    var at := IndexByRef(events);
    var i := IndexOf(linear, k);
    assert events[i].ref == RefOf(k) && at[RefOf(k)] == i;
    forall p | p in RefsOf(g[k])
      ensures p in at.Keys
    {
      var j := IndexOf(RefsOf(g[k]), p);
      assert p == RefOf(g[k][j]) && g[k][j] in g[k];
    }
    KnownAll(RefsOf(g[k]), at.Keys);
  }

  lemma BuiltRefs(m: Model, overlay: Overlay)
    requires Accepted(m)
    ensures var events := BuildEvents(m, overlay);
            && DistinctRefs(events)
            && (forall k :: k in m.preds <==> RefOf(k) in Refs(events))
            && (forall r :: r in Refs(events) ==> exists k :: k in m.preds && r == RefOf(k))
  {
    BuiltAt(m, overlay);
    NamesRefs(BuildEvents(m, overlay), LinearOrder(m.keys, m.topo, overlay), m.preds);
  }

  lemma BuiltPreds(m: Model, overlay: Overlay, k: Node)
    requires Accepted(m) && k in m.preds && DistinctRefs(BuildEvents(m, overlay))
    ensures RefOf(k) in FlowGraph(BuildEvents(m, overlay))
    ensures FlowGraph(BuildEvents(m, overlay))[RefOf(k)] == RefsOf(m.preds[k])
  {
    BuiltAt(m, overlay);
    NamesPreds(BuildEvents(m, overlay), LinearOrder(m.keys, m.topo, overlay), m.preds, k);
  }

  lemma BuiltEdge(m: Model, overlay: Overlay, a: Node, b: Node)
    requires Accepted(m) && DistinctRefs(BuildEvents(m, overlay))
    ensures Edge(FlowGraph(BuildEvents(m, overlay)), RefOf(a), RefOf(b)) <==> Edge(m.preds, a, b)
  {
    BuiltRefs(m, overlay);
    if b in m.preds {
      BuiltPreds(m, overlay, b);
      RefListed(a, m.preds[b]);
    }
  }

  lemma RefListed(a: Node, ps: seq<Node>)
    ensures RefOf(a) in RefsOf(ps) <==> a in ps
  {
    if RefOf(a) in RefsOf(ps) {
      var i := IndexOf(RefsOf(ps), RefOf(a));
      RefInjective(a, ps[i]);
    }
    if a in ps {
      var i := IndexOf(ps, a);
      assert RefsOf(ps)[i] == RefOf(a);
    }
  }

  ghost function KeyOf(m: Model, r: Node): (k: Node)
    requires exists k :: k in m.preds && r == RefOf(k)
    ensures k in m.preds && r == RefOf(k)
  {
    var k :| k in m.preds && r == RefOf(k);
    k
  }

  /** The refs draw the same graph as the keys, so what passed the cycle check is
      exactly what the layout's recursion needs. */
  lemma AcceptedModelLaysOut(m: Model, overlay: Overlay)
    requires Accepted(m)
    ensures var events := BuildEvents(m, overlay);
            && DistinctRefs(events) && Acyclic(FlowGraph(events))
            && forall a, b :: Edge(FlowGraph(events), RefOf(a), RefOf(b)) <==> Edge(m.preds, a, b)
  {
    BuiltRefs(m, overlay);
    var g := FlowGraph(BuildEvents(m, overlay));
    forall a, b
      ensures Edge(g, RefOf(a), RefOf(b)) <==> Edge(m.preds, a, b)
    {
      BuiltEdge(m, overlay, a, b);
    }
    TopologicalRises(m.preds, m.topo);
    var pos := Positions(m.topo);
    forall r | r in g
      ensures exists k :: k in m.preds && r == RefOf(k)
    {
      assert r in Refs(BuildEvents(m, overlay));
    }
    var rank := map r | r in g :: pos[KeyOf(m, r)];
    forall a, b | Edge(g, a, b)
      ensures rank[a] < rank[b]
    {
      assert Edge(m.preds, KeyOf(m, a), KeyOf(m, b));
    }
    RankedIsAcyclic(g, rank);
  }
}
