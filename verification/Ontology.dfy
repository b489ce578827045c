/** Building the ontology: the event records, in-place root inheritance, and the
    checks that accept or refuse a model. */
module Ontology {
  import opened Common
  import opened Graph
  import opened Topology
  import opened Inheritance

  class OntologyEvent {
    const key: Node
    const predecessors: seq<Node>
    /** "" for an inert marker in the flow. */
    const commandName: string
    const readModels: seq<string>
    var aggregateRoot: string
    var coupledTo: Option<Node>

    constructor (key: Node, predecessors: seq<Node>, commandName: string, readModels: seq<string>,
                 aggregateRoot: string)
      ensures this.key == key && this.predecessors == predecessors && this.commandName == commandName
              && this.readModels == readModels
      ensures this.aggregateRoot == aggregateRoot && coupledTo == None
    {
      this.key, this.predecessors := key, predecessors;
      this.commandName, this.readModels := commandName, readModels;
      this.aggregateRoot, coupledTo := aggregateRoot, None;
    }
  }

  ghost predicate DistinctKeys(events: seq<OntologyEvent>) {
    forall i, j :: 0 <= i < j < |events| ==> events[i].key != events[j].key
  }

  /** `eventByKey`: every event under its own key. */
  ghost predicate ByKey(events: seq<OntologyEvent>, byKey: map<Node, OntologyEvent>) {
    && DistinctKeys(events)
    && (forall i :: 0 <= i < |events| ==> events[i].key in byKey && byKey[events[i].key] == events[i])
    && (forall k :: k in byKey ==> byKey[k] in events && byKey[k].key == k)
  }

  method EventByKey(events: seq<OntologyEvent>) returns (byKey: map<Node, OntologyEvent>)
    requires DistinctKeys(events)
    ensures ByKey(events, byKey)
  {
    byKey := map[];
    for i := 0 to |events|
      invariant forall j :: 0 <= j < i ==> events[j].key in byKey && byKey[events[j].key] == events[j]
      invariant forall k :: k in byKey ==> byKey[k] in events && byKey[k].key == k
    {
      byKey := byKey[events[i].key := events[i]];
    }
  }

  /** The records as maps: their fixed predecessors and their current roots. */
  function PredsOf(byKey: map<Node, OntologyEvent>): Preds {
    map k | k in byKey :: byKey[k].predecessors
  }

  function RootsOf(byKey: map<Node, OntologyEvent>): Roots
    reads byKey.Values
  {
    map k | k in byKey :: byKey[k].aggregateRoot
  }

  function CoupledOf(byKey: map<Node, OntologyEvent>): map<Node, Node>
    reads byKey.Values
  {
    map k | k in byKey && byKey[k].coupledTo.Some? :: byKey[k].coupledTo.value
  }

  /** The recursive search; it reads roots that earlier iterations wrote and
      passes one `seen` set along. */
  method InheritedRoot(byKey: map<Node, OntologyEvent>, key: Node, seen: set<Node>)
    returns (root: string, via: Option<Node>, seen': set<Node>)
    ensures Found(root, via, seen') == Search(PredsOf(byKey), RootsOf(byKey), key, seen)
    decreases |byKey.Keys - seen|
  {
    if key !in byKey {
      return "", None, seen;
    }
    var e := byKey[key];
    if e.aggregateRoot != "" {
      return e.aggregateRoot, None, seen;
    }
    if key in seen {
      return "", None, seen;
    }
    SubsetSize(byKey.Keys - (seen + {key}), byKey.Keys - seen - {key});
    ghost var g, roots := PredsOf(byKey), RootsOf(byKey);
    seen' := seen + {key};
    for i := 0 to |e.predecessors|
      invariant seen + {key} <= seen'
      invariant Search(g, roots, key, seen) == Scan(g, roots, key, i, seen')
    {
      var p := e.predecessors[i];
      if p in byKey {
        var pe := byKey[p];
        if pe.aggregateRoot != "" {
          return pe.aggregateRoot, Some(p), seen';
        }
        SubsetSize(byKey.Keys - seen', byKey.Keys - (seen + {key}));
        root, via, seen' := InheritedRoot(byKey, p, seen');
        if root != "" {
          return root, Some(p), seen';
        }
      }
    }
    return "", None, seen';
  }

  /** One round of the pass: `e` keeps its root, gets the inherited one and is
      coupled to the predecessor it came through, or stays without. */
  method InheritOne(byKey: map<Node, OntologyEvent>, e: OntologyEvent) returns (resolved: bool)
    requires e.key in byKey && byKey[e.key] == e
    requires forall k :: k in byKey ==> byKey[k].key == k
    modifies e
    ensures (RootsOf(byKey), CoupledOf(byKey))
            == Round(PredsOf(byKey), old(RootsOf(byKey)), old(CoupledOf(byKey)), e.key)
    ensures resolved <==> e.aggregateRoot != ""
  {
    ghost var now, coupled := RootsOf(byKey), CoupledOf(byKey);
    if e.aggregateRoot != "" {
      return true;
    }
    var root, via, _ := InheritedRoot(byKey, e.key, {});
    if root == "" {
      return false;
    }
    e.aggregateRoot := root;
    e.coupledTo := via;
    assert RootsOf(byKey) == now[e.key := root];
    assert CoupledOf(byKey) == coupled[e.key := via.value];
    return true;
  }

  /** The loop over the events in declared order. */
  method VisitEvents(events: seq<OntologyEvent>, byKey: map<Node, OntologyEvent>) returns (unresolved: seq<Node>)
    requires Distinct(KeysOf(events))
    requires forall i :: 0 <= i < |events| ==> events[i].key in byKey && byKey[events[i].key] == events[i]
    requires forall k :: k in byKey ==> byKey[k].key == k
    requires CoupledOf(byKey) == map[]
    modifies byKey.Values
    ensures (RootsOf(byKey), CoupledOf(byKey)) == Pass(PredsOf(byKey), old(RootsOf(byKey)), KeysOf(events))
    ensures forall k :: k in unresolved <==> k in KeysOf(events) && RootsOf(byKey)[k] == ""
  {
    unresolved := [];
    ghost var g, before, keys := PredsOf(byKey), RootsOf(byKey), KeysOf(events);
    ghost var now, coupled := before, map[];
    for i := 0 to |events|
      invariant now == RootsOf(byKey) && coupled == CoupledOf(byKey)
      invariant (now, coupled) == Pass(g, before, keys[..i])
      invariant forall k :: k in unresolved <==> k in keys[..i] && now[k] == ""
    {
      var e := events[i];
      DistinctStep(keys, i);
      var resolved := InheritOne(byKey, e);
      OthersKept(g, now, coupled, e.key);
      now, coupled := RootsOf(byKey), CoupledOf(byKey);
      if !resolved {
        unresolved := unresolved + [e.key];
      }
    }
    assert keys[..|events|] == keys;
  }

  /** Gives every event without an aggregate root the one it inherits, in place,
      and reports the events that end without one. */
  method InheritRoots(events: seq<OntologyEvent>, byKey: map<Node, OntologyEvent>) returns (unresolved: seq<Node>)
    requires ByKey(events, byKey) && forall k :: k in byKey ==> byKey[k].coupledTo == None
    modifies byKey.Values
    ensures PassedUpTo(PredsOf(byKey), old(RootsOf(byKey)), RootsOf(byKey), CoupledOf(byKey), PredsOf(byKey).Keys)
    ensures forall k :: k in unresolved <==> k in RootsOf(byKey) && RootsOf(byKey)[k] == ""
    ensures Distinct(KeysOf(events)) && Elements(KeysOf(events)) == PredsOf(byKey).Keys
  {
    ghost var before := RootsOf(byKey);
    AllVisited(events, byKey);
    assert CoupledOf(byKey) == map[];
    unresolved := VisitEvents(events, byKey);
    WholePass(PredsOf(byKey), before, KeysOf(events));
  }

  lemma WholePass(g: Preds, before: Roots, keys: seq<Node>)
    requires before.Keys == g.Keys && Distinct(keys) && Elements(keys) == g.Keys && forall k :: k in keys ==> k in g
    ensures PassedUpTo(g, before, Pass(g, before, keys).0, Pass(g, before, keys).1, g.Keys)
  {
    PassSound(g, before, keys);
  }

  function KeysOf(events: seq<OntologyEvent>): (r: seq<Node>)
    ensures |r| == |events| && forall i :: 0 <= i < |r| ==> r[i] == events[i].key
  {
    seq(|events|, i requires 0 <= i < |events| => events[i].key)
  }

  lemma OthersKept(g: Preds, now: Roots, coupled: map<Node, Node>, k: Node)
    requires now.Keys == g.Keys && k in g
    ensures var now' := Round(g, now, coupled, k).0;
            now'.Keys == now.Keys && forall x :: x in now && x != k ==> now'[x] == now[x]
  {
  }

  lemma AllVisited(events: seq<OntologyEvent>, byKey: map<Node, OntologyEvent>)
    requires ByKey(events, byKey)
    ensures Elements(KeysOf(events)) == byKey.Keys && Distinct(KeysOf(events))
  {
    var keys := KeysOf(events);
    forall k | k in byKey
      ensures k in keys
    {
      var i :| 0 <= i < |events| && events[i] == byKey[k];
      assert keys[i] == k;
    }
  }

  // --- accepting or refusing a model -------------------------------------------------

  datatype Problem =
    | UnknownCommand(event: Node, name: string)
    | UnknownReadModel(event: Node, name: string)
    | MissingPredecessor(event: Node, pred: Node)
    | MissingRoot(event: Node)
    | UnknownEntity(event: Node, root: string)

  datatype Refusal = Invalid(problems: seq<Problem>) | CyclicFollows

  /** The accepted model as plain data. */
  datatype Model = Model(keys: seq<Node>, preds: Preds, roots: Roots, coupled: map<Node, Node>, topo: seq<Node>)

  ghost predicate Accepted(m: Model) {
    && Listing(m.keys, m.preds)
    && IsTopological(m.preds, m.topo)
    && m.roots.Keys == m.preds.Keys
    && forall k :: k in m.roots ==> m.roots[k] != ""
  }

  /** A command that is named exists, and so does every read model. */
  ghost predicate Named(e: OntologyEvent, commands: set<string>, queries: set<string>) {
    (e.commandName != "" ==> e.commandName in commands) && forall n :: n in e.readModels ==> n in queries
  }

  ghost predicate AllNamed(events: seq<OntologyEvent>, commands: set<string>, queries: set<string>) {
    forall i :: 0 <= i < |events| ==> Named(events[i], commands, queries)
  }

  predicate IsMisnaming(p: Problem, commands: set<string>, queries: set<string>) {
    match p
    case UnknownCommand(_, name) => name != "" && name !in commands
    case UnknownReadModel(_, name) => name !in queries
    case _ => false
  }

  method UnknownNames(events: seq<OntologyEvent>, commands: set<string>, queries: set<string>)
    returns (problems: seq<Problem>)
    ensures problems == [] <==> AllNamed(events, commands, queries)
    ensures forall p :: p in problems ==> IsMisnaming(p, commands, queries)
  {
    problems := [];
    for i := 0 to |events|
      invariant problems == [] <==> AllNamed(events[..i], commands, queries)
      invariant forall p :: p in problems ==> IsMisnaming(p, commands, queries)
    {
      var e := events[i];
      assert events[..i + 1] == events[..i] + [e];
      ghost var earlier := problems;
      if e.commandName != "" && e.commandName !in commands {
        problems := problems + [UnknownCommand(e.key, e.commandName)];
      }
      for j := 0 to |e.readModels|
        invariant problems == [] <==>
                    && earlier == [] && (e.commandName != "" ==> e.commandName in commands)
                    && forall m :: 0 <= m < j ==> e.readModels[m] in queries
        invariant forall p :: p in problems ==> IsMisnaming(p, commands, queries)
      {
        if e.readModels[j] !in queries {
          problems := problems + [UnknownReadModel(e.key, e.readModels[j])];
        }
      }
    }
    assert events[..|events|] == events;
  }

  method MissingPredecessors(keys: seq<Node>, preds: Preds) returns (problems: seq<Problem>)
    requires Elements(keys) == preds.Keys
    ensures problems == [] <==> Closed(preds)
    ensures forall q :: q in problems ==>
              q.MissingPredecessor? && q.event in preds && q.pred in preds[q.event] && q.pred !in preds
  {
    problems := [];
    for i := 0 to |keys|
      invariant problems == [] <==> forall j, p :: 0 <= j < i && p in preds[keys[j]] ==> p in preds
      invariant forall q :: q in problems ==>
                  q.MissingPredecessor? && q.event in preds && q.pred in preds[q.event] && q.pred !in preds
    {
      var k := keys[i];
      ghost var earlier := problems;
      for j := 0 to |preds[k]|
        invariant problems == [] <==> earlier == [] && forall m :: 0 <= m < j ==> preds[k][m] in preds
        invariant forall q :: q in problems ==>
                    q.MissingPredecessor? && q.event in preds && q.pred in preds[q.event] && q.pred !in preds
      {
        if preds[k][j] !in preds {
          problems := problems + [MissingPredecessor(k, preds[k][j])];
        }
      }
    }
    forall b, a | problems == [] && b in preds && a in preds[b]
      ensures a in preds
    {
      assert b in Elements(keys);
      var i :| 0 <= i < |keys| && keys[i] == b;
    }
    forall j, p | Closed(preds) && 0 <= j < |keys| && p in preds[keys[j]]
      ensures p in preds
    {
      assert keys[j] in Elements(keys);
    }
  }

  method UnknownEntities(keys: seq<Node>, roots: Roots, entities: set<string>) returns (problems: seq<Problem>)
    requires Elements(keys) == roots.Keys
    ensures problems == [] <==> forall k :: k in roots && roots[k] != "" ==> roots[k] in entities
    ensures forall q :: q in problems ==>
              q.UnknownEntity? && q.event in roots && q.root == roots[q.event] && q.root !in entities
  {
    problems := [];
    for i := 0 to |keys|
      invariant problems == [] <==> forall j :: 0 <= j < i && roots[keys[j]] != "" ==> roots[keys[j]] in entities
      invariant forall q :: q in problems ==>
                  q.UnknownEntity? && q.event in roots && q.root == roots[q.event] && q.root !in entities
    {
      var k := keys[i];
      if roots[k] != "" && roots[k] !in entities {
        problems := problems + [UnknownEntity(k, roots[k])];
      }
    }
    forall k | problems == [] && k in roots && roots[k] != ""
      ensures roots[k] in entities
    {
      assert k in Elements(keys);
      var i :| 0 <= i < |keys| && keys[i] == k;
    }
  }

  /** A model is accepted exactly when its events name known commands and read
      models, every predecessor exists, every event owns or can inherit a root,
      every root is a known entity, and `follows` has no cycle; a model that fails
      only the last test is refused as cyclic. */
  ghost predicate Decided(keys: seq<Node>, g: Preds, before: Roots, after: Roots, coupled: map<Node, Node>,
                          entities: set<string>, named: bool, r: Result<Model, Refusal>)
    requires before.Keys == after.Keys == g.Keys
  {
    var sound := named && Closed(g) && Rooted(g, before) == g.Keys && after.Values <= entities;
    match r
    case Ok(m) =>
      var known, told := sound && Acyclic(g), Accepted(m) && Inherited(g, before, after, coupled);
      known && told && m == Model(keys, g, after, coupled, m.topo)
    case Err(CyclicFollows) => sound && !Acyclic(g)
    case Err(Invalid(_)) => !sound
  }

  method BuildOntology(events: seq<OntologyEvent>, byKey: map<Node, OntologyEvent>, entities: set<string>,
                       commands: set<string>, queries: set<string>)
    returns (r: Result<Model, Refusal>)
    requires ByKey(events, byKey) && forall k :: k in byKey ==> byKey[k].coupledTo == None
    modifies byKey.Values
    ensures Decided(KeysOf(events), PredsOf(byKey), old(RootsOf(byKey)), RootsOf(byKey), CoupledOf(byKey), entities,
                    AllNamed(events, commands, queries), r)
  {
    var misnamed := UnknownNames(events, commands, queries);
    r := InheritAndDecide(events, byKey, entities, misnamed, AllNamed(events, commands, queries));
  }

  /** Inherits the roots and decides, given the problems found so far. */
  method InheritAndDecide(events: seq<OntologyEvent>, byKey: map<Node, OntologyEvent>, entities: set<string>,
                          misnamed: seq<Problem>, ghost named: bool)
    returns (r: Result<Model, Refusal>)
    requires ByKey(events, byKey) && forall k :: k in byKey ==> byKey[k].coupledTo == None
    requires misnamed == [] <==> named
    modifies byKey.Values
    ensures Decided(KeysOf(events), PredsOf(byKey), old(RootsOf(byKey)), RootsOf(byKey), CoupledOf(byKey), entities,
                    named, r)
  {
    ghost var before := RootsOf(byKey);
    var unresolved := InheritRoots(events, byKey);
    r := Decide(KeysOf(events), PredsOf(byKey), RootsOf(byKey), CoupledOf(byKey), misnamed, unresolved, before,
                entities, named);
  }

  /** Any problem refuses the model; without one only a cycle can. */
  method Decide(keys: seq<Node>, preds: Preds, roots: Roots, coupled: map<Node, Node>, misnamed: seq<Problem>,
                unresolved: seq<Node>, ghost before: Roots, entities: set<string>, ghost named: bool)
    returns (r: Result<Model, Refusal>)
    requires Distinct(keys) && Elements(keys) == preds.Keys && PassedUpTo(preds, before, roots, coupled, preds.Keys)
    requires forall k :: k in unresolved <==> k in roots && roots[k] == ""
    requires misnamed == [] <==> named
    ensures Decided(keys, preds, before, roots, coupled, entities, named, r)
  {
    var missing := MissingPredecessors(keys, preds);
    var rootless := seq(|unresolved|, i requires 0 <= i < |unresolved| => MissingRoot(unresolved[i]));
    var unknown := UnknownEntities(keys, roots, entities);
    var problems := misnamed + missing + rootless + unknown;
    assert problems == [] <==> misnamed == [] && missing == [] && |unresolved| == 0 && unknown == [];
    Sound(preds, before, roots, coupled, unresolved, unknown, entities);
    if problems != [] {
      return Err(Invalid(problems));
    }
    r := Order(keys, preds, roots, coupled, before, entities);
  }

  /** The last check: a topological order exists unless `follows` has a cycle. */
  method Order(keys: seq<Node>, preds: Preds, roots: Roots, coupled: map<Node, Node>, ghost before: Roots,
               ghost entities: set<string>)
    returns (r: Result<Model, Refusal>)
    requires Listing(keys, preds) && PassedUpTo(preds, before, roots, coupled, preds.Keys)
    requires Rooted(preds, before) == preds.Keys && roots.Values <= entities
    requires forall k :: k in roots ==> roots[k] != ""
    ensures Decided(keys, preds, before, roots, coupled, entities, true, r)
  {
    var succ := Successors(keys, preds);
    var topo := TopologicalOrder(keys, preds, succ);
    if topo.None? {
      return Err(CyclicFollows);
    }
    PassFinished(preds, before, roots, coupled);
    return Ok(Model(keys, preds, roots, coupled, topo.value));
  }

  lemma Sound(preds: Preds, before: Roots, roots: Roots, coupled: map<Node, Node>, unresolved: seq<Node>,
              unknown: seq<Problem>, entities: set<string>)
    requires PassedUpTo(preds, before, roots, coupled, preds.Keys)
    requires forall k :: k in unresolved <==> k in roots && roots[k] == ""
    requires unknown == [] <==> forall k :: k in roots && roots[k] != "" ==> roots[k] in entities
    ensures unresolved == [] <==> Rooted(preds, before) == preds.Keys
    ensures unresolved == [] ==> forall k :: k in roots ==> roots[k] != ""
    ensures unresolved == [] ==> (unknown == [] <==> roots.Values <= entities)
  {
    if unresolved != [] {
      assert unresolved[0] !in Rooted(preds, before);
    } else {
      forall k | k in roots
        ensures roots[k] != "" && k in Rooted(preds, before) && roots[k] in roots.Values
      {
      }
    }
  }
}
