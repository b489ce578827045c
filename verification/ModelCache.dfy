/** The per-workflow model caches: bound contents, parsed models and event lists. */
module ModelCache {
  import opened Common

  // --- maps that remember insertion order -----------------------------------------------------

  /** A `Map`: its entries, oldest first. */
  type Entries<K, V> = seq<(K, V)>

  ghost predicate DistinctKeys<K, V>(s: Entries<K, V>) {
    forall i, j :: 0 <= i < j < |s| ==> s[i].0 != s[j].0
  }

  function Get<K(==,!new), V(!new)>(s: Entries<K, V>, k: K): Option<V> {
    if s == [] then None else if s[0].0 == k then Some(s[0].1) else Get(s[1..], k)
  }

  /** `delete(k)` */
  function Without<K(==,!new), V(!new)>(s: Entries<K, V>, k: K): (r: Entries<K, V>)
    ensures forall e :: e in r <==> e in s && e.0 != k
    ensures |r| <= |s|
  {
    if s == [] then [] else (if s[0].0 == k then [] else [s[0]]) + Without(s[1..], k)
  }

  /** `delete` then `set`: the key becomes the newest. */
  function Moved<K(==,!new), V(!new)>(s: Entries<K, V>, k: K, v: V): Entries<K, V> {
    Without(s, k) + [(k, v)]
  }

  /** The newest `max` entries. */
  function Newest<K, V>(s: Entries<K, V>, max: nat): (r: Entries<K, V>)
    ensures |r| <= max
  {
    if |s| > max then s[|s| - max..] else s
  }

  lemma {:induction false} WithoutDistinct<K(!new), V(!new)>(s: Entries<K, V>, k: K)
    requires DistinctKeys(s)
    ensures DistinctKeys(Without(s, k))
  {
    if s != [] {
      WithoutDistinct(s[1..], k);
      var rest := Without(s[1..], k);
      forall j | 0 <= j < |rest|
        ensures rest[j].0 != s[0].0
      {
        assert rest[j] in s[1..];
      }
    }
  }

  lemma {:induction false} GetIs<K(!new), V(!new)>(s: Entries<K, V>, k: K)
    ensures match Get(s, k) case None => forall e :: e in s ==> e.0 != k case Some(v) => (k, v) in s
  {
    if s != [] {
      GetIs(s[1..], k);
    }
  }

  lemma {:induction false} GetOnly<K(!new), V(!new)>(s: Entries<K, V>, k: K, v: V)
    requires DistinctKeys(s) && (k, v) in s
    ensures Get(s, k) == Some(v)
  {
    if s[0].0 == k {
      var i :| 0 <= i < |s| && s[i] == (k, v);
      assert i == 0;
    } else {
      assert (k, v) in s[1..];
      GetOnly(s[1..], k, v);
    }
  }

  lemma MovedDistinct<K(!new), V(!new)>(s: Entries<K, V>, k: K, v: V)
    requires DistinctKeys(s)
    ensures DistinctKeys(Moved(s, k, v)) && |Moved(s, k, v)| <= |s| + 1 && (k, v) in Moved(s, k, v)
  {
    WithoutDistinct(s, k);
    var rest := Without(s, k);
    forall j | 0 <= j < |rest|
      ensures rest[j].0 != k
    {
      assert rest[j] in rest;
    }
  }

  /** Deletes the oldest entry until no more than `max` are left. */
  method DropOldest<K, V>(s: Entries<K, V>, max: nat) returns (r: Entries<K, V>)
    ensures r == Newest(s, max)
  {
    r := s;
    while |r| > max
      invariant |r| <= |s| && r == s[|s| - |r|..] && (|r| == |s| || |r| >= max)
    {
      r := r[1..];
    }
  }

  // --- contents and models ----------------------------------------------------------------------

  datatype Content = Content(workflow: string, overlay: Option<string>)

  datatype Bound = Bound(content: Content, hash: string)

  datatype Key = System | Unloaded(pid: string) | Loaded(pid: string, hash: string)

  datatype Failure = NotLoaded | Invalid

  const PARSED_CACHE_MAX := 32
  const WORKFLOW_CONTENT_MAX := 64

  /** Binding a workflow: it becomes the newest, and the oldest beyond the bound go. */
  function Bind(bound: Entries<string, Bound>, pid: string, b: Bound): Entries<string, Bound> {
    Newest(Moved(bound, pid, b), WORKFLOW_CONTENT_MAX)
  }

  /** A just-bound workflow is never the one evicted, and nothing else changes for
      the workflows that stay. */
  lemma JustBoundStays(bound: Entries<string, Bound>, pid: string, b: Bound)
    requires DistinctKeys(bound)
    ensures var after := Bind(bound, pid, b);
            && DistinctKeys(after) && |after| <= WORKFLOW_CONTENT_MAX && Get(after, pid) == Some(b)
            && forall e :: e in after && e.0 != pid ==> e in bound
  {
    var moved, after := Moved(bound, pid, b), Bind(bound, pid, b);
    MovedDistinct(bound, pid, b);
    assert after[|after| - 1] == moved[|moved| - 1] == (pid, b);
    GetOnly(after, pid, b);
  }

  /** What the caches stand for: the model of the content bound right now. */
  function OntologyOf<O(!new)>(bound: Entries<string, Bound>, active: Option<string>, system: O,
                               parse: Content -> Option<O>): Result<O, Failure> {
    if active.None? then Ok(system)
    else match Get(bound, active.value)
      case None => Err(NotLoaded)
      case Some(b) => match parse(b.content) case None => Err(Invalid) case Some(o) => Ok(o)
  }

  /** The event list of that model; a model that is missing or bad has none. */
  function EventsOf<O(!new), E(!new)>(bound: Entries<string, Bound>, active: Option<string>, system: O,
                                      parse: Content -> Option<O>, build: O -> Option<seq<E>>): seq<E>
  {
    match OntologyOf(bound, active, system, parse)
    case Err(_) => []
    case Ok(o) => if build(o).Some? then build(o).value else []
  }

  /** The default model without a workflow, the parse of what is bound to the
      workflow, or one of two failures. */
  ghost predicate IsModel<O(!new)>(bound: Entries<string, Bound>, active: Option<string>, system: O,
                                   parse: Content -> Option<O>, r: Result<O, Failure>)
  {
    && (active.None? ==> r == Ok(system))
    && (active.Some? && (forall b :: (active.value, b) !in bound) ==> r == Err(NotLoaded))
    && (forall b :: active.Some? && (active.value, b) in bound ==>
          if parse(b.content).None? then r == Err(Invalid) else r == Ok(parse(b.content).value))
  }

  lemma OntologyIs<O(!new)>(bound: Entries<string, Bound>, active: Option<string>, system: O,
                            parse: Content -> Option<O>)
    requires DistinctKeys(bound)
    ensures IsModel(bound, active, system, parse, OntologyOf(bound, active, system, parse))
  {
    if active.Some? {
      GetIs(bound, active.value);
      forall b | (active.value, b) in bound
        ensures Get(bound, active.value) == Some(b)
      {
        GetOnly(bound, active.value, b);
      }
    }
  }

  /** And its event list, empty where there is no model or the list cannot be built. */
  lemma EventsAre<O(!new), E(!new)>(bound: Entries<string, Bound>, active: Option<string>, system: O,
                                    parse: Content -> Option<O>, build: O -> Option<seq<E>>, o: Result<O, Failure>)
    requires DistinctKeys(bound) && IsModel(bound, active, system, parse, o)
    ensures var r := EventsOf(bound, active, system, parse, build);
            if o.Ok? && build(o.value).Some? then Some(r) == build(o.value) else r == []
  {
    OntologyIs(bound, active, system, parse);
    if active.Some? {
      GetIs(bound, active.value);
    }
  }

  class Caches<O(!new), E(!new)> {
    const parse: Content -> Option<O>
    const build: O -> Option<seq<E>>
    const system: O
    /** The content-addressed store: a hash names one content. */
    const contentOf: string -> Content
    var bound: Entries<string, Bound>
    var parsed: Entries<(string, string), O>
    var eventLists: map<Key, seq<E>>

    ghost predicate BoundOk()
      reads this`bound
    {
      && DistinctKeys(bound) && |bound| <= WORKFLOW_CONTENT_MAX
      && forall e :: e in bound ==> e.1.content == contentOf(e.1.hash)
    }

    ghost predicate ParsedOk()
      reads this`parsed
    {
      && DistinctKeys(parsed) && |parsed| <= PARSED_CACHE_MAX
      && forall e :: e in parsed ==> parse(contentOf(e.0.1)) == Some(e.1)
    }

    /** Only good event lists are cached, each the one of its key's content. */
    ghost predicate EventsOk()
      reads this`eventLists
    {
      forall k :: k in eventLists ==>
        match k
        case System => build(system) == Some(eventLists[k])
        case Unloaded(_) => false
        case Loaded(_, hash) =>
          parse(contentOf(hash)).Some? && build(parse(contentOf(hash)).value) == Some(eventLists[k])
    }

    ghost predicate Valid()
      reads this
    {
      BoundOk() && ParsedOk() && EventsOk()
    }

    constructor (parse: Content -> Option<O>, build: O -> Option<seq<E>>, system: O, contentOf: string -> Content)
      ensures Valid() && bound == [] && parsed == []
      ensures this.parse == parse && this.build == build && this.system == system && this.contentOf == contentOf
    {
      this.parse, this.build, this.system, this.contentOf := parse, build, system, contentOf;
      bound, parsed, eventLists := [], [], map[];
    }

    method SetWorkflowModel(pid: string, b: Bound)
      requires Valid() && b.content == contentOf(b.hash)
      modifies this`bound
      ensures Valid() && bound == Bind(old(bound), pid, b) && Get(bound, pid) == Some(b)
    {
      JustBoundStays(bound, pid, b);
      ghost var before := bound;
      if Get(bound, pid).Some? {
        bound := Without(bound, pid);
      } else {
        NothingToDelete(bound, pid);
      }
      var kept := DropOldest(bound + [(pid, b)], WORKFLOW_CONTENT_MAX);
      bound := kept;
      forall e | e in bound
        ensures e.1.content == contentOf(e.1.hash)
      {
        assert e.0 != pid ==> e in before;
        if e.0 == pid {
          GetOnly(bound, pid, e.1);
        }
      }
    }

    method ForgetWorkflowModel(pid: string)
      requires Valid()
      modifies this`bound, this`parsed
      ensures Valid() && bound == Without(old(bound), pid) && Get(bound, pid) == None
      ensures forall e :: e in parsed <==> e in old(parsed) && e.0.0 != pid
    {
      WithoutDistinct(bound, pid);
      bound := Without(bound, pid);
      GetIs(bound, pid);
      var kept := KeepOthers(pid);
      parsed := kept;
    }

    /** The parsed models of every other workflow. */
    method KeepOthers(pid: string) returns (kept: Entries<(string, string), O>)
      requires DistinctKeys(parsed)
      ensures DistinctKeys(kept) && |kept| <= |parsed| && forall e :: e in kept <==> e in parsed && e.0.0 != pid
    {
      kept := [];
      for i := 0 to |parsed|
        invariant |kept| <= i && DistinctKeys(kept)
        invariant forall e :: e in kept <==> e in parsed[..i] && e.0.0 != pid
      {
        assert parsed[..i + 1] == parsed[..i] + [parsed[i]];
        forall e | e in kept
          ensures e.0 != parsed[i].0
        {
          var j :| 0 <= j < i && parsed[..i][j] == e;
        }
        if parsed[i].0.0 != pid {
          kept := kept + [parsed[i]];
        }
      }
      assert parsed[..|parsed|] == parsed;
    }

    function CacheKey(active: Option<string>): Key
      reads this`bound
    {
      if active.None? then System
      else
        match Get(bound, active.value)
        case None => Unloaded(active.value)
        case Some(b) => Loaded(active.value, b.hash)
    }

    /** The cache is invisible: the result is the parse of what is bound now. A
        failure leaves no trace. */
    method GetOntology(active: Option<string>) returns (r: Result<O, Failure>)
      requires Valid()
      modifies this`parsed
      ensures Valid() && r == OntologyOf(bound, active, system, parse)
      ensures IsModel(bound, active, system, parse, r)
      ensures r.Err? ==> parsed == old(parsed)
    {
      OntologyIs(bound, active, system, parse);
      if active.None? {
        return Ok(system);
      }
      var c := Get(bound, active.value);
      GetIs(bound, active.value);
      if c.None? {
        return Err(NotLoaded);
      }
      var key := (active.value, c.value.hash);
      var hit := Get(parsed, key);
      GetIs(parsed, key);
      if hit.Some? {
        return Ok(hit.value);
      }
      var o := parse(c.value.content);
      if o.None? {
        return Err(Invalid);
      }
      Remember(key, o.value);
      r := Ok(o.value);
    }

    /** `parsedByKey.set` and `evictParsed`. */
    method Remember(key: (string, string), o: O)
      requires Valid() && Get(parsed, key).None? && parse(contentOf(key.1)) == Some(o)
      modifies this`parsed
      ensures Valid() && parsed == Newest(old(parsed) + [(key, o)], PARSED_CACHE_MAX)
    {
      GetIs(parsed, key);
      var kept := DropOldest(parsed + [(key, o)], PARSED_CACHE_MAX);
      parsed := kept;
    }

    /** `events()`: as invisible as the cache below it; only a list that was built
        is kept. */
    method Events(active: Option<string>) returns (r: seq<E>)
      requires Valid()
      modifies this`parsed, this`eventLists
      ensures Valid() && r == EventsOf(bound, active, system, parse, build)
      ensures eventLists == old(eventLists)
              || (eventLists == old(eventLists)[CacheKey(active) := r] && CacheKey(active) !in old(eventLists))
    {
      var key := CacheKey(active);
      if active.Some? {
        GetIs(bound, active.value);
      }
      if key in eventLists {
        return eventLists[key];
      }
      var o := GetOntology(active);
      if o.Err? {
        return [];
      }
      var list := build(o.value);
      if list.None? {
        return [];
      }
      eventLists := eventLists[key := list.value];
      r := list.value;
    }
  }

  lemma {:induction false} NothingToDelete<V(!new)>(s: Entries<string, V>, k: string)
    requires Get(s, k).None?
    ensures Without(s, k) == s
  {
    if s != [] {
      NothingToDelete(s[1..], k);
    }
  }

  // --- over whole runs ----------------------------------------------------------------------------

  datatype Op = Rebind(pid: string, b: Bound) | Forget(pid: string)

  function Run(bound: Entries<string, Bound>, ops: seq<Op>): Entries<string, Bound>
    decreases |ops|
  {
    if ops == [] then bound
    else Run(match ops[0] case Rebind(pid, b) => Bind(bound, pid, b) case Forget(pid) => Without(bound, pid), ops[1..])
  }

  /** The other workflows bound along the way. */
  function Others(ops: seq<Op>, pid: string): set<string> {
    set i | 0 <= i < |ops| && ops[i].Rebind? && ops[i].pid != pid :: ops[i].pid
  }

  /** The workflow is bound, and only workflows of `newer` were bound after it. */
  ghost predicate Near(s: Entries<string, Bound>, pid: string, newer: set<string>) {
    s != [] && if s[0].0 == pid then forall e :: e in s[1..] ==> e.0 in newer else Near(s[1..], pid, newer)
  }

  lemma {:induction false} NearMore(s: Entries<string, Bound>, pid: string, newer: set<string>, q: string, b: Bound)
    requires Near(s, pid, newer) && q != pid
    ensures Near(s + [(q, b)], pid, newer + {q})
  {
    var more := s + [(q, b)];
    assert more[0] == s[0] && more[1..] == s[1..] + [(q, b)];
    if s[0].0 != pid {
      NearMore(s[1..], pid, newer, q, b);
    }
  }

  lemma {:induction false} NearWithout(s: Entries<string, Bound>, pid: string, newer: set<string>, q: string)
    requires Near(s, pid, newer) && q != pid
    ensures Near(Without(s, q), pid, newer)
  {
    var kept := Without(s, q);
    if s[0].0 == pid {
      assert kept[0] == s[0] && kept[1..] == Without(s[1..], q);
    } else {
      NearWithout(s[1..], pid, newer, q);
      if s[0].0 == q {
        assert kept == Without(s[1..], q);
      } else {
        assert kept[0] == s[0] && kept[1..] == Without(s[1..], q);
      }
    }
  }

  lemma {:induction false} NearSelf(s: Entries<string, Bound>, pid: string, newer: set<string>, b: Bound)
    requires forall e :: e in s ==> e.0 != pid
    ensures Near(s + [(pid, b)], pid, newer)
  {
    var all := s + [(pid, b)];
    if s == [] {
      assert all[1..] == [];
    } else {
      NearSelf(s[1..], pid, newer, b);
      assert all[0] == s[0] && all[0] in s && all[1..] == s[1..] + [(pid, b)];
    }
  }

  /** Dropping the oldest of too many entries cannot hit a workflow that fewer than
      64 others followed. */
  lemma NearSurvives(s: Entries<string, Bound>, pid: string, newer: set<string>)
    requires Near(s, pid, newer) && DistinctKeys(s) && |newer| < WORKFLOW_CONTENT_MAX && |s| <= WORKFLOW_CONTENT_MAX + 1
    ensures Near(Newest(s, WORKFLOW_CONTENT_MAX), pid, newer)
  {
    if |s| == WORKFLOW_CONTENT_MAX + 1 && s[0].0 == pid {
      var keys := seq(|s| - 1, i requires 0 <= i < |s| - 1 => s[i + 1].0);
      DistinctSize(keys);
      forall k | k in Elements(keys)
        ensures k in newer
      {
        var i :| 0 <= i < |keys| && keys[i] == k;
        assert s[1..][i] in s[1..];
      }
      SubsetSize(Elements(keys), newer);
    }
  }

  lemma {:induction false} NearIsBound(s: Entries<string, Bound>, pid: string, newer: set<string>)
    requires Near(s, pid, newer)
    ensures Get(s, pid).Some?
  {
    if s[0].0 != pid {
      NearIsBound(s[1..], pid, newer);
    }
  }

  lemma {:induction false} StaysNear(bound: Entries<string, Bound>, ops: seq<Op>, pid: string, newer: set<string>)
    requires DistinctKeys(bound) && |bound| <= WORKFLOW_CONTENT_MAX && Near(bound, pid, newer)
    requires Forget(pid) !in ops && |newer + Others(ops, pid)| < WORKFLOW_CONTENT_MAX
    ensures Get(Run(bound, ops), pid).Some?
    decreases |ops|
  {
    if ops == [] {
      NearIsBound(bound, pid, newer);
    } else {
      var op, rest := ops[0], ops[1..];
      assert op in ops;
      OthersSplit(ops, pid);
      if op.Forget? {
        NearWithout(bound, pid, newer, op.pid);
        WithoutDistinct(bound, op.pid);
        assert newer + Others(ops, pid) == newer + Others(rest, pid);
        StaysNear(Without(bound, op.pid), rest, pid, newer);
      } else {
        var more := if op.pid == pid then newer else newer + {op.pid};
        assert newer + Others(ops, pid) == more + Others(rest, pid);
        SubsetSize(more, newer + Others(ops, pid));
        BindKeepsNear(bound, pid, newer, op.pid, op.b);
        JustBoundStays(bound, op.pid, op.b);
        StaysNear(Bind(bound, op.pid, op.b), rest, pid, more);
      }
    }
  }

  lemma BindKeepsNear(bound: Entries<string, Bound>, pid: string, newer: set<string>, q: string, b: Bound)
    requires DistinctKeys(bound) && |bound| <= WORKFLOW_CONTENT_MAX && Near(bound, pid, newer)
    requires |if q == pid then newer else newer + {q}| < WORKFLOW_CONTENT_MAX
    ensures Near(Bind(bound, q, b), pid, if q == pid then newer else newer + {q})
  {
    MovedDistinct(bound, q, b);
    if q == pid {
      NearSelf(Without(bound, pid), pid, newer, b);
      NearSurvives(Moved(bound, q, b), pid, newer);
    } else {
      NearWithout(bound, pid, newer, q);
      NearMore(Without(bound, q), pid, newer, q, b);
      NearSurvives(Moved(bound, q, b), pid, newer + {q});
    }
  }

  lemma OthersSplit(ops: seq<Op>, pid: string)
    requires ops != []
    ensures Others(ops, pid) == Others(ops[1..], pid) + if ops[0].Rebind? && ops[0].pid != pid then {ops[0].pid} else {}
  {
    var rest := ops[1..];
    forall p | p in Others(ops, pid)
      ensures p in Others(rest, pid) || (ops[0].Rebind? && ops[0].pid == p)
    {
      var i :| 0 <= i < |ops| && ops[i].Rebind? && ops[i].pid != pid && ops[i].pid == p;
      assert i > 0 ==> rest[i - 1] == ops[i];
    }
    forall p | p in Others(rest, pid)
      ensures p in Others(ops, pid)
    {
      var i :| 0 <= i < |rest| && rest[i].Rebind? && rest[i].pid != pid && rest[i].pid == p;
      assert ops[i + 1] == rest[i];
    }
  }

  /** Once bound, a workflow stays bound until it is forgotten or at least 64 other
      workflows have been bound after it. */
  lemma BoundUntilCrowdedOut(bound: Entries<string, Bound>, pid: string, b: Bound, ops: seq<Op>)
    requires DistinctKeys(bound) && |bound| <= WORKFLOW_CONTENT_MAX
    requires Forget(pid) !in ops && |Others(ops, pid)| < WORKFLOW_CONTENT_MAX
    ensures Get(Run(Bind(bound, pid, b), ops), pid).Some?
  {
    JustBoundStays(bound, pid, b);
    NearSelf(Without(bound, pid), pid, {}, b);
    MovedDistinct(bound, pid, b);
    NearSurvives(Moved(bound, pid, b), pid, {});
    assert {} + Others(ops, pid) == Others(ops, pid);
    StaysNear(Bind(bound, pid, b), ops, pid, {});
  }
}
