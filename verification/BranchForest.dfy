/** The branch split: the firings right of the split event, threaded into a forest
    of executions. */
module BranchForest {
  import opened Common

  /** One log entry of the loaded case; its position in the log identifies it. */
  datatype Firing = Firing(col: nat, aggId: string, parentAggs: seq<string>)

  type Log = seq<Firing>

  predicate InSub(log: Log, split: nat, i: int) {
    0 <= i < |log| && log[i].col >= split
  }

  /** (column, log position), compared lexicographically. */
  predicate Earlier(log: Log, a: int, b: int) {
    0 <= a < |log| && 0 <= b < |log| && (log[a].col < log[b].col || (log[a].col == log[b].col && a < b))
  }

  /** The firings of one aggregate at or right of the split column among the first
      `n` entries, in log order. */
  function Members(log: Log, split: nat, agg: string, n: nat): (r: seq<nat>)
    requires n <= |log|
    ensures forall i :: i in r <==> i < n && InSub(log, split, i) && log[i].aggId == agg
    ensures Distinct(r)
  {
    if n == 0 then []
    else
      var front := Members(log, split, agg, n - 1);
      if log[n - 1].col >= split && log[n - 1].aggId == agg then front + [n - 1] else front
  }

  // --- the parent of a firing ------------------------------------------------------------------

  function StepOrder(log: Log): Comparator<nat> {
    (a: nat, b: nat) =>
      if a >= |log| || b >= |log| then 0
      else if log[a].col != log[b].col then log[a].col - log[b].col
      else a - b
  }

  /** All steps of one aggregate in the branch; firings without an aggregate id
      share one chain. */
  function Chain(log: Log, split: nat, agg: string): seq<nat> {
    Sorted(Members(log, split, agg, |log|), StepOrder(log))
  }

  function ChainParent(chain: seq<nat>, i: nat): Option<nat>
    requires i in chain
  {
    var pos := IndexOf(chain, i);
    if pos > 0 then Some(chain[pos - 1]) else None
  }

  /** The first firing of an aggregate among the first `n` entries. */
  function FirstOf(log: Log, agg: string, n: nat): (r: Option<nat>)
    requires n <= |log|
    ensures r.Some? ==> r.value < n && log[r.value].aggId == agg && forall j :: 0 <= j < r.value ==> log[j].aggId != agg
    ensures r.None? ==> agg == "" || forall j :: 0 <= j < n ==> log[j].aggId != agg
  {
    if n == 0 || agg == "" then None
    else
      var earlier := FirstOf(log, agg, n - 1);
      if earlier.Some? then earlier else if log[n - 1].aggId == agg then Some(n - 1) else None
  }

  /** A reference that leads to an earlier step inside the branch. */
  predicate Candidate(log: Log, split: nat, i: nat, agg: string, p: nat)
    requires i < |log|
  {
    FirstOf(log, agg, |log|) == Some(p) && p != i && split <= log[p].col < log[i].col
  }

  /** Among the references in `aggs`, the candidate of the highest column, the
      first one listed when several share it. */
  function Nearest(log: Log, split: nat, i: nat, aggs: seq<string>): (r: Option<nat>)
    requires i < |log|
    ensures r.Some? ==> r.value < |log| && split <= log[r.value].col < log[i].col
  {
    if aggs == [] then None
    else
      var last := aggs[|aggs| - 1];
      var best, p := Nearest(log, split, i, aggs[..|aggs| - 1]), FirstOf(log, last, |log|);
      if p.Some? && Candidate(log, split, i, last, p.value) && (best.None? || log[p.value].col > log[best.value].col)
        then p
      else best
  }

  /** Listed at `k`, the reference to `r` beats every other: candidates listed before
      it lie in earlier columns, those after it in no later one. */
  ghost predicate Wins(log: Log, split: nat, i: nat, aggs: seq<string>, k: nat, r: nat)
    requires i < |log|
  {
    && k < |aggs| && r < |log| && Candidate(log, split, i, aggs[k], r)
    && forall m, p: nat :: 0 <= m < |aggs| && Candidate(log, split, i, aggs[m], p) ==>
         if m < k then log[p].col < log[r].col else log[p].col <= log[r].col
  }

  /** The nearest parent is the first listed candidate of the highest column. */
  lemma {:induction false} NearestIsBest(log: Log, split: nat, i: nat, aggs: seq<string>) returns (at: nat)
    requires i < |log|
    ensures match Nearest(log, split, i, aggs)
            case None => forall k, p: nat :: 0 <= k < |aggs| ==> !Candidate(log, split, i, aggs[k], p)
            case Some(r) => Wins(log, split, i, aggs, at, r)
  {
    at := 0;
    if aggs != [] {
      var n := |aggs| - 1;
      var front := aggs[..n];
      at := NearestIsBest(log, split, i, front);
      assert forall k :: 0 <= k < n ==> front[k] == aggs[k];
      if Nearest(log, split, i, aggs) != Nearest(log, split, i, front) {
        at := n;
      }
    }
  }

  function ParentOf(log: Log, split: nat, i: nat): Option<nat>
    requires InSub(log, split, i)
  {
    var chain := Chain(log, split, log[i].aggId);
    SameElements(chain, Members(log, split, log[i].aggId, |log|));
    var previous := ChainParent(chain, i);
    if previous.Some? then previous else Nearest(log, split, i, log[i].parentAggs)
  }

  lemma ChainIsOrdered(log: Log, split: nat, agg: string)
    ensures var c := Chain(log, split, agg);
            && (forall i :: i in c <==> InSub(log, split, i) && log[i].aggId == agg) && Distinct(c) && Ordered(log, c)
  {
    var members := Members(log, split, agg, |log|);
    SameElements(Chain(log, split, agg), members);
    SortedByStep(log, members);
  }

  ghost predicate Ordered(log: Log, c: seq<nat>) {
    forall x, y :: 0 <= x < y < |c| ==> Earlier(log, c[x], c[y])
  }

  lemma SortedByStep(log: Log, members: seq<nat>)
    requires Distinct(members) && forall i :: i in members ==> i < |log|
    ensures Distinct(Sorted(members, StepOrder(log))) && Ordered(log, Sorted(members, StepOrder(log)))
  {
    var c := Sorted(members, StepOrder(log));
    SameElements(c, members);
    PermutationDistinct(members, c);
    SortedInOrder(members, StepOrder(log), Elements(members));
    forall x, y | 0 <= x < y < |c|
      ensures Earlier(log, c[x], c[y])
    {
      assert c[x] in c && c[y] in c;
      assert StepOrder(log)(c[x], c[y]) <= 0;
    }
  }

  /** In an ordered chain, everything but `c[pos]` lies before its neighbour or
      after it. */
  lemma NextInChain(log: Log, c: seq<nat>, pos: nat, j: nat)
    requires Ordered(log, c) && pos < |c| && j in c && j != c[pos]
    ensures pos == 0 ==> Earlier(log, c[pos], j)
    ensures pos > 0 && Earlier(log, j, c[pos]) ==> j == c[pos - 1] || Earlier(log, j, c[pos - 1])
  {
    var at :| 0 <= at < |c| && c[at] == j;
  }

  /** The chain parent is the step of the same aggregate right before this one. */
  lemma ChainParentIsPrevious(log: Log, split: nat, i: nat)
    requires InSub(log, split, i)
    ensures var c := Chain(log, split, log[i].aggId);
            && i in c
            && match ChainParent(c, i)
               case None => forall j :: InSub(log, split, j) && log[j].aggId == log[i].aggId && j != i ==>
                   Earlier(log, i, j)
               case Some(p) =>
                 && InSub(log, split, p) && log[p].aggId == log[i].aggId && Earlier(log, p, i)
                 && forall j :: InSub(log, split, j) && log[j].aggId == log[i].aggId && Earlier(log, j, i) ==>
                      j == p || Earlier(log, j, p)
  {
    var c := Chain(log, split, log[i].aggId);
    ChainIsOrdered(log, split, log[i].aggId);
    var pos := IndexOf(c, i);
    forall j | InSub(log, split, j) && log[j].aggId == log[i].aggId && j != i
      ensures if pos == 0 then Earlier(log, i, j) else Earlier(log, j, i) ==>
              j == c[pos - 1] || Earlier(log, j, c[pos - 1])
    {
      NextInChain(log, c, pos, j);
    }
    if pos > 0 {
      assert c[pos - 1] in c;
    }
  }

  /** Every parent lies in the branch and strictly below its child in (column, log
      position); a parent of another aggregate even sits in an earlier column. */
  lemma ParentBelow(log: Log, split: nat, i: nat)
    requires InSub(log, split, i) && ParentOf(log, split, i).Some?
    ensures var p := ParentOf(log, split, i).value;
            && InSub(log, split, p) && Earlier(log, p, i)
            && (log[p].aggId != log[i].aggId ==> log[p].col < log[i].col)
  {
    ChainParentIsPrevious(log, split, i);
  }

  /** No aggregate has two firings in one column of the branch. */
  ghost predicate OnePerColumn(log: Log, split: nat) {
    forall i, j :: InSub(log, split, i) && InSub(log, split, j) && i < j && log[i].aggId == log[j].aggId ==>
        log[i].col != log[j].col
  }

  ghost predicate ColumnsRise(log: Log, split: nat) {
    forall i :: InSub(log, split, i) && ParentOf(log, split, i).Some? ==>
      var p := ParentOf(log, split, i).value; p < |log| && log[p].col < log[i].col
  }

  lemma LaterInColumn(log: Log, split: nat, i: nat, j: nat)
    requires InSub(log, split, i) && InSub(log, split, j) && i < j && log[i].aggId == log[j].aggId
             && log[i].col == log[j].col
    ensures ParentOf(log, split, j).Some? && InSub(log, split, ParentOf(log, split, j).value)
    ensures log[ParentOf(log, split, j).value].col == log[j].col
  {
    ChainParentIsPrevious(log, split, j);
  }

  /** Columns rise along every edge exactly when no aggregate fires twice in one
      column. */
  lemma ColumnsRiseIff(log: Log, split: nat)
    ensures ColumnsRise(log, split) <==> OnePerColumn(log, split)
  {
    if OnePerColumn(log, split) {
      forall i | InSub(log, split, i) && ParentOf(log, split, i).Some?
        ensures var p := ParentOf(log, split, i).value; p < |log| && log[p].col < log[i].col
      {
        ParentBelow(log, split, i);
      }
    }
    if ColumnsRise(log, split) {
      forall i, j | InSub(log, split, i) && InSub(log, split, j) && i < j && log[i].aggId == log[j].aggId
        ensures log[i].col != log[j].col
      {
        if log[i].col == log[j].col {
          LaterInColumn(log, split, i, j);
        }
      }
    }
  }

  // --- building the forest ---------------------------------------------------------------------

  /** Where a firing hangs: nowhere (left of the split), at the top, or under its
      parent. */
  datatype Link = Outside | Root | Under(parent: nat)

  function LinkOf(log: Log, split: nat, i: nat): Link {
    if !InSub(log, split, i) then Outside
    else
      var p := ParentOf(log, split, i);
      if p.Some? then Under(p.value) else Root
  }

  function Links(log: Log, split: nat): (r: seq<Link>)
    ensures |r| == |log|
  {
    seq(|log|, i requires 0 <= i < |log| => LinkOf(log, split, i))
  }

  /** The firings among the first `n` that hang at `at`, in log order: the roots,
      or the children of one firing. */
  function Kids(links: seq<Link>, at: Link, n: nat): (r: seq<nat>)
    requires n <= |links|
    ensures forall i :: i in r <==> 0 <= i < n && links[i] == at
    ensures Distinct(r)
  {
    if n == 0 then []
    else
      var front := Kids(links, at, n - 1);
      if links[n - 1] == at then front + [n - 1] else front
  }

  method FirstByAgg(log: Log) returns (first: map<string, nat>)
    ensures forall a :: FirstOf(log, a, |log|) == if a in first then Some(first[a]) else None
  {
    first := map[];
    for i := 0 to |log|
      invariant forall a :: FirstOf(log, a, i) == if a in first then Some(first[a]) else None
    {
      var agg := log[i].aggId;
      if agg != "" && agg !in first {
        first := first[agg := i];
      }
    }
  }

  ghost predicate Listed(log: Log, split: nat, n: nat, listed: map<string, seq<nat>>)
    requires n <= |log|
  {
    && (forall i :: InSub(log, split, i) && i < n ==> log[i].aggId in listed)
    && (forall a :: a in listed ==> listed[a] == Members(log, split, a, n))
  }

  lemma {:induction false} MembersNone(log: Log, split: nat, agg: string, n: nat)
    requires n <= |log| && forall i :: 0 <= i < n && InSub(log, split, i) ==> log[i].aggId != agg
    ensures Members(log, split, agg, n) == []
  {
    if n > 0 {
      MembersNone(log, split, agg, n - 1);
    }
  }

  method ByAgg(log: Log, split: nat) returns (chains: map<string, seq<nat>>)
    ensures forall i :: InSub(log, split, i) ==> log[i].aggId in chains
    ensures forall a :: a in chains ==> chains[a] == Chain(log, split, a)
  {
    var listed: map<string, seq<nat>> := map[];
    for i := 0 to |log|
      invariant Listed(log, split, i, listed)
    {
      var agg := log[i].aggId;
      if log[i].col >= split {
        if agg !in listed {
          MembersNone(log, split, agg, i);
          listed := listed[agg := []];
        }
        listed := listed[agg := listed[agg] + [i]];
      }
    }
    chains := map a | a in listed :: Sorted(listed[a], StepOrder(log));
  }

  /** The parent of one firing: the earlier step of its own aggregate, else the
      nearest step inside the branch that its payload refers to. */
  method FindParent(log: Log, split: nat, i: nat, first: map<string, nat>, chains: map<string, seq<nat>>)
    returns (parent: Option<nat>)
    requires InSub(log, split, i)
    requires forall a :: FirstOf(log, a, |log|) == if a in first then Some(first[a]) else None
    requires log[i].aggId in chains && chains[log[i].aggId] == Chain(log, split, log[i].aggId)
    ensures parent == ParentOf(log, split, i)
  {
    var chain := chains[log[i].aggId];
    ChainIsOrdered(log, split, log[i].aggId);
    var pos := IndexOf(chain, i);
    if pos > 0 {
      return Some(chain[pos - 1]);
    }
    parent := None;
    var aggs := log[i].parentAggs;
    for k := 0 to |aggs|
      invariant parent == Nearest(log, split, i, aggs[..k])
    {
      assert aggs[..k + 1][..k] == aggs[..k];
      var agg := aggs[k];
      if agg in first && first[agg] != i && split <= log[first[agg]].col < log[i].col {
        if parent.None? || log[first[agg]].col > log[parent.value].col {
          parent := Some(first[agg]);
        }
      }
    }
    assert aggs[..|aggs|] == aggs;
  }

  /** `nodeOf.get(parent).children.push(node)`, or `roots.push(node)`. */
  method Attach(ghost links: seq<Link>, i: nat, parent: Option<nat>, children: array<seq<nat>>, roots: seq<nat>)
    returns (roots': seq<nat>)
    requires i < |links| == children.Length && links[i] == (if parent.Some? then Under(parent.value) else Root)
    requires parent.Some? ==> parent.value < |links|
    requires Threaded(links, children[..], roots, i)
    modifies children
    ensures Threaded(links, children[..], roots', i + 1)
  {
    roots' := roots;
    if parent.Some? {
      children[parent.value] := children[parent.value] + [i];
    } else {
      roots' := roots + [i];
    }
  }

  /** One turn of the threading loop. */
  method Thread(log: Log, split: nat, i: nat, first: map<string, nat>, chains: map<string, seq<nat>>,
                ghost links: seq<Link>, children: array<seq<nat>>, roots: seq<nat>)
    returns (roots': seq<nat>)
    requires i < |log| == |links| == children.Length && links[i] == LinkOf(log, split, i)
    requires forall a :: FirstOf(log, a, |log|) == if a in first then Some(first[a]) else None
    requires InSub(log, split, i) ==> log[i].aggId in chains && chains[log[i].aggId] == Chain(log, split, log[i].aggId)
    requires Threaded(links, children[..], roots, i)
    modifies children
    ensures Threaded(links, children[..], roots', i + 1)
  {
    if log[i].col >= split {
      var parent := FindParent(log, split, i, first, chains);
      if parent.Some? {
        ParentBelow(log, split, i);
      }
      roots' := Attach(links, i, parent, children, roots);
    } else {
      roots' := roots;
    }
  }

  /** The children lists and the roots after the first `n` firings. */
  ghost predicate Threaded(links: seq<Link>, children: seq<seq<nat>>, roots: seq<nat>, n: nat) {
    && n <= |links| == |children|
    && (forall p: nat :: p < |links| ==> children[p] == Kids(links, Under(p), n))
    && roots == Kids(links, Root, n)
  }

  /** Threads every firing of the branch: the roots, and in each cell the children
      of that firing, both in log order. */
  method BuildBranchForest(log: Log, split: nat) returns (children: array<seq<nat>>, roots: seq<nat>)
    ensures fresh(children) && Threaded(Links(log, split), children[..], roots, |log|)
  {
    var first := FirstByAgg(log);
    var chains := ByAgg(log, split);
    children := new seq<nat>[|log|](_ => []);
    roots := [];
    for i := 0 to |log|
      invariant Threaded(Links(log, split), children[..], roots, i)
    {
      roots := Thread(log, split, i, first, chains, Links(log, split), children, roots);
    }
  }

  // --- the forest as trees ---------------------------------------------------------------------

  datatype Tree = Tree(firing: nat, kids: seq<Tree>)

  /** The firings of a tree and of a forest, each subtree's root first. */
  function FiringsOf(t: Tree): seq<nat> {
    [t.firing] + Firings(t.kids)
  }

  function Firings(ts: seq<Tree>): seq<nat> {
    if ts == [] then [] else FiringsOf(ts[0]) + Firings(ts[1..])
  }
}
