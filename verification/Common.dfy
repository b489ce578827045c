/** Facts about sequences, sets and sorting that the other modules share. */
module Common {

  datatype Option<+T> = None | Some(value: T)

  datatype Result<+T, +E> = Ok(value: T) | Err(error: E)

  ghost predicate Distinct<T>(s: seq<T>) {
    forall i, j :: 0 <= i < j < |s| ==> s[i] != s[j]
  }

  function Elements<T(==,!new)>(s: seq<T>): (r: set<T>)
    ensures forall x :: x in r <==> x in s
  {
    set x | x in s
  }

  lemma {:induction false} DistinctSize<T(!new)>(s: seq<T>)
    requires Distinct(s)
    ensures |Elements(s)| == |s|
  {
    if |s| == 0 {
    } else {
      var front, last := s[..|s| - 1], s[|s| - 1];
      DistinctSize(front);
      ElementsSnoc(front, last);
      assert s == front + [last];
    }
  }

  lemma ElementsSnoc<T(!new)>(s: seq<T>, x: T)
    ensures Elements(s + [x]) == Elements(s) + {x}
  {
  }

  /** A subset that has as many members is the whole set. */
  lemma SubsetOfSameSize<T>(a: set<T>, b: set<T>)
    requires a <= b && |a| == |b|
    ensures a == b
  {
    assert |b - a| == |b| - |a|;
  }

  lemma {:induction false} SubsetSize<T>(a: set<T>, b: set<T>)
    requires a <= b
    ensures |a| <= |b|
  {
    if x :| x in a {
      SubsetSize(a - {x}, b - {x});
    }
  }

  /** Pigeonhole: more positions than values means some value repeats. */
  lemma Pigeonhole<T(!new)>(s: seq<T>, pool: set<T>) returns (i: nat, j: nat)
    requires |s| > |pool| && forall k :: 0 <= k < |s| ==> s[k] in pool
    ensures i < j < |s| && s[i] == s[j]
  {
    if Distinct(s) {
      DistinctSize(s);
      SubsetSize(Elements(s), pool);
      assert false;
    }
    i, j :| 0 <= i < j < |s| && s[i] == s[j];
  }

  lemma DistinctStep<T>(s: seq<T>, i: nat)
    requires Distinct(s) && i < |s|
    ensures s[..i + 1] == s[..i] + [s[i]] && s[i] !in s[..i]
  {
  }

  lemma DistinctAppend<T>(s: seq<T>, x: T)
    requires Distinct(s) && x !in s
    ensures Distinct(s + [x])
  {
  }

  /** The pieces put together. */
  function Concat<T>(pieces: seq<seq<T>>): seq<T> {
    if pieces == [] then [] else Concat(pieces[..|pieces| - 1]) + pieces[|pieces| - 1]
  }

  lemma ConcatStep<T>(pieces: seq<seq<T>>, k: nat)
    requires k < |pieces|
    ensures Concat(pieces[..k + 1]) == Concat(pieces[..k]) + pieces[k]
  {
    assert pieces[..k + 1][..k] == pieces[..k];
  }

  lemma {:induction false} ConcatGrows<T>(pieces: seq<seq<T>>, n: nat)
    requires n <= |pieces|
    ensures Concat(pieces[..n]) <= Concat(pieces)
  {
    if n < |pieces| {
      ConcatGrows(pieces[..|pieces| - 1], n);
      assert pieces[..|pieces| - 1][..n] == pieces[..n];
    } else {
      assert pieces[..n] == pieces;
    }
  }

  /** The first position of `x`. */
  function IndexOf<T(==)>(s: seq<T>, x: T): (i: nat)
    requires x in s
    ensures i < |s| && s[i] == x && forall j :: 0 <= j < i ==> s[j] != x
  {
    if s[0] == x then 0 else 1 + IndexOf(s[1..], x)
  }

  // --- Array.prototype.sort with a comparator -------------------------------

  /** A comparator in JavaScript's sense: negative, zero or positive. */
  type Comparator<!T> = (T, T) -> int

  function InsertSorted<T>(s: seq<T>, x: T, cmp: Comparator<T>): (r: seq<T>)
    ensures multiset(r) == multiset(s) + multiset{x}
    ensures |r| == |s| + 1
  {
    if s == [] || cmp(s[|s| - 1], x) <= 0 then
      s + [x]
    else
      var front, last := s[..|s| - 1], s[|s| - 1];
      assert s == front + [last];
      InsertSorted(front, x, cmp) + [last]
  }

  /** Stable sort: equal elements keep their order, whatever the comparator says
      the result is a permutation. */
  function Sorted<T>(s: seq<T>, cmp: Comparator<T>): (r: seq<T>)
    ensures multiset(r) == multiset(s)
    ensures |r| == |s|
  {
    if s == [] then []
    else
      var front, last := s[..|s| - 1], s[|s| - 1];
      assert s == front + [last];
      InsertSorted(Sorted(front, cmp), last, cmp)
  }

  ghost predicate TotalPreorder<T(!new)>(cmp: Comparator<T>, pool: set<T>) {
    && (forall a, b :: a in pool && b in pool ==> (cmp(a, b) <= 0 || cmp(b, a) <= 0))
    && (forall a, b, c :: a in pool && b in pool && c in pool && cmp(a, b) <= 0 && cmp(b, c) <= 0 ==> cmp(a, c) <= 0)
  }

  ghost predicate InOrder<T>(s: seq<T>, cmp: Comparator<T>) {
    forall i, j :: 0 <= i < j < |s| ==> cmp(s[i], s[j]) <= 0
  }

  lemma SameElements<T>(a: seq<T>, b: seq<T>)
    requires multiset(a) == multiset(b)
    ensures forall x :: x in a <==> x in b
    ensures |a| == |b|
  {
    forall x
      ensures x in a <==> x in b
    {
      assert x in a <==> x in multiset(a);
      assert x in b <==> x in multiset(b);
    }
    assert |multiset(a)| == |a| && |multiset(b)| == |b|;
  }

  lemma InOrderSnoc<T(!new)>(s: seq<T>, last: T, cmp: Comparator<T>)
    requires InOrder(s, cmp) && forall y :: y in s ==> cmp(y, last) <= 0
    ensures InOrder(s + [last], cmp)
  {
  }

  lemma LastIsGreatest<T(!new)>(s: seq<T>, x: T, cmp: Comparator<T>, pool: set<T>)
    requires TotalPreorder(cmp, pool) && InOrder(s, cmp) && s != [] && cmp(s[|s| - 1], x) <= 0
    requires x in pool && forall y :: y in s ==> y in pool
    ensures forall y :: y in s ==> cmp(y, x) <= 0
  {
    forall y | y in s
      ensures cmp(y, x) <= 0
    {
      var i :| 0 <= i < |s| && s[i] == y;
      assert s[|s| - 1] in s;
      assert i < |s| - 1 ==> cmp(s[i], s[|s| - 1]) <= 0;
    }
  }

  lemma FrontInOrder<T(!new)>(s: seq<T>, cmp: Comparator<T>)
    requires InOrder(s, cmp) && s != []
    ensures var front, last := s[..|s| - 1], s[|s| - 1];
            InOrder(front, cmp) && last in s && forall y :: y in front ==> y in s && cmp(y, last) <= 0
  {
    var front := s[..|s| - 1];
    forall y | y in front
      ensures y in s && cmp(y, s[|s| - 1]) <= 0
    {
      var k :| 0 <= k < |front| && front[k] == y;
      assert s[k] == y;
    }
  }

  lemma {:induction false} InsertInOrder<T(!new)>(s: seq<T>, x: T, cmp: Comparator<T>, pool: set<T>)
    requires TotalPreorder(cmp, pool) && InOrder(s, cmp)
    requires x in pool && forall y :: y in s ==> y in pool
    ensures InOrder(InsertSorted(s, x, cmp), cmp)
  {
    if s == [] || cmp(s[|s| - 1], x) <= 0 {
      if s != [] {
        LastIsGreatest(s, x, cmp, pool);
      }
      InOrderSnoc(s, x, cmp);
    } else {
      var front, last := s[..|s| - 1], s[|s| - 1];
      FrontInOrder(s, cmp);
      InsertInOrder(front, x, cmp, pool);
      var r := InsertSorted(front, x, cmp);
      SameElements(r, front + [x]);
      forall y | y in r
        ensures cmp(y, last) <= 0
      {
        assert y in front + [x];
      }
      InOrderSnoc(r, last, cmp);
    }
  }

  lemma {:induction false} SortedInOrder<T(!new)>(s: seq<T>, cmp: Comparator<T>, pool: set<T>)
    requires TotalPreorder(cmp, pool) && forall y :: y in s ==> y in pool
    ensures InOrder(Sorted(s, cmp), cmp)
  {
    if s != [] {
      var front := s[..|s| - 1];
      SortedInOrder(front, cmp, pool);
      SameElements(Sorted(front, cmp), front);
      assert forall y :: y in front ==> y in s;
      InsertInOrder(Sorted(front, cmp), s[|s| - 1], cmp, pool);
    }
  }

  lemma {:induction false} DistinctCounts<T>(a: seq<T>, x: T)
    requires Distinct(a)
    ensures multiset(a)[x] <= 1
  {
    if a != [] {
      var front, last := a[..|a| - 1], a[|a| - 1];
      assert a == front + [last];
      assert last !in front;
      DistinctCounts(front, x);
    }
  }

  lemma PermutationDistinct<T>(a: seq<T>, b: seq<T>)
    requires Distinct(a) && multiset(a) == multiset(b)
    ensures Distinct(b)
  {
    forall i, j | 0 <= i < j < |b|
      ensures b[i] != b[j]
    {
      DistinctCounts(a, b[i]);
      if b[i] == b[j] {
        CountsAtLeastTwo(b, i, j);
      }
    }
  }

  lemma CountsAtLeastTwo<T>(b: seq<T>, i: nat, j: nat)
    requires i < j < |b| && b[i] == b[j]
    ensures multiset(b)[b[i]] >= 2
  {
    assert b == b[..i] + [b[i]] + b[i + 1..j] + [b[j]] + b[j + 1..];
    assert multiset(b) == multiset(b[..i]) + multiset{b[i]} + multiset(b[i + 1..j]) + multiset{b[j]}
        + multiset(b[j + 1..]);
  }

  ghost predicate StrictlyOrdered<T>(s: seq<T>, cmp: Comparator<T>) {
    forall i, j :: 0 <= i < j < |s| ==> cmp(s[i], s[j]) < 0 && cmp(s[j], s[i]) > 0
  }

  lemma SameLast<T>(a: seq<T>, b: seq<T>, cmp: Comparator<T>)
    requires |a| == |b| > 0 && (forall x :: x in a <==> x in b)
    requires StrictlyOrdered(a, cmp) && InOrder(b, cmp)
    ensures a[|a| - 1] == b[|b| - 1]
  {
    var n := |a| - 1;
    assert b[n] in a && a[n] in b;
    var i :| 0 <= i < |a| && a[i] == b[n];
    var j :| 0 <= j < |b| && b[j] == a[n];
    if i < n {
      assert cmp(a[n], a[i]) > 0;
    }
  }

  lemma DropSameLast<T>(a: seq<T>, b: seq<T>)
    requires multiset(a) == multiset(b) && |a| == |b| > 0 && a[|a| - 1] == b[|b| - 1]
    ensures multiset(a[..|a| - 1]) == multiset(b[..|b| - 1])
    ensures a[..|a| - 1] == b[..|b| - 1] ==> a == b
  {
    DropLast(a);
    DropLast(b);
  }

  lemma DropLast<T>(a: seq<T>)
    requires a != []
    ensures a == a[..|a| - 1] + [a[|a| - 1]] && multiset(a[..|a| - 1]) == multiset(a) - multiset{a[|a| - 1]}
  {
    var front, last := a[..|a| - 1], a[|a| - 1];
    assert a == front + [last];
    assert multiset(a) == multiset(front) + multiset{last};
  }

  /** Two ordered listings of the same elements agree when the order is strict. */
  lemma {:induction false} StrictOrderUnique<T(!new)>(a: seq<T>, b: seq<T>, cmp: Comparator<T>)
    requires multiset(a) == multiset(b)
    requires StrictlyOrdered(a, cmp) && InOrder(b, cmp)
    ensures a == b
  {
    SameElements(a, b);
    if |a| > 0 {
      SameLast(a, b, cmp);
      DropSameLast(a, b);
      StrictOrderUnique(a[..|a| - 1], b[..|b| - 1], cmp);
    }
  }
}
