/** The `order: [[column, direction]]` clause of a query, as a sort of the
    result rows by a total preorder, and a lexicographic order on code
    points that stands in for the database collation behind `ORDER BY name
    ASC` (which collation the database uses is not part of this model). */
module Sorting {
  import opened Folds

  /** `before` orders every pair, and consistently. */
  ghost predicate TotalPreorder<A(!new)>(before: (A, A) -> bool) {
    && (forall a, b :: before(a, b) || before(b, a))
    && (forall a, b, c :: before(a, b) && before(b, c) ==> before(a, c))
  }

  /** Every element comes `before` every later one. */
  predicate Sorted<A>(xs: seq<A>, before: (A, A) -> bool) {
    forall i, j :: 0 <= i < j < |xs| ==> before(xs[i], xs[j])
  }

  /** Places `x` in front of the first element it may precede. */
  function InsertSorted<A(!new)>(x: A, xs: seq<A>, before: (A, A) -> bool): (r: seq<A>)
    requires TotalPreorder(before)
    requires Sorted(xs, before)
    ensures Sorted(r, before)
    ensures multiset(r) == multiset(xs) + multiset{x}
    ensures forall k :: 0 <= k < |r| ==> r[k] == x || r[k] in xs
  {
    if |xs| == 0 then [x]
    else if before(x, xs[0]) then [x] + xs
    else
      var rest := InsertSorted(x, xs[1..], before);
      assert xs == [xs[0]] + xs[1..];
      HeadBeforeRest(x, xs, rest, before);
      [xs[0]] + rest
  }

  /** The head of a sorted sequence comes before `x`, when `x` does not come
      before it, and before every later element. */
  lemma HeadBeforeRest<A(!new)>(x: A, xs: seq<A>, rest: seq<A>, before: (A, A) -> bool)
    requires TotalPreorder(before) && Sorted(xs, before)
    requires |xs| > 0 && !before(x, xs[0])
    requires forall k :: 0 <= k < |rest| ==> rest[k] == x || rest[k] in xs[1..]
    ensures forall k :: 0 <= k < |rest| ==> before(xs[0], rest[k])
  {
    forall k | 0 <= k < |rest|
      ensures before(xs[0], rest[k])
    {
      if rest[k] != x {
        var j :| 0 <= j < |xs[1..]| && xs[1..][j] == rest[k];
        assert xs[j + 1] == rest[k];
      }
    }
  }

  /** Insertion sort: a permutation of `xs` ordered by `before`. */
  function Sort<A(!new)>(xs: seq<A>, before: (A, A) -> bool): (r: seq<A>)
    requires TotalPreorder(before)
    ensures Sorted(r, before)
    ensures multiset(r) == multiset(xs)
    ensures |r| == |xs|
  {
    if |xs| == 0 then []
    else
      assert xs == [xs[0]] + xs[1..];
      InsertSorted(xs[0], Sort(xs[1..], before), before)
  }

  /** A sort keeps exactly the elements it was given. */
  lemma SortKeepsElements<A(!new)>(xs: seq<A>, before: (A, A) -> bool)
    requires TotalPreorder(before)
    ensures forall x :: x in Sort(xs, before) <==> x in xs
  {
    var r := Sort(xs, before);
    forall x
      ensures x in r <==> x in xs
    {
      assert x in r <==> x in multiset(r);
      assert x in xs <==> x in multiset(xs);
    }
  }

  /** Lexicographic order on code points: `a` sorts no later than `b`. */
  predicate LexLe(a: string, b: string) {
    |a| == 0 || (|b| > 0 && (a[0] < b[0] || (a[0] == b[0] && LexLe(a[1..], b[1..]))))
  }

  lemma {:induction false} LexLeTotal(a: string, b: string)
    ensures LexLe(a, b) || LexLe(b, a)
  {
    if |a| > 0 && |b| > 0 && a[0] == b[0] {
      LexLeTotal(a[1..], b[1..]);
    }
  }

  lemma {:induction false} LexLeTransitive(a: string, b: string, c: string)
    requires LexLe(a, b) && LexLe(b, c)
    ensures LexLe(a, c)
  {
    if |a| > 0 && |b| > 0 && |c| > 0 && a[0] == b[0] && b[0] == c[0] {
      LexLeTransitive(a[1..], b[1..], c[1..]);
    }
  }

  lemma {:induction false} LexLeAntisymmetric(a: string, b: string)
    requires LexLe(a, b) && LexLe(b, a)
    ensures a == b
  {
    if |a| > 0 && |b| > 0 {
      LexLeAntisymmetric(a[1..], b[1..]);
      assert a == [a[0]] + a[1..] && b == [b[0]] + b[1..];
    }
  }

  /** Taking one group out of a sorted sequence keeps it sorted. */
  lemma {:induction false} WhereSorted<T(!new), K(!new)>(xs: seq<T>, key: T -> K, k: K, before: (T, T) -> bool)
    requires Sorted(xs, before)
    ensures Sorted(Where(xs, key, k), before)
  {
    if |xs| > 0 {
      var prefix := xs[..|xs| - 1];
      var x := xs[|xs| - 1];
      assert xs == prefix + [x];
      WhereSorted(prefix, key, k, before);
      WhereSnoc(prefix, x, key, k);
      var w := Where(prefix, key, k);
      forall i | 0 <= i < |w|
        ensures before(w[i], x)
      {
        assert w[i] in w;
        WhereMember(prefix, key, k, w[i]);
        var j :| 0 <= j < |prefix| && prefix[j] == w[i];
        assert xs[j] == w[i];
      }
    }
  }
}
