/** The folds the reports are built from: sums over a row sequence, the
    rows of one group, grouping into a map the way `reduce` with an object
    accumulator does, and the facts that make group totals add up to the
    grand total. Every sequence is folded left to right, as `reduce` does. */
module Folds {
  /** `xs.reduce((sum, x) => sum + val(x), 0)`. */
  function Sum<T>(xs: seq<T>, val: T -> int): int {
    if |xs| == 0 then 0 else Sum(xs[..|xs| - 1], val) + val(xs[|xs| - 1])
  }

  lemma SumSnoc<T>(xs: seq<T>, x: T, val: T -> int)
    ensures Sum(xs + [x], val) == Sum(xs, val) + val(x)
  {
    assert (xs + [x])[..|xs|] == xs;
  }

  /** `xs.map(f)`. */
  function MapSeq<T, U>(xs: seq<T>, f: T -> U): (r: seq<U>)
    ensures |r| == |xs|
    ensures forall i :: 0 <= i < |xs| ==> r[i] == f(xs[i])
  {
    if |xs| == 0 then [] else MapSeq(xs[..|xs| - 1], f) + [f(xs[|xs| - 1])]
  }

  /** The image of every element is in the mapped sequence. */
  lemma MapSeqMember<T, U>(xs: seq<T>, f: T -> U, x: T)
    requires x in xs
    ensures f(x) in MapSeq(xs, f)
  {
    var i :| 0 <= i < |xs| && xs[i] == x;
    assert MapSeq(xs, f)[i] == f(x);
  }

  /** Sequences that agree element by element have the same sum. */
  lemma {:induction false} SumPointwise<T, U>(ys: seq<U>, xs: seq<T>, val: U -> int, direct: T -> int)
    requires |ys| == |xs|
    requires forall i :: 0 <= i < |xs| ==> val(ys[i]) == direct(xs[i])
    ensures Sum(ys, val) == Sum(xs, direct)
  {
    if |xs| > 0 {
      SumPointwise(ys[..|ys| - 1], xs[..|xs| - 1], val, direct);
      assert val(ys[|ys| - 1]) == direct(xs[|xs| - 1]);
    }
  }

  /** The rows of group `k`, in their original order. */
  function Where<T(!new), K(==,!new)>(xs: seq<T>, key: T -> K, k: K): (r: seq<T>)
    ensures |r| <= |xs|
  {
    if |xs| == 0 then []
    else
      var prefix := xs[..|xs| - 1];
      var x := xs[|xs| - 1];
      assert xs == prefix + [x];
      if key(x) == k then Where(prefix, key, k) + [x] else Where(prefix, key, k)
  }

  /** A row is in group `k` exactly when it is a row of `xs` labelled `k`. */
  lemma {:induction false} WhereMember<T(!new), K(!new)>(xs: seq<T>, key: T -> K, k: K, x: T)
    ensures x in Where(xs, key, k) <==> x in xs && key(x) == k
  {
    if |xs| > 0 {
      var prefix := xs[..|xs| - 1];
      assert xs == prefix + [xs[|xs| - 1]];
      WhereMember(prefix, key, k, x);
    }
  }

  lemma WhereSnoc<T(!new), K(!new)>(xs: seq<T>, x: T, key: T -> K, k: K)
    ensures Where(xs + [x], key, k) == Where(xs, key, k) + (if key(x) == k then [x] else [])
  {
    assert (xs + [x])[..|xs|] == xs;
  }

  /** The group labels that occur in `xs`. */
  function KeysOf<T, K(==)>(xs: seq<T>, key: T -> K): set<K> {
    if |xs| == 0 then {} else KeysOf(xs[..|xs| - 1], key) + {key(xs[|xs| - 1])}
  }

  /** A label occurs exactly when its group is not empty. */
  lemma {:induction false} KeysOfWhere<T(!new), K(!new)>(xs: seq<T>, key: T -> K, k: K)
    ensures k in KeysOf(xs, key) <==> |Where(xs, key, k)| > 0
  {
    if |xs| > 0 {
      var prefix := xs[..|xs| - 1];
      var x := xs[|xs| - 1];
      assert xs == prefix + [x];
      KeysOfWhere(prefix, key, k);
      WhereSnoc(prefix, x, key, k);
    }
  }

  /** `xs.reduce((acc, x) => { acc[key(x)] = (acc[key(x)] || 0) + val(x); return acc }, {})`. */
  function GroupSum<T, K(==)>(xs: seq<T>, key: T -> K, val: T -> int): (r: map<K, int>)
    ensures r.Keys == KeysOf(xs, key)
  {
    if |xs| == 0 then map[]
    else
      var acc := GroupSum(xs[..|xs| - 1], key, val);
      var k := key(xs[|xs| - 1]);
      acc[k := (if k in acc then acc[k] else 0) + val(xs[|xs| - 1])]
  }

  /** Each entry of the grouping is the sum over its group. */
  lemma {:induction false} GroupSumEntry<T(!new), K(!new)>(xs: seq<T>, key: T -> K, val: T -> int, k: K)
    requires k in GroupSum(xs, key, val)
    ensures GroupSum(xs, key, val)[k] == Sum(Where(xs, key, k), val)
  {
    var prefix := xs[..|xs| - 1];
    if k in GroupSum(prefix, key, val) {
      GroupSumEntry(prefix, key, val, k);
    } else {
      KeysOfWhere(prefix, key, k);
    }
    GroupEntryStep(xs, key, val, k);
  }

  /** The last row adds its value to its own group's sum and to no other. */
  lemma GroupEntryStep<T(!new), K(!new)>(xs: seq<T>, key: T -> K, val: T -> int, k: K)
    requires |xs| > 0
    ensures Sum(Where(xs, key, k), val)
         == Sum(Where(xs[..|xs| - 1], key, k), val) + (if key(xs[|xs| - 1]) == k then val(xs[|xs| - 1]) else 0)
  {
    if key(xs[|xs| - 1]) == k {
      SumSnoc(Where(xs[..|xs| - 1], key, k), xs[|xs| - 1], val);
    }
  }

  /** Some key of a non-empty map. */
  ghost function Pick<K>(m: map<K, int>): (k: K)
    requires |m| > 0
    ensures k in m
  {
    var k :| k in m; k
  }

  lemma RemoveOne<K>(m: map<K, int>, k: K)
    requires k in m
    ensures |m - {k}| == |m| - 1
  {
    assert (m - {k}).Keys == m.Keys - {k};
  }

  /** The sum of the values of a map. */
  ghost function MapSum<K>(m: map<K, int>): int
    decreases |m|
  {
    if |m| == 0 then 0
    else
      var k := Pick(m);
      RemoveOne(m, k);
      m[k] + MapSum(m - {k})
  }

  /** The sum does not depend on which key is taken out first. */
  lemma {:induction false} MapSumRemove<K>(m: map<K, int>, k: K)
    requires k in m
    ensures MapSum(m) == m[k] + MapSum(m - {k})
    decreases |m|
  {
    var j := Pick(m);
    if j != k {
      RemoveOne(m, j);
      RemoveOne(m, k);
      MapSumRemove(m - {j}, k);
      MapSumRemove(m - {k}, j);
      assert m - {j} - {k} == m - {k} - {j};
    }
  }

  lemma MapSumUpdate<K>(m: map<K, int>, k: K, v: int)
    ensures MapSum(m[k := v]) == MapSum(m) - (if k in m then m[k] else 0) + v
  {
    var rest := m - {k};
    MapSumUpdated(m, k, v);
    if k in m {
      MapSumRemove(m, k);
    } else {
      assert rest == m;
    }
  }

  /** The updated map sums to `v` plus what the others hold. */
  lemma MapSumUpdated<K>(m: map<K, int>, k: K, v: int)
    ensures MapSum(m[k := v]) == v + MapSum(m - {k})
  {
    var m' := m[k := v];
    MapSumRemove(m', k);
    assert (m' - {k}).Keys == (m - {k}).Keys;
    assert m' - {k} == m - {k};
  }

  /** Group sums add up to the grand total. */
  lemma {:induction false} GroupSumConserves<T(!new), K(!new)>(xs: seq<T>, key: T -> K, val: T -> int)
    ensures MapSum(GroupSum(xs, key, val)) == Sum(xs, val)
  {
    if |xs| > 0 {
      var prefix := xs[..|xs| - 1];
      var x := xs[|xs| - 1];
      GroupSumConserves(prefix, key, val);
      var acc := GroupSum(prefix, key, val);
      var k := key(x);
      var v := (if k in acc then acc[k] else 0) + val(x);
      assert GroupSum(xs, key, val) == acc[k := v];
      MapSumUpdate(acc, k, v);
      assert Sum(xs, val) == Sum(prefix, val) + val(x);
    }
  }

  /** Any map holding exactly the group sums of `xs` adds up to the total of `xs`. */
  lemma GroupTotals<T(!new), K(!new)>(m: map<K, int>, xs: seq<T>, key: T -> K, val: T -> int)
    requires m.Keys == KeysOf(xs, key)
    requires forall k :: k in m ==> m[k] == Sum(Where(xs, key, k), val)
    ensures MapSum(m) == Sum(xs, val)
  {
    var g := GroupSum(xs, key, val);
    forall k | k in m
      ensures m[k] == g[k]
    {
      GroupSumEntry(xs, key, val, k);
    }
    assert m == g;
    GroupSumConserves(xs, key, val);
  }

  /** No element occurs twice. */
  predicate Distinct<K(==,!new)>(ks: seq<K>) {
    forall i, j :: 0 <= i < j < |ks| ==> ks[i] != ks[j]
  }

  /** The group labels of `xs`, each once, in order of first appearance. */
  function DistinctKeys<T(!new), K(==,!new)>(xs: seq<T>, key: T -> K): (r: seq<K>)
    ensures Distinct(r)
    ensures forall k :: k in r <==> k in KeysOf(xs, key)
    ensures |r| == |KeysOf(xs, key)|
  {
    if |xs| == 0 then []
    else
      var prefix := xs[..|xs| - 1];
      var x := xs[|xs| - 1];
      var seen := DistinctKeys(prefix, key);
      if key(x) in seen then
        assert KeysOf(xs, key) == KeysOf(prefix, key);
        seen
      else
        assert KeysOf(xs, key) == KeysOf(prefix, key) + {key(x)};
        seen + [key(x)]
  }

  /** The sum, over the labels `keys`, of each label's group total. */
  function SumByKeys<T(!new), K(==,!new)>(keys: seq<K>, xs: seq<T>, key: T -> K, val: T -> int): int {
    if |keys| == 0 then 0
    else SumByKeys(keys[..|keys| - 1], xs, key, val) + Sum(Where(xs, key, keys[|keys| - 1]), val)
  }

  /** One more row adds its value to the one group among `keys` it belongs to. */
  lemma {:induction false} SumByKeysSnoc<T(!new), K(!new)>(keys: seq<K>, xs: seq<T>, x: T, key: T -> K, val: T -> int)
    requires Distinct(keys)
    ensures SumByKeys(keys, xs + [x], key, val)
         == SumByKeys(keys, xs, key, val) + (if key(x) in keys then val(x) else 0)
  {
    if |keys| > 0 {
      var front := keys[..|keys| - 1];
      var last := keys[|keys| - 1];
      assert keys == front + [last];
      SumByKeysSnoc(front, xs, x, key, val);
      WhereSnoc(xs, x, key, last);
      if key(x) == last {
        SumSnoc(Where(xs, key, last), x, val);
        assert key(x) !in front;
      }
    }
  }

  /** Totals over distinct labels covering every row add up to the grand total. */
  lemma {:induction false} SumByKeysConserves<T(!new), K(!new)>(keys: seq<K>, xs: seq<T>, key: T -> K, val: T -> int)
    requires Distinct(keys)
    requires forall i :: 0 <= i < |xs| ==> key(xs[i]) in keys
    ensures SumByKeys(keys, xs, key, val) == Sum(xs, val)
  {
    if |xs| == 0 {
      SumByKeysEmpty(keys, key, val);
    } else {
      var prefix := xs[..|xs| - 1];
      var x := xs[|xs| - 1];
      assert xs == prefix + [x];
      SumByKeysConserves(keys, prefix, key, val);
      SumByKeysSnoc(keys, prefix, x, key, val);
    }
  }

  lemma {:induction false} SumByKeysEmpty<T(!new), K(!new)>(keys: seq<K>, key: T -> K, val: T -> int)
    ensures SumByKeys(keys, [], key, val) == 0
  {
    if |keys| > 0 {
      SumByKeysEmpty(keys[..|keys| - 1], key, val);
    }
  }

  /** In a sequence without repeats every element occurs at most once. */
  lemma {:induction false} DistinctCount<A(!new)>(xs: seq<A>, x: A)
    requires Distinct(xs)
    ensures multiset(xs)[x] <= 1
  {
    if |xs| > 0 {
      var prefix := xs[..|xs| - 1];
      assert xs == prefix + [xs[|xs| - 1]];
      DistinctCount(prefix, x);
      if x == xs[|xs| - 1] {
        assert x !in prefix;
      }
    }
  }

  /** An element found at two positions occurs at least twice. */
  lemma RepeatCount<A(!new)>(xs: seq<A>, i: nat, j: nat)
    requires i < j < |xs| && xs[i] == xs[j]
    ensures multiset(xs)[xs[i]] >= 2
  {
    assert xs == xs[..j] + [xs[j]] + xs[j + 1..];
    assert xs[i] in xs[..j];
  }

  /** Taking one group out of a sequence without repeats has no repeats. */
  lemma {:induction false} WhereDistinct<T(!new), K(!new)>(xs: seq<T>, key: T -> K, k: K)
    requires Distinct(xs)
    ensures Distinct(Where(xs, key, k))
  {
    if |xs| > 0 {
      var prefix := xs[..|xs| - 1];
      var x := xs[|xs| - 1];
      assert xs == prefix + [x];
      WhereDistinct(prefix, key, k);
      WhereSnoc(prefix, x, key, k);
      var w := Where(prefix, key, k);
      forall i | 0 <= i < |w|
        ensures w[i] != x
      {
        assert w[i] in w;
        WhereMember(prefix, key, k, w[i]);
        assert x !in prefix;
      }
    }
  }
}
