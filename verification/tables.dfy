/** An auto-increment table: rows keyed by integer id, the next id to hand
    out, and the row listing a query without an `order` clause returns. */
module Tables {
  import opened Folds
  import opened Sorting

  datatype Table<T> = Table(rows: map<nat, T>, nextId: nat)

  /** A fresh table; auto-increment ids start at 1. */
  function Empty<T>(): Table<T> {
    Table(map[], 1)
  }

  /** Every id in use was handed out before `nextId`, and none is 0. */
  ghost predicate WellFormed<T>(t: Table<T>) {
    && 1 <= t.nextId
    && forall id :: id in t.rows ==> 1 <= id < t.nextId
  }

  /** An INSERT: the row gets the next auto-increment id. */
  function Insert<T>(t: Table<T>, row: T): (r: (Table<T>, nat))
    requires WellFormed(t)
    ensures WellFormed(r.0)
    ensures r.1 !in t.rows && r.1 != 0
    ensures r.0.rows == t.rows[r.1 := row]
    ensures r.1 == t.nextId && r.0.nextId == t.nextId + 1
  {
    (Table(t.rows[t.nextId := row], t.nextId + 1), t.nextId)
  }

  /** The id the `k`-th row of a bulk insert starting at `base` gets. */
  function Slot(base: nat, k: nat): nat {
    base + k
  }

  /** A bulk INSERT: the rows get consecutive fresh ids in list order
      (`InsertAllAt` says which row lands on which `Slot`). */
  function InsertAll<T>(t: Table<T>, rows: seq<T>): (r: Table<T>)
    requires WellFormed(t)
    ensures WellFormed(r)
    ensures r.nextId == t.nextId + |rows|
    ensures forall id :: id in t.rows ==> id in r.rows && r.rows[id] == t.rows[id]
    ensures forall id :: id in r.rows ==> id in t.rows || t.nextId <= id
    decreases |rows|
  {
    if |rows| == 0 then t
    else InsertAll(Insert(t, rows[0]).0, rows[1..])
  }

  /** The `k`-th row of a bulk insert gets the id `Slot(nextId, k)`. */
  lemma {:induction false} InsertAllAt<T>(t: Table<T>, rows: seq<T>, k: nat)
    requires WellFormed(t) && k < |rows|
    ensures Slot(t.nextId, k) in InsertAll(t, rows).rows
    ensures InsertAll(t, rows).rows[Slot(t.nextId, k)] == rows[k]
    decreases k
  {
    var t' := Insert(t, rows[0]).0;
    if k == 0 {
      assert t.nextId in t'.rows && t'.rows[t.nextId] == rows[0];
    } else {
      InsertAllAt(t', rows[1..], k - 1);
      assert Slot(t'.nextId, k - 1) == Slot(t.nextId, k);
      assert rows[1..][k - 1] == rows[k];
    }
  }

  /** A DELETE of one row by id. */
  function Remove<T>(t: Table<T>, id: nat): (r: Table<T>)
    requires WellFormed(t)
    ensures WellFormed(r)
    ensures id !in r.rows
    ensures forall j :: j != id ==> (j in r.rows <==> j in t.rows)
    ensures forall j :: j in r.rows ==> r.rows[j] == t.rows[j]
  {
    Table(t.rows - {id}, t.nextId)
  }

  /** The rows whose id is below `n`, in ascending id order. */
  function RowsBelow<T>(m: map<nat, T>, n: nat): (r: seq<(nat, T)>)
    ensures forall i :: 0 <= i < |r| ==> r[i].0 < n && r[i].0 in m && r[i].1 == m[r[i].0]
    ensures forall id :: id in m && id < n ==> (id, m[id]) in r
    ensures forall i, j :: 0 <= i < j < |r| ==> r[i].0 < r[j].0
  {
    if n == 0 then []
    else if n - 1 in m then RowsBelow(m, n - 1) + [(n - 1, m[n - 1])]
    else RowsBelow(m, n - 1)
  }

  /** The ids of `m` below `n`. */
  function IdsBelow<T>(m: map<nat, T>, n: nat): set<nat> {
    set id | id in m && id < n
  }

  /** The listing holds one row per id below `n`. */
  lemma {:induction false} RowsBelowCount<T>(m: map<nat, T>, n: nat)
    ensures |RowsBelow(m, n)| == |IdsBelow(m, n)|
  {
    if n == 0 {
      assert IdsBelow(m, n) == {};
    } else {
      RowsBelowCount(m, n - 1);
      if n - 1 in m {
        assert IdsBelow(m, n) == IdsBelow(m, n - 1) + {n - 1};
      } else {
        assert IdsBelow(m, n) == IdsBelow(m, n - 1);
      }
    }
  }

  /** Every row of the table exactly once, in ascending id (insertion) order. */
  function Rows<T>(t: Table<T>): (r: seq<(nat, T)>)
    requires WellFormed(t)
    ensures forall i :: 0 <= i < |r| ==> r[i].0 in t.rows && r[i].1 == t.rows[r[i].0]
    ensures forall id :: id in t.rows ==> (id, t.rows[id]) in r
    ensures forall i, j :: 0 <= i < j < |r| ==> r[i].0 < r[j].0
    ensures |r| == |t.rows|
  {
    RowsBelowCount(t.rows, t.nextId);
    assert IdsBelow(t.rows, t.nextId) == t.rows.Keys;
    RowsBelow(t.rows, t.nextId)
  }

  /** `r` lists every row of `m` exactly once and nothing else. */
  ghost predicate Lists<T>(r: seq<(nat, T)>, m: map<nat, T>) {
    && |r| == |m|
    && (forall i, j :: 0 <= i < j < |r| ==> r[i].0 != r[j].0)
    && (forall i :: 0 <= i < |r| ==> r[i].0 in m && r[i].1 == m[r[i].0])
    && (forall id :: id in m ==> (id, m[id]) in r)
  }

  /** A `findAll` with an `order` clause: every row once, sorted by `before`. */
  function Listing<T(!new)>(t: Table<T>, before: ((nat, T), (nat, T)) -> bool): (r: seq<(nat, T)>)
    requires WellFormed(t)
    requires TotalPreorder(before)
    ensures Lists(r, t.rows)
    ensures Sorted(r, before)
  {
    var rows := Rows(t);
    var r := Sort(rows, before);
    SortKeepsElements(rows, before);
    forall i | 0 <= i < |r|
      ensures r[i].0 in t.rows && r[i].1 == t.rows[r[i].0]
    {
      assert r[i] in rows;
      var k :| 0 <= k < |rows| && rows[k] == r[i];
    }
    forall i, j | 0 <= i < j < |r|
      ensures r[i].0 != r[j].0
    {
      if r[i].0 == r[j].0 {
        RepeatCount(r, i, j);
        assert Distinct(rows);
        DistinctCount(rows, r[i]);
        assert false;
      }
    }
    r
  }

  /** Ascending id, the order in which rows were inserted. */
  predicate ById<T>(a: (nat, T), b: (nat, T)) {
    a.0 <= b.0
  }

  /** The rows of the table that `key` labels `k`, each once, sorted by `before`. */
  function ListingWhere<T(!new), K(==,!new)>(t: Table<T>, key: ((nat, T)) -> K, k: K,
                                             before: ((nat, T), (nat, T)) -> bool): (r: seq<(nat, T)>)
    requires WellFormed(t)
    requires TotalPreorder(before)
    ensures forall row :: row in r <==> row.0 in t.rows && row.1 == t.rows[row.0] && key(row) == k
    ensures forall i, j :: 0 <= i < j < |r| ==> r[i].0 != r[j].0
    ensures Sorted(r, before)
  {
    var r := Sort(Where(Rows(t), key, k), before);
    ListingWhereMembers(t, key, k, before);
    ListingWhereDistinct(t, key, k, before, r);
    r
  }

  lemma ListingWhereMembers<T(!new), K(!new)>(t: Table<T>, key: ((nat, T)) -> K, k: K,
                                              before: ((nat, T), (nat, T)) -> bool)
    requires WellFormed(t)
    requires TotalPreorder(before)
    ensures forall row :: row in Sort(Where(Rows(t), key, k), before)
                          <==> row.0 in t.rows && row.1 == t.rows[row.0] && key(row) == k
  {
    var all := Rows(t);
    SortKeepsElements(Where(all, key, k), before);
    forall row
      ensures row in Where(all, key, k) <==> row.0 in t.rows && row.1 == t.rows[row.0] && key(row) == k
    {
      WhereMember(all, key, k, row);
    }
  }

  lemma ListingWhereDistinct<T(!new), K(!new)>(t: Table<T>, key: ((nat, T)) -> K, k: K,
                                               before: ((nat, T), (nat, T)) -> bool, r: seq<(nat, T)>)
    requires WellFormed(t)
    requires TotalPreorder(before)
    requires r == Sort(Where(Rows(t), key, k), before)
    ensures forall i, j :: 0 <= i < j < |r| ==> r[i].0 != r[j].0
  {
    var all := Rows(t);
    var mine := Where(all, key, k);
    ListingWhereMembers(t, key, k, before);
    assert Distinct(all);
    WhereDistinct(all, key, k);
    forall i, j | 0 <= i < j < |r|
      ensures r[i].0 != r[j].0
    {
      if r[i].0 == r[j].0 {
        assert r[i] in r && r[j] in r;
        RepeatCount(r, i, j);
        DistinctCount(mine, r[i]);
        assert false;
      }
    }
  }
}
