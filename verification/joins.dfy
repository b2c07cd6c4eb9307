/** The `include` joins of the report queries: the rows each report folds,
    read from the store. A row whose joined record is missing carries an
    absent value, as a left outer join does. Rows come in ascending id
    order, since the queries that feed the sums ask for no other. */
module Joins {
  import opened Common
  import opened Tables
  import opened Sorting
  import opened Models
  import opened Store
  import opened Reports
  import Cars
  import Records

  /** `ServiceRecord.Service.name`, absent when the record or its service
      is missing. */
  function ServiceNameOf(s: Store, rid: nat): (r: Option<string>)
    ensures r.Some? <==> rid in s.records.rows && s.records.rows[rid].serviceId in s.services.rows
  {
    if rid in s.records.rows && s.records.rows[rid].serviceId in s.services.rows
    then Some(s.services.rows[s.records.rows[rid].serviceId].name)
    else None
  }

  function JoinPayment(s: Store, p: Payment): PaymentRow {
    PaymentRow(p.amount, p.paymentMethod, p.createdAt, ServiceNameOf(s, p.serviceRecordId))
  }

  /** The rows of the revenue query: one per payment. */
  function PaymentRows(s: Store): (r: seq<PaymentRow>)
    requires Valid(s)
    ensures |r| == |s.payments.rows|
    ensures forall id :: id in s.payments.rows ==> JoinPayment(s, s.payments.rows[id]) in r
    ensures forall i :: 0 <= i < |r| ==> r[i] == JoinPayment(s, Rows(s.payments)[i].1)
  {
    var rows := Rows(s.payments);
    var join := (row: (nat, Payment)) => JoinPayment(s, row.1);
    forall id | id in s.payments.rows
      ensures JoinPayment(s, s.payments.rows[id]) in Folds.MapSeq(rows, join)
    {
      Folds.MapSeqMember(rows, join, (id, s.payments.rows[id]));
    }
    Folds.MapSeq(rows, join)
  }

  /** What one stored payment contributes. */
  function StoredAmount(row: (nat, Payment)): int { row.1.amount }

  /** Without a date window, the total revenue is the sum of the amounts of
      the stored payments, each counted once. */
  lemma RevenueOfStore(s: Store)
    requires Valid(s)
    ensures Revenue(PaymentRows(s), None, None).totalRevenue == Folds.Sum(Rows(s.payments), StoredAmount)
  {
    WindowOpen(PaymentRows(s), PaidAt, None, None);
    Folds.SumPointwise(PaymentRows(s), Rows(s.payments), AmountOf, StoredAmount);
  }

  /** After a service record is deleted, the payments that named it stay
      in the revenue report, filed under "Unknown". */
  lemma OrphanedPaymentsAreUnknown(s: Store, rid: nat, pid: nat)
    requires Valid(s) && rid in s.records.rows
    requires pid in s.payments.rows && s.payments.rows[pid].serviceRecordId == rid
    ensures var s' := Records.DeleteServiceRecord(s, rid).value;
            var row := JoinPayment(s', s.payments.rows[pid]);
            row in PaymentRows(s') && PaymentLabel(row) == Unknown
  {
  }

  function JoinRecord(s: Store, id: nat, rec: ServiceRecord): RecordRow {
    RecordRow(id, rec.status, rec.cost, rec.startDate, rec.endDate, rec.createdAt, ServiceNameOf(s, id))
  }

  /** The rows of the performance query: one per service record. */
  function RecordRows(s: Store): (r: seq<RecordRow>)
    requires Valid(s)
    ensures |r| == |s.records.rows|
    ensures forall id :: id in s.records.rows ==> JoinRecord(s, id, s.records.rows[id]) in r
    ensures forall i :: 0 <= i < |r| ==> r[i] == JoinRecord(s, Rows(s.records)[i].0, Rows(s.records)[i].1)
  {
    var rows := Rows(s.records);
    var join := (row: (nat, ServiceRecord)) => JoinRecord(s, row.0, row.1);
    forall id | id in s.records.rows
      ensures JoinRecord(s, id, s.records.rows[id]) in Folds.MapSeq(rows, join)
    {
      Folds.MapSeqMember(rows, join, (id, s.records.rows[id]));
    }
    Folds.MapSeq(rows, join)
  }

  function PartRowOf(p: Part): PartRow {
    PartRow(p.name, p.quantity, p.cost)
  }

  /** The rows the inventory query groups: one per part, and nothing else. */
  function PartRows(t: Table<Part>): (r: seq<PartRow>)
    requires WellFormed(t)
    ensures |r| == |t.rows|
    ensures forall id :: id in t.rows ==> PartRowOf(t.rows[id]) in r
    ensures forall i :: 0 <= i < |r| ==> r[i] == PartRowOf(Rows(t)[i].1)
  {
    var rows := Rows(t);
    var join := (row: (nat, Part)) => PartRowOf(row.1);
    forall id | id in t.rows
      ensures PartRowOf(t.rows[id]) in Folds.MapSeq(rows, join)
    {
      Folds.MapSeqMember(rows, join, (id, t.rows[id]));
    }
    Folds.MapSeq(rows, join)
  }

  /** What one stored part costs: quantity times unit cost. */
  function StoredLineCost(row: (nat, Part)): int { row.1.quantity * row.1.cost }

  /** The inventory's total cost is the sum over the stored parts, each
      counted once. */
  lemma InventoryOfStore(t: Table<Part>)
    requires WellFormed(t)
    ensures Inventory(PartRows(t)).totalPartsCost == Folds.Sum(Rows(t), StoredLineCost)
  {
    Folds.SumPointwise(PartRows(t), Rows(t), LineCost, StoredLineCost);
  }

  /** Every row comes from a part of the table. */
  lemma PartRowsFromParts(t: Table<Part>, i: nat)
    requires WellFormed(t) && i < |PartRows(t)|
    ensures exists id :: id in t.rows && PartRows(t)[i] == PartRowOf(t.rows[id])
  {
    var rows := Rows(t);
    assert PartRows(t)[i] == PartRowOf(rows[i].1);
    assert rows[i].0 in t.rows;
  }

  /** With every part valid, the inventory's total cost is not negative.
      The handlers as written can store invalid parts, so this holds of the
      stores the validated handlers produce. */
  lemma InventoryNonNegative(s: Store)
    requires Valid(s) && PartsValid(s.parts.rows)
    ensures Inventory(PartRows(s.parts)).totalPartsCost >= 0
  {
    var rows := PartRows(s.parts);
    forall i | 0 <= i < |rows|
      ensures LineCost(rows[i]) >= 0
    {
      PartRowsFromParts(s.parts, i);
      var id :| id in s.parts.rows && rows[i] == PartRowOf(s.parts.rows[id]);
      assert PartValid(s.parts.rows[id]);
      LineCostNonNegative(rows[i]);
    }
    SumNonNegative(rows);
  }

  lemma LineCostNonNegative(p: PartRow)
    requires p.quantity >= 1 && p.cost >= 0
    ensures LineCost(p) >= 0
  {
  }

  lemma {:induction false} SumNonNegative(xs: seq<PartRow>)
    requires forall i :: 0 <= i < |xs| ==> LineCost(xs[i]) >= 0
    ensures Folds.Sum(xs, LineCost) >= 0
  {
    if |xs| > 0 {
      SumNonNegative(xs[..|xs| - 1]);
    }
  }

  function CarInfoOf(s: Store, carId: nat): (r: Option<CarInfo>)
    ensures r.Some? <==> carId in s.cars.rows
  {
    if carId in s.cars.rows
    then Some(CarInfo(s.cars.rows[carId].make, s.cars.rows[carId].model, s.cars.rows[carId].licensePlate))
    else None
  }

  /** `record.Payments`: the amounts of the payments naming record `rid`. */
  function PaymentAmounts(s: Store, rid: nat): seq<int>
    requires Valid(s)
  {
    Folds.MapSeq(Folds.Where(Rows(s.payments), PaidTowards, rid), (row: (nat, Payment)) => row.1.amount)
  }

  function PaidTowards(row: (nat, Payment)): nat { row.1.serviceRecordId }

  function JoinHistory(s: Store, id: nat, rec: ServiceRecord): HistoryRow
    requires Valid(s)
  {
    HistoryRow(id, rec.carId, rec.createdAt, CarInfoOf(s, rec.carId), PaymentAmounts(s, id))
  }

  /** The rows of the customer history query: one per service record. */
  function HistoryRows(s: Store): (r: seq<HistoryRow>)
    requires Valid(s)
    ensures |r| == |s.records.rows|
    ensures forall id :: id in s.records.rows ==> JoinHistory(s, id, s.records.rows[id]) in r
    ensures forall i :: 0 <= i < |r| ==> r[i] == JoinHistory(s, Rows(s.records)[i].0, Rows(s.records)[i].1)
  {
    var rows := Rows(s.records);
    var join := (row: (nat, ServiceRecord)) => JoinHistory(s, row.0, row.1);
    forall id | id in s.records.rows
      ensures JoinHistory(s, id, s.records.rows[id]) in Folds.MapSeq(rows, join)
    {
      Folds.MapSeqMember(rows, join, (id, s.records.rows[id]));
    }
    Folds.MapSeq(rows, join)
  }

  /** Deleting a car that still has service records makes the unfiltered
      customer history fail: building the key of such a record throws. */
  lemma DeletedCarBreaksHistory(s: Store, carId: nat, rid: nat)
    requires Valid(s) && carId in s.cars.rows
    requires rid in s.records.rows && s.records.rows[rid].carId == carId
    ensures var s' := Cars.DeleteCar(s, carId).value;
            CustomerHistory(HistoryRows(s'), None) == Err(ServerError)
  {
    var s' := Cars.DeleteCar(s, carId).value;
    var x := JoinHistory(s', rid, s'.records.rows[rid]);
    assert x in HistoryRows(s');
    SortKeepsElements(HistoryRows(s'), NewerRow);
    assert x in Selected(HistoryRows(s'), None);
  }
}
