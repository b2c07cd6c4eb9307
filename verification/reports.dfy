/** The four reports, as folds over the joined rows their queries return.
    Each grouping is accumulated left to right the way the controller's
    `reduce` does, and is then related to an independent description: the
    sum or count over the rows of one group. */
module Reports {
  import opened Common
  import opened Folds
  import opened Sorting
  import opened Models

  /** The date filter of the revenue and performance reports. It applies
      only when both bounds are given and then keeps `start <= stamp <= end`
      (`Op.between` is inclusive at both ends). */
  predicate InWindow(stamp: int, start: Option<int>, end: Option<int>) {
    start.Some? && end.Some? ==> start.value <= stamp <= end.value
  }

  /** The rows inside the date window, in their original order. */
  function Window<T(!new)>(xs: seq<T>, stamp: T -> int, start: Option<int>, end: Option<int>): (r: seq<T>)
    ensures |r| <= |xs|
  {
    if |xs| == 0 then []
    else if InWindow(stamp(xs[|xs| - 1]), start, end) then Window(xs[..|xs| - 1], stamp, start, end) + [xs[|xs| - 1]]
    else Window(xs[..|xs| - 1], stamp, start, end)
  }

  /** A row in the window is kept as many times as it occurs, and any
      other row not at all. */
  lemma {:induction false} WindowCount<T(!new)>(xs: seq<T>, stamp: T -> int, start: Option<int>, end: Option<int>)
    ensures forall x :: multiset(Window(xs, stamp, start, end))[x] == if InWindow(stamp(x), start, end) then multiset(xs)[x] else 0
  {
    if |xs| > 0 {
      var prefix := xs[..|xs| - 1];
      var last := xs[|xs| - 1];
      WindowCount(prefix, stamp, start, end);
      assert xs == prefix + [last];
      assert multiset(xs) == multiset(prefix) + multiset{last};
    }
  }

  /** A row is kept exactly when it lies in the window. */
  lemma {:induction false} WindowMember<T(!new)>(xs: seq<T>, stamp: T -> int, start: Option<int>, end: Option<int>, x: T)
    ensures x in Window(xs, stamp, start, end) <==> x in xs && InWindow(stamp(x), start, end)
  {
    if |xs| > 0 {
      assert xs == xs[..|xs| - 1] + [xs[|xs| - 1]];
      WindowMember(xs[..|xs| - 1], stamp, start, end, x);
    }
  }

  /** Without both bounds nothing is filtered out. */
  lemma {:induction false} WindowOpen<T(!new)>(xs: seq<T>, stamp: T -> int, start: Option<int>, end: Option<int>)
    requires start.None? || end.None?
    ensures Window(xs, stamp, start, end) == xs
  {
    if |xs| > 0 {
      WindowOpen(xs[..|xs| - 1], stamp, start, end);
      assert xs == xs[..|xs| - 1] + [xs[|xs| - 1]];
    }
  }

  const Unknown: string := "Unknown"

  /** One payment row of the revenue query; `serviceName` is absent when the
      payment's service record or that record's service is missing. */
  datatype PaymentRow = PaymentRow(amount: int, paymentMethod: PaymentMethod, createdAt: int, serviceName: Option<string>)

  function AmountOf(p: PaymentRow): int { p.amount }
  function MethodOf(p: PaymentRow): PaymentMethod { p.paymentMethod }
  function PaidAt(p: PaymentRow): int { p.createdAt }

  /** `payment.ServiceRecord?.Service?.name || 'Unknown'`. */
  function PaymentLabel(p: PaymentRow): string {
    OrStr(p.serviceName, Unknown)
  }

  datatype RevenueReport = RevenueReport(
    totalRevenue: int,
    revenueByMethod: map<PaymentMethod, int>,
    revenueByService: map<string, int>,
    payments: seq<PaymentRow>)

  /** GET /api/reports/revenue. */
  function Revenue(rows: seq<PaymentRow>, start: Option<int>, end: Option<int>): (r: RevenueReport)
    ensures forall p :: p in r.payments <==> p in rows && InWindow(p.createdAt, start, end)
    ensures forall p :: multiset(r.payments)[p] == if InWindow(p.createdAt, start, end) then multiset(rows)[p] else 0
    ensures r.totalRevenue == Sum(r.payments, AmountOf)
    ensures r.revenueByMethod.Keys == KeysOf(r.payments, MethodOf)
    ensures forall m :: m in r.revenueByMethod ==> r.revenueByMethod[m] == Sum(Where(r.payments, MethodOf, m), AmountOf)
    ensures r.revenueByService.Keys == KeysOf(r.payments, PaymentLabel)
    ensures forall n :: n in r.revenueByService ==> r.revenueByService[n] == Sum(Where(r.payments, PaymentLabel, n), AmountOf)
  {
    var ps := Window(rows, PaidAt, start, end);
    WindowCount(rows, PaidAt, start, end);
    forall p
      ensures p in ps <==> p in rows && InWindow(p.createdAt, start, end)
    {
      WindowMember(rows, PaidAt, start, end, p);
    }
    forall m | m in GroupSum(ps, MethodOf, AmountOf)
      ensures GroupSum(ps, MethodOf, AmountOf)[m] == Sum(Where(ps, MethodOf, m), AmountOf)
    {
      GroupSumEntry(ps, MethodOf, AmountOf, m);
    }
    forall n | n in GroupSum(ps, PaymentLabel, AmountOf)
      ensures GroupSum(ps, PaymentLabel, AmountOf)[n] == Sum(Where(ps, PaymentLabel, n), AmountOf)
    {
      GroupSumEntry(ps, PaymentLabel, AmountOf, n);
    }
    RevenueReport(Sum(ps, AmountOf), GroupSum(ps, MethodOf, AmountOf), GroupSum(ps, PaymentLabel, AmountOf), ps)
  }

  /** Both groupings of the revenue add up to the total revenue. */
  lemma RevenueConserved(rows: seq<PaymentRow>, start: Option<int>, end: Option<int>)
    ensures var r := Revenue(rows, start, end);
            MapSum(r.revenueByMethod) == r.totalRevenue && MapSum(r.revenueByService) == r.totalRevenue
  {
    var r := Revenue(rows, start, end);
    GroupTotals(r.revenueByMethod, r.payments, MethodOf, AmountOf);
    GroupTotals(r.revenueByService, r.payments, PaymentLabel, AmountOf);
  }

  /** A payment whose record or service is missing is counted under
      "Unknown", and a method is a key exactly when some payment uses it. */
  lemma RevenueKeys(rows: seq<PaymentRow>, start: Option<int>, end: Option<int>, m: PaymentMethod, p: PaymentRow)
    requires p in Revenue(rows, start, end).payments
    ensures p.serviceName.None? ==> Unknown in Revenue(rows, start, end).revenueByService
    ensures var r := Revenue(rows, start, end);
            m in r.revenueByMethod <==> exists q :: q in r.payments && q.paymentMethod == m
  {
    var r := Revenue(rows, start, end);
    KeysOfWhere(r.payments, PaymentLabel, PaymentLabel(p));
    WhereMember(r.payments, PaymentLabel, PaymentLabel(p), p);
    KeysOfWhere(r.payments, MethodOf, m);
    if m in r.revenueByMethod {
      var w := Where(r.payments, MethodOf, m);
      assert w[0] in w;
      WhereMember(r.payments, MethodOf, m, w[0]);
    } else if exists q :: q in r.payments && q.paymentMethod == m {
      var q :| q in r.payments && q.paymentMethod == m;
      WhereMember(r.payments, MethodOf, m, q);
    }
  }

  /** With no payments the revenue is 0 and both groupings are empty. */
  lemma RevenueOfNothing(start: Option<int>, end: Option<int>)
    ensures Revenue([], start, end) == RevenueReport(0, map[], map[], [])
  {
  }

  /** One service record row of the performance query. */
  datatype RecordRow = RecordRow(
    id: nat,
    status: RecordStatus,
    cost: int,
    startDate: int,
    endDate: Option<int>,
    createdAt: int,
    serviceName: Option<string>)

  function CostOf(r: RecordRow): int { r.cost }
  function RecordedAt(r: RecordRow): int { r.createdAt }
  function One<T>(x: T): int { 1 }
  function CompletedOne(r: RecordRow): int { if r.status == Completed then 1 else 0 }

  /** `record.Service?.name || 'Unknown'`. */
  function RecordLabel(r: RecordRow): string {
    OrStr(r.serviceName, Unknown)
  }

  /** The counters of one service while the records are being folded. */
  datatype Tally = Tally(totalServices: int, totalCost: int, completedServices: int)

  function Bump(t: Tally, r: RecordRow): Tally {
    Tally(t.totalServices + 1, t.totalCost + r.cost, t.completedServices + CompletedOne(r))
  }

  /** The first pass of the performance report: one tally per service name,
      created at zero the first time the name is met. */
  function Accumulate(rows: seq<RecordRow>): (r: map<string, Tally>)
    ensures r.Keys == KeysOf(rows, RecordLabel)
  {
    if |rows| == 0 then map[]
    else
      var acc := Accumulate(rows[..|rows| - 1]);
      var k := RecordLabel(rows[|rows| - 1]);
      acc[k := Bump(if k in acc then acc[k] else Tally(0, 0, 0), rows[|rows| - 1])]
  }

  /** Each tally counts its group's records, sums their costs and counts
      the completed ones. */
  lemma {:induction false} AccumulateEntry(rows: seq<RecordRow>, k: string)
    requires k in Accumulate(rows)
    ensures var w := Where(rows, RecordLabel, k);
            Accumulate(rows)[k] == Tally(|w|, Sum(w, CostOf), Sum(w, CompletedOne))
  {
    var prefix := rows[..|rows| - 1];
    if k in Accumulate(prefix) {
      AccumulateEntry(prefix, k);
    } else {
      KeysOfWhere(prefix, RecordLabel, k);
    }
    assert rows == prefix + [rows[|rows| - 1]];
    WhereSnoc(prefix, rows[|rows| - 1], RecordLabel, k);
    GroupEntryStep(rows, RecordLabel, CostOf, k);
    GroupEntryStep(rows, RecordLabel, CompletedOne, k);
  }

  /** Per-service statistics as the report returns them. */
  datatype Stats = Stats(totalServices: int, totalCost: int, averageCost: real, completedServices: int)

  /** The average times the count gives back the total, exactly. */
  predicate ExactAverage(st: Stats) {
    st.averageCost * (st.totalServices as real) == st.totalCost as real
  }

  /** The second pass: the average of each tally, computed once every
      record has been counted. */
  function Finish(acc: map<string, Tally>): (r: map<string, Stats>)
    requires forall k :: k in acc ==> acc[k].totalServices >= 1
    ensures r.Keys == acc.Keys
    ensures forall k :: k in r ==>
      && r[k].totalServices == acc[k].totalServices
      && r[k].totalCost == acc[k].totalCost
      && r[k].completedServices == acc[k].completedServices
      && ExactAverage(r[k])
  {
    map k | k in acc :: Stats(
      acc[k].totalServices, acc[k].totalCost,
      acc[k].totalCost as real / acc[k].totalServices as real,
      acc[k].completedServices)
  }

  datatype PerformanceReport = PerformanceReport(
    serviceStats: map<string, Stats>,
    totalServices: int,
    serviceRecords: seq<RecordRow>)

  /** The number of rows in a group satisfying a 0/1 counter never exceeds
      the group's size. */
  lemma {:induction false} CompletedAtMostAll(xs: seq<RecordRow>)
    ensures 0 <= Sum(xs, CompletedOne) <= |xs|
  {
    if |xs| > 0 {
      CompletedAtMostAll(xs[..|xs| - 1]);
    }
  }

  /** Each tally's group is not empty and has no more completed records
      than records. */
  lemma AccumulateFacts(recs: seq<RecordRow>, k: string)
    requires k in Accumulate(recs)
    ensures var w := Where(recs, RecordLabel, k);
            && Accumulate(recs)[k] == Tally(|w|, Sum(w, CostOf), Sum(w, CompletedOne))
            && |w| >= 1
            && Sum(w, CompletedOne) <= |w|
  {
    AccumulateEntry(recs, k);
    KeysOfWhere(recs, RecordLabel, k);
    CompletedAtMostAll(Where(recs, RecordLabel, k));
  }

  /** Both passes of the performance report over the selected records. */
  function ServiceStats(recs: seq<RecordRow>): (r: map<string, Stats>)
    ensures r.Keys == KeysOf(recs, RecordLabel)
    ensures forall k :: k in r ==>
      var w := Where(recs, RecordLabel, k);
      && r[k].totalServices == |w| >= 1
      && r[k].totalCost == Sum(w, CostOf)
      && r[k].completedServices == Sum(w, CompletedOne) <= |w|
      && ExactAverage(r[k])
  {
    var acc := Accumulate(recs);
    AccumulatePositive(recs);
    var r := Finish(acc);
    forall k | k in r
      ensures var w := Where(recs, RecordLabel, k);
              && r[k].totalServices == |w| >= 1
              && r[k].totalCost == Sum(w, CostOf)
              && r[k].completedServices == Sum(w, CompletedOne) <= |w|
    {
      AccumulateFacts(recs, k);
    }
    r
  }

  lemma AccumulatePositive(recs: seq<RecordRow>)
    ensures forall k :: k in Accumulate(recs) ==> Accumulate(recs)[k].totalServices >= 1
  {
    forall k | k in Accumulate(recs)
      ensures Accumulate(recs)[k].totalServices >= 1
    {
      AccumulateFacts(recs, k);
    }
  }

  /** GET /api/reports/performance. */
  function Performance(rows: seq<RecordRow>, start: Option<int>, end: Option<int>): (r: PerformanceReport)
    ensures forall x :: x in r.serviceRecords <==> x in rows && InWindow(x.createdAt, start, end)
    ensures forall x :: multiset(r.serviceRecords)[x] == if InWindow(x.createdAt, start, end) then multiset(rows)[x] else 0
    ensures r.totalServices == |r.serviceRecords|
    ensures r.serviceStats == ServiceStats(r.serviceRecords)
  {
    var recs := Window(rows, RecordedAt, start, end);
    WindowCount(rows, RecordedAt, start, end);
    forall x
      ensures x in recs <==> x in rows && InWindow(x.createdAt, start, end)
    {
      WindowMember(rows, RecordedAt, start, end, x);
    }
    PerformanceReport(ServiceStats(recs), |recs|, recs)
  }

  /** The per-service counts add up to the number of records reported, and
      the per-service costs to their total cost. */
  lemma PerformanceConserved(rows: seq<RecordRow>, start: Option<int>, end: Option<int>)
    ensures var r := Performance(rows, start, end);
            && MapSum(map k | k in r.serviceStats :: r.serviceStats[k].totalServices) == r.totalServices
            && MapSum(map k | k in r.serviceStats :: r.serviceStats[k].totalCost) == Sum(r.serviceRecords, CostOf)
  {
    var r := Performance(rows, start, end);
    var counts := map k | k in r.serviceStats :: r.serviceStats[k].totalServices;
    forall k | k in counts
      ensures counts[k] == Sum(Where(r.serviceRecords, RecordLabel, k), One)
    {
      SumOne(Where(r.serviceRecords, RecordLabel, k));
    }
    GroupTotals(counts, r.serviceRecords, RecordLabel, One);
    SumOne(r.serviceRecords);
    var costs := map k | k in r.serviceStats :: r.serviceStats[k].totalCost;
    GroupTotals(costs, r.serviceRecords, RecordLabel, CostOf);
  }

  lemma {:induction false} SumOne<T>(xs: seq<T>)
    ensures Sum(xs, One) == |xs|
  {
    if |xs| > 0 {
      SumOne(xs[..|xs| - 1]);
    }
  }

  /** One row of the parts table as the inventory query reads it. */
  datatype PartRow = PartRow(name: string, quantity: int, cost: int)

  function NameOf(p: PartRow): string { p.name }
  function QuantityOf(p: PartRow): int { p.quantity }

  /** `quantity * cost`: what the parts on one line cost together. */
  function LineCost(p: PartRow): int { p.quantity * p.cost }

  /** One row of `GROUP BY name`. */
  datatype InventoryLine = InventoryLine(name: string, totalQuantity: int, totalCost: int)

  function LineTotal(l: InventoryLine): int { l.totalCost }

  /** The grouped rows for the names `names`, in that order. */
  function Lines(names: seq<string>, parts: seq<PartRow>): (r: seq<InventoryLine>)
    ensures |r| == |names|
    ensures forall i :: 0 <= i < |r| ==> r[i].name == names[i]
  {
    if |names| == 0 then []
    else
      var n := names[|names| - 1];
      var w := Where(parts, NameOf, n);
      Lines(names[..|names| - 1], parts) + [InventoryLine(n, Sum(w, QuantityOf), Sum(w, LineCost))]
  }

  /** The line totals of `names` add up to the sum, over those names, of
      each name's group cost. */
  lemma {:induction false} LinesTotal(names: seq<string>, parts: seq<PartRow>)
    ensures Sum(Lines(names, parts), LineTotal) == SumByKeys(names, parts, NameOf, LineCost)
  {
    if |names| > 0 {
      LinesTotal(names[..|names| - 1], parts);
      var n := names[|names| - 1];
      var w := Where(parts, NameOf, n);
      SumSnoc(Lines(names[..|names| - 1], parts), InventoryLine(n, Sum(w, QuantityOf), Sum(w, LineCost)), LineTotal);
    }
  }

  datatype InventoryReport = InventoryReport(
    partsInventory: seq<InventoryLine>,
    totalPartsCost: int,
    totalUniqueParts: int)

  /** GET /api/reports/inventory. The database's `GROUP BY` returns groups
      in no promised order; the model lists them by first appearance. */
  function Inventory(parts: seq<PartRow>): (r: InventoryReport)
    ensures forall i, j :: 0 <= i < j < |r.partsInventory| ==> r.partsInventory[i].name != r.partsInventory[j].name
    ensures forall n :: (exists i :: 0 <= i < |r.partsInventory| && r.partsInventory[i].name == n)
                        <==> n in KeysOf(parts, NameOf)
    ensures forall i :: 0 <= i < |r.partsInventory| ==>
      var w := Where(parts, NameOf, r.partsInventory[i].name);
      r.partsInventory[i].totalQuantity == Sum(w, QuantityOf) && r.partsInventory[i].totalCost == Sum(w, LineCost)
    ensures r.totalUniqueParts == |r.partsInventory| == |KeysOf(parts, NameOf)|
    ensures r.totalPartsCost == Sum(r.partsInventory, LineTotal) == Sum(parts, LineCost)
  {
    var names := DistinctKeys(parts, NameOf);
    var lines := Lines(names, parts);
    InventoryNames(parts, names, lines);
    forall i | 0 <= i < |lines|
      ensures var w := Where(parts, NameOf, lines[i].name);
              lines[i].totalQuantity == Sum(w, QuantityOf) && lines[i].totalCost == Sum(w, LineCost)
    {
      InventoryLineTotals(names, parts, i);
    }
    InventoryTotal(parts, names, lines);
    InventoryReport(lines, Sum(lines, LineTotal), |lines|)
  }

  /** A name has a line exactly when some part carries it. */
  lemma InventoryNames(parts: seq<PartRow>, names: seq<string>, lines: seq<InventoryLine>)
    requires names == DistinctKeys(parts, NameOf) && lines == Lines(names, parts)
    ensures forall n :: (exists i :: 0 <= i < |lines| && lines[i].name == n) <==> n in KeysOf(parts, NameOf)
  {
    forall n
      ensures (exists i :: 0 <= i < |lines| && lines[i].name == n) <==> n in names
    {
      if n in names {
        var i :| 0 <= i < |names| && names[i] == n;
        assert lines[i].name == n;
      }
    }
  }

  /** The line totals add up to the cost of all the parts. */
  lemma InventoryTotal(parts: seq<PartRow>, names: seq<string>, lines: seq<InventoryLine>)
    requires names == DistinctKeys(parts, NameOf) && lines == Lines(names, parts)
    ensures Sum(lines, LineTotal) == Sum(parts, LineCost)
  {
    LinesTotal(names, parts);
    forall i | 0 <= i < |parts|
      ensures NameOf(parts[i]) in names
    {
      assert parts[i] in parts;
      WhereMember(parts, NameOf, parts[i].name, parts[i]);
      KeysOfWhere(parts, NameOf, parts[i].name);
    }
    SumByKeysConserves(names, parts, NameOf, LineCost);
  }

  /** Each line holds the sums of quantity and of `quantity * cost` over
      the parts with its name. */
  lemma {:induction false} InventoryLineTotals(names: seq<string>, parts: seq<PartRow>, i: nat)
    requires i < |names|
    ensures var w := Where(parts, NameOf, names[i]);
            Lines(names, parts)[i] == InventoryLine(names[i], Sum(w, QuantityOf), Sum(w, LineCost))
  {
    if i < |names| - 1 {
      InventoryLineTotals(names[..|names| - 1], parts, i);
    }
  }

  /** The make, model and plate of a record's car. */
  datatype CarInfo = CarInfo(make: string, model: string, licensePlate: string)

  /** One service record row of the customer history query, with its car
      (absent when the car row is missing) and its payments' amounts. */
  datatype HistoryRow = HistoryRow(
    id: nat,
    carId: nat,
    createdAt: int,
    car: Option<CarInfo>,
    paymentAmounts: seq<int>)

  function CarIdOf(r: HistoryRow): nat { r.carId }
  function Amount(a: int): int { a }

  /** What was paid towards one record. */
  function Spent(r: HistoryRow): int { Sum(r.paymentAmounts, Amount) }

  /** `${make} ${model} (${licensePlate})`. Only used on rows that have a
      car; the empty key of a row without one is never produced. */
  function CarKey(r: HistoryRow): string {
    if r.car.Some? then r.car.value.make + " " + r.car.value.model + " (" + r.car.value.licensePlate + ")"
    else ""
  }

  /** `order: [['createdAt', 'DESC']]`. */
  predicate NewerRow(a: HistoryRow, b: HistoryRow) {
    a.createdAt >= b.createdAt
  }

  /** The rows of the car asked for (all rows when none is), newest first. */
  function Selected(rows: seq<HistoryRow>, carId: Option<nat>): (r: seq<HistoryRow>)
    ensures Sorted(r, NewerRow)
    ensures |r| <= |rows|
    ensures multiset(r) == multiset(if carId.Some? then Where(rows, CarIdOf, carId.value) else rows)
  {
    var chosen := if carId.Some? then Where(rows, CarIdOf, carId.value) else rows;
    Sort(chosen, NewerRow)
  }

  /** One car's entry in the history. */
  datatype CarHistory = CarHistory(totalServices: int, totalSpent: int, services: seq<HistoryRow>)

  /** The grouping by car: each row is appended to its car's entry. */
  function GroupHistory(rows: seq<HistoryRow>): (r: map<string, CarHistory>)
    ensures r.Keys == KeysOf(rows, CarKey)
  {
    if |rows| == 0 then map[]
    else
      var acc := GroupHistory(rows[..|rows| - 1]);
      var k := CarKey(rows[|rows| - 1]);
      var h := if k in acc then acc[k] else CarHistory(0, 0, []);
      acc[k := CarHistory(h.totalServices + 1, h.totalSpent + Spent(rows[|rows| - 1]), h.services + [rows[|rows| - 1]])]
  }

  /** Each car's entry holds exactly its rows, in their original order,
      their count and what was paid towards them. */
  lemma {:induction false} GroupHistoryEntry(rows: seq<HistoryRow>, k: string)
    requires k in GroupHistory(rows)
    ensures var w := Where(rows, CarKey, k);
            GroupHistory(rows)[k] == CarHistory(|w|, Sum(w, Spent), w)
  {
    var prefix := rows[..|rows| - 1];
    if k in GroupHistory(prefix) {
      GroupHistoryEntry(prefix, k);
    } else {
      KeysOfWhere(prefix, CarKey, k);
    }
    assert rows == prefix + [rows[|rows| - 1]];
    WhereSnoc(prefix, rows[|rows| - 1], CarKey, k);
    GroupEntryStep(rows, CarKey, Spent, k);
  }

  datatype HistoryReport = HistoryReport(carHistory: map<string, CarHistory>, totalCars: int, totalServices: int)

  /** GET /api/reports/customer-history. Building the key of a record
      whose car is missing throws, which the handler answers with a 500. */
  function CustomerHistory(rows: seq<HistoryRow>, carId: Option<nat>): (r: Result<HistoryReport>)
    ensures r.Err? <==> exists x :: x in Selected(rows, carId) && x.car.None?
    ensures r.Err? ==> r.code == ServerError
    ensures r.Ok? ==>
      var sel := Selected(rows, carId);
      && r.value.totalServices == |sel|
      && r.value.carHistory.Keys == KeysOf(sel, CarKey)
      && r.value.totalCars == |r.value.carHistory|
      && forall k :: k in r.value.carHistory ==>
           var w := Where(sel, CarKey, k);
           && r.value.carHistory[k] == CarHistory(|w|, Sum(w, Spent), w)
           && Sorted(r.value.carHistory[k].services, NewerRow)
  {
    var sel := Selected(rows, carId);
    if exists x :: x in sel && x.car.None? then Err(ServerError)
    else
      var groups := GroupHistory(sel);
      forall k | k in groups
        ensures var w := Where(sel, CarKey, k);
                groups[k] == CarHistory(|w|, Sum(w, Spent), w) && Sorted(w, NewerRow)
      {
        GroupHistoryEntry(sel, k);
        WhereSorted(sel, CarKey, k, NewerRow);
      }
      Ok(HistoryReport(groups, |groups|, |sel|))
  }

  /** The per-car counts add up to the number of records reported, and the
      per-car amounts to everything paid towards those records. */
  lemma CustomerHistoryConserved(rows: seq<HistoryRow>, carId: Option<nat>)
    requires CustomerHistory(rows, carId).Ok?
    ensures var r := CustomerHistory(rows, carId).value;
            && MapSum(map k | k in r.carHistory :: r.carHistory[k].totalServices) == r.totalServices
            && MapSum(map k | k in r.carHistory :: r.carHistory[k].totalSpent) == Sum(Selected(rows, carId), Spent)
  {
    var r := CustomerHistory(rows, carId).value;
    HistoryCounts(r.carHistory, Selected(rows, carId));
    HistorySpent(r.carHistory, Selected(rows, carId));
  }

  /** Entries that hold exactly their group's rows count all rows once. */
  lemma HistoryCounts(groups: map<string, CarHistory>, sel: seq<HistoryRow>)
    requires groups.Keys == KeysOf(sel, CarKey)
    requires forall k :: k in groups ==> groups[k].totalServices == |Where(sel, CarKey, k)|
    ensures MapSum(map k | k in groups :: groups[k].totalServices) == |sel|
  {
    var counts := map k | k in groups :: groups[k].totalServices;
    forall k | k in counts
      ensures counts[k] == Sum(Where(sel, CarKey, k), One)
    {
      SumOne(Where(sel, CarKey, k));
    }
    GroupTotals(counts, sel, CarKey, One);
    SumOne(sel);
  }

  /** Entries that hold their group's payments count every payment once. */
  lemma HistorySpent(groups: map<string, CarHistory>, sel: seq<HistoryRow>)
    requires groups.Keys == KeysOf(sel, CarKey)
    requires forall k :: k in groups ==> groups[k].totalSpent == Sum(Where(sel, CarKey, k), Spent)
    ensures MapSum(map k | k in groups :: groups[k].totalSpent) == Sum(sel, Spent)
  {
    var spent := map k | k in groups :: groups[k].totalSpent;
    GroupTotals(spent, sel, CarKey, Spent);
  }

  /** With a car asked for, only that car's records are reported. */
  lemma CustomerHistoryOneCar(rows: seq<HistoryRow>, carId: nat, x: HistoryRow)
    ensures x in Selected(rows, Some(carId)) <==> x in rows && x.carId == carId
  {
    var chosen := Where(rows, CarIdOf, carId);
    SortKeepsElements(chosen, NewerRow);
    WhereMember(rows, CarIdOf, carId, x);
  }

  /** With no car asked for, every record is reported, each as often as it
      was returned. */
  lemma CustomerHistoryAllCars(rows: seq<HistoryRow>)
    ensures multiset(Selected(rows, None)) == multiset(rows)
    ensures forall x :: x in Selected(rows, None) <==> x in rows
  {
    var sel := Selected(rows, None);
    forall x
      ensures x in sel <==> x in rows
    {
      assert x in sel <==> x in multiset(sel);
      assert x in rows <==> x in multiset(rows);
    }
  }
}
