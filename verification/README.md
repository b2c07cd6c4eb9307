# Garage management backend: store transitions and reports

This project models the core of a garage-management backend. The backend is
an Express and Sequelize service that keeps cars, the services a garage
offers, service records (one car undergoing one service, with the parts used
on it) and payments towards those records. It also derives four reports from
them.

The model has two halves.

- **Record services.** The whole database is one immutable `Store`: a table
  per entity, each a map from id to row plus the next auto-increment id. Every
  handler of the car, service, service-record and payment controllers is a
  pure function from a store and a parsed request to
  `Result<new store>` or an error code (400, 404 or 500). The invariants
  the schema and the controllers keep together are collected in
  `Store.Valid`:
  - unique VINs and licence plates;
  - unique service names;
  - every part owned by an existing record.

  Every mutating handler preserves `Valid`. That every part passes the parts
  model's validators (`Store.PartsValid`) is not among them: the
  service-record handlers as written store parts without running those
  validators (see "## Findings"). Validating variants of those two handlers
  are modelled beside them and do preserve `PartsValid`. Because an error returns no store,
  "nothing changes on error" holds by construction; this is how the model
  treats the controllers' transactions.
- **Reports.** The revenue, performance, inventory and customer-history
  reports are folds over the joined rows their queries return. Each fold is
  written the way the controller's `reduce` accumulates, left to right. It
  is then related to an independent description: the sum or count over the
  rows of one group. Conservation lemmas show that the groups add up to the
  totals. The `Joins` module builds those rows from a store, with a missing
  joined row read as an absent value.

Conventions:
- Money is integer cents.
- Timestamps are integers, and the clock is a parameter `now` of the create
  handlers.
- Request bodies are records of `Option`s, where JavaScript falsiness means
  absent, empty string or 0 (`Common.Truthy`, `Common.TruthyInt`). `x || y`
  is `Common.OrStr` or `Common.OrInt`.
- Updates come in two kinds:
  - Car and service updates use `x || old`, so a falsy value keeps the old
    one.
  - Service-record and payment updates pass the body to Sequelize's
    `instance.update`. Absent keys are skipped there, so a present value
    overwrites even when it is falsy.

Files: `common.dfy`, `folds.dfy` (sums, filters and group sums over
sequences), `sorting.dfy`, `tables.dfy`, `models.dfy`, `store.dfy`,
`cars.dfy`, `services.dfy`, `records.dfy`, `payments.dfy`, `reports.dfy`,
`joins.dfy`.

## Model

| member | source | states |
|---|---|---|
| Cars.CreateCar | backend-project/controllers/carController.js:54-86 | A falsy make, model, year, plate or VIN is a 400. A VIN or plate already used by any car is a 400. Otherwise the car is stored under a fresh id with the submitted fields, mileage 0 when falsy and status active when absent, and VIN/plate uniqueness still holds. A falsy colour is a 500, because the controller writes a null colour into the NOT NULL colour column. Success iff none of these apply. |
| Cars.UpdateCar | backend-project/controllers/carController.js:100-146 | A missing id is a 404 and the only one. A 400 arises exactly when another car already has the resulting VIN or plate, so the guarded check never lets uniqueness break. On success only that car's row changes; the ids and every other car stay as they were. |
| Cars.UpdateCarFields | backend-project/controllers/carController.js:137-146 | After a successful update, each of make, model, year, plate, VIN, colour, mileage and status is stored when truthy and keeps its old value when falsy; the creation time is kept. |
| Cars.UpdateWithFalsyFieldsIsNoOp | backend-project/controllers/carController.js:137-146 | An update whose every field is falsy, mileage 0 included, returns the store unchanged. |
| Cars.DeleteCar | backend-project/controllers/carController.js:158-172 | A 404 iff the id is missing; otherwise exactly that car is removed and every other row is kept. |
| Cars.GetCarById | backend-project/controllers/carController.js:22-35 | A 404 iff the id is missing; otherwise the stored car. |
| Cars.GetCars | backend-project/controllers/carController.js:7-17 | Every car exactly once, ordered by creation time, newest first. |
| Cars.CreateThenGet | backend-project/controllers/carController.js:77-88 | A created car is found under its new id with the submitted fields and defaults. |
| Cars.SecondCreateSameVinRejected | backend-project/controllers/carController.js:61-74 | Creating a second car with a VIN already created is a 400, whatever its plate. |
| Cars.DeleteThenGet | backend-project/controllers/carController.js:160-167 | After a delete the car cannot be fetched, and deleting it again is a 404. |
| Services.CreateService | backend-project/controllers/serviceController.js:45-67 | Success iff the name and the base price are truthy and no service has that name. Every failure is a 400. The stored service has duration 60 when falsy and status active when absent, and name uniqueness holds. |
| Services.UpdateService | backend-project/controllers/serviceController.js:83-107 | A missing id is a 404. A 400 arises exactly when another service already has the resulting name. On success only that service changes: each of name, description, base price, duration and status is stored when truthy and keeps its old value when falsy. |
| Services.DeleteService | backend-project/controllers/serviceController.js:119-133 | A 404 iff the id is missing; otherwise exactly that service is removed. |
| Services.GetServiceById | backend-project/controllers/serviceController.js:22-35 | A 404 iff the id is missing; otherwise the stored service. |
| Services.CreateThenGet | backend-project/controllers/serviceController.js:60-67 | A created service is found under its new id with the submitted fields and defaults. |
| Services.GetServices | backend-project/controllers/serviceController.js:7-17 | Every service exactly once, in ascending name order. |
| Services.GetServicesStrictlyOrdered | backend-project/models/Service.js:10-14 | With names unique, no two listed services share a name, so the order is strict. |
| Services.SecondCreateSameNameRejected | backend-project/controllers/serviceController.js:52-58 | A second service with a name already created is a 400. |
| Services.ZeroPriceRejected | backend-project/controllers/serviceController.js:45-49 | A base price of 0 is falsy, so that create is a 400 even though the column accepts 0. |
| Services.UpdateWithFalsyFieldsIsNoOp | backend-project/controllers/serviceController.js:101-107 | An update whose every field is falsy returns the store unchanged. |
| Records.WritePartsAsWritten | backend-project/controllers/serviceRecordController.js:99-107 | `bulkCreate` without validation: it succeeds iff every part supplies its NOT NULL columns, and the parts are appended in list order under fresh ids owned by the record. |
| Records.WriteParts | backend-project/models/ServiceRecord.js:74-91 | The part writer with the quantity ≥ 1 and cost ≥ 0 validators applied. It succeeds iff every part passes them, appends like the as-written writer, and keeps every stored part valid. |
| Records.BulkCreate | backend-project/controllers/serviceRecordController.js:100-106 | `bulkCreate` with its `validate` option: success iff every part supplies its NOT NULL columns and, with `validate`, passes the validators; the parts are appended under fresh ids owned by the record, and with `validate` every stored part stays valid. |
| Records.CreateServiceRecord | backend-project/controllers/serviceRecordController.js:70-135 | Success iff carId, serviceId, startDate and technician are present and every part supplies name, quantity and cost, whatever their values; any other outcome is a 500 with nothing written. On success the record gets a fresh id with status pending and cost 0 when absent. Its parts are appended and owned by it. Cars, services and payments are untouched. |
| Records.CreateServiceRecordValidated | backend-project/models/ServiceRecord.js:74-91 | The create handler with the part validators applied: success iff the required fields are present and every part has quantity at least 1 and cost at least 0; it otherwise writes like the handler as written and keeps every stored part valid. |
| Records.UpdateServiceRecord | backend-project/controllers/serviceRecordController.js:144-193 | A 404 iff the id is missing; otherwise success iff every given part supplies its NOT NULL columns. Present fields overwrite, absent ones keep. Without `partsUsed` the parts are untouched. With it, the record's parts are replaced by the list and other records' parts are kept. |
| Records.UpdateServiceRecordValidated | backend-project/models/ServiceRecord.js:74-91 | The update handler with the part validators applied to the replacement parts: success iff the id exists and every given part passes them, and every stored part stays valid. |
| Records.ReplacedPartsExactly | backend-project/controllers/serviceRecordController.js:176-193 | After an update with `partsUsed`, the parts of the record are exactly the newly written ones. |
| Records.EmptyPartsUpdateIdempotent | backend-project/controllers/serviceRecordController.js:176-184 | Updating with `partsUsed: []` leaves the record with no parts, and repeating it changes nothing. |
| Records.UpdateStoresFalsyCost | backend-project/controllers/serviceRecordController.js:164-173 | A present cost of 0 is stored, unlike the falsy-keeps-old updates of cars and services. |
| Records.DeleteServiceRecord | backend-project/controllers/serviceRecordController.js:226-253 | A 404 iff the id is missing. Otherwise the record and exactly the parts it owns are removed; other parts and all payments are kept. |
| Records.DeleteKeepsPayments | backend-project/controllers/serviceRecordController.js:238-244 | A payment naming the deleted record survives and now names a record that does not exist. |
| Records.GetServiceRecordById | backend-project/controllers/serviceRecordController.js:37-65 | A 404 iff the id is missing; otherwise the stored record. |
| Records.GetServiceRecords | backend-project/controllers/serviceRecordController.js:8-32 | Every record exactly once, newest first. |
| Records.GetServiceRecordsByCar | backend-project/controllers/serviceRecordController.js:258-285 | Exactly the records of that car, each once, newest first. |
| Records.AsWrittenStoresZeroQuantity | backend-project/controllers/serviceRecordController.js:100-106 | As written, a part with quantity 0 is stored, although the model declares it invalid. |
| Records.CorrectedRejectsZeroQuantity | backend-project/models/ServiceRecord.js:78-84 | The validating writer refuses that part. |
| Records.CreateStoresZeroQuantityPart | backend-project/controllers/serviceRecordController.js:99-129 | A create request carrying a quantity-0 part succeeds as written and leaves that invalid part in the store. |
| Records.ValidatedCreateRejectsZeroQuantity | backend-project/models/ServiceRecord.js:78-84 | The validating create handler answers the same request with a 500. |
| Payments.CreatePayment | backend-project/controllers/paymentController.js:8-67 | A 404 iff the referenced record is absent or missing. Otherwise exactly one payment is added under a fresh id with the submitted fields, and nothing else changes. |
| Payments.UpdatePayment | backend-project/controllers/paymentController.js:136-204 | A 404 iff the payment is missing, or the update moves it to a record that does not exist. The record is looked up only when the new id is truthy and differs from the current one. On success only that payment changes, with present fields overwriting. |
| Payments.DeletePayment | backend-project/controllers/paymentController.js:209-229 | A 404 iff the id is missing; otherwise exactly that payment is removed. |
| Payments.GetPaymentById | backend-project/controllers/paymentController.js:102-131 | A 404 iff the id is missing; otherwise the stored payment. |
| Payments.GetPayments | backend-project/controllers/paymentController.js:72-97 | Every payment exactly once, newest first. |
| Payments.GetPaymentsByServiceRecord | backend-project/controllers/paymentController.js:234-258 | Exactly the payments naming that record, each once. |
| Payments.CreateThenListByRecord | backend-project/controllers/paymentController.js:30-38 | A created payment is listed under its record. |
| Payments.UpdateOrphanWithoutMoving | backend-project/controllers/paymentController.js:157-164 | A payment whose record was deleted can still be updated when the update does not move it. |
| Payments.MoveToMissingRecordRejected | backend-project/controllers/paymentController.js:158-163 | Moving a payment to a missing record is a 404. |
| Reports.WindowMember | backend-project/controllers/reportController.js:13-17 | A row passes the date filter iff it is in the input and its createdAt lies between both bounds inclusive, when both are given. |
| Reports.WindowOpen | backend-project/controllers/reportController.js:77-81 | Without both bounds nothing is filtered out. |
| Reports.Revenue | backend-project/controllers/reportController.js:8-67 | The reported payments are exactly the rows in the window, each as many times as it occurs among the rows. totalRevenue is their sum. Each method or service key maps to the sum over the payments with that key, and the keys are exactly the ones present, with "Unknown" for a missing service. |
| Reports.RevenueConserved | backend-project/controllers/reportController.js:41-55 | The per-method sums and the per-service sums each add up to totalRevenue. |
| Reports.RevenueKeys | backend-project/controllers/reportController.js:44-55 | A payment without a service puts "Unknown" among the service keys, and a method is a key iff some payment uses it. |
| Reports.RevenueOfNothing | backend-project/controllers/reportController.js:41 | With no payments the revenue is 0 and both groupings are empty. |
| Reports.ServiceStats | backend-project/controllers/reportController.js:106-130 | For each service name present: totalServices is the count of its records (at least 1), totalCost their summed cost, and completedServices the count of completed ones, at most totalServices. averageCost times totalServices is exactly totalCost. |
| Reports.Performance | backend-project/controllers/reportController.js:72-141 | The reported records are exactly the rows in the window, each as many times as it occurs among the rows. totalServices is their count, and the per-service stats are those of the window. |
| Reports.PerformanceConserved | backend-project/controllers/reportController.js:127-134 | The per-service counts add up to totalServices, and the per-service costs to the total cost. |
| Reports.AccumulateEntry | backend-project/controllers/reportController.js:106-124 | The left-to-right accumulation of each name equals the count, cost sum and completed count of that name's records. |
| Reports.Inventory | backend-project/controllers/reportController.js:146-169 | Each part name heads exactly one line, and the names are exactly those present. Each line sums quantity and quantity × cost over its name's parts. totalUniqueParts is the number of names, and totalPartsCost is the sum of the line totals, which equals the sum over all parts. |
| Reports.InventoryLineTotals | backend-project/controllers/reportController.js:148-156 | The line of a name holds the sums of quantity and quantity × cost over that name's parts. |
| Reports.CustomerHistory | backend-project/controllers/reportController.js:174-233 | A 500 iff some selected record has no car. Otherwise totalServices is the number of selected records and totalCars the number of keys. Each key maps to the count of its records, what was paid towards them, and the records themselves, newest first. |
| Reports.GroupHistoryEntry | backend-project/controllers/reportController.js:207-222 | Each car's accumulated entry holds exactly its rows in input order, their count and their payments' sum. |
| Reports.CustomerHistoryConserved | backend-project/controllers/reportController.js:217-228 | The per-car counts add up to totalServices, and the per-car amounts to everything paid towards the selected records. |
| Reports.CustomerHistoryOneCar | backend-project/controllers/reportController.js:179-181 | With a car id given, exactly that car's records are selected. |
| Reports.CustomerHistoryAllCars | backend-project/controllers/reportController.js:179-186 | With no car id, every record row is selected, each as often as it was returned. |
| Joins.PaymentRows | backend-project/controllers/reportController.js:19-38 | The revenue query yields one row per stored payment: its i-th row is the i-th stored payment, in id order, joined with its record's service name. |
| Joins.RevenueOfStore | backend-project/controllers/reportController.js:19-41 | Without a date window, totalRevenue is the sum of the amounts of the stored payments, each counted once. |
| Joins.OrphanedPaymentsAreUnknown | backend-project/controllers/reportController.js:52 | After a record is deleted, its payments still appear in the revenue rows, filed under "Unknown". |
| Joins.RecordRows | backend-project/controllers/reportController.js:83-103 | The performance query yields one row per stored record: its i-th row is the i-th stored record, in id order, joined with its service name. |
| Joins.PartRows | backend-project/controllers/reportController.js:148-156 | The inventory query reads one row per stored part: its i-th row is the name, quantity and cost of the i-th stored part, in id order. |
| Joins.InventoryOfStore | backend-project/controllers/reportController.js:148-166 | totalPartsCost is the sum of quantity × cost over the stored parts, each counted once. |
| Joins.InventoryNonNegative | backend-project/models/ServiceRecord.js:78-91 | With every part valid, the inventory's total cost is not negative. The handlers as written do not keep parts valid, so this holds for stores the validating handlers produce. |
| Joins.HistoryRows | backend-project/controllers/reportController.js:183-204 | The customer-history query yields one row per stored record: its i-th row is the i-th stored record, in id order, with its car and its payments' amounts. |
| Joins.DeletedCarBreaksHistory | backend-project/controllers/reportController.js:208 | Once a car with service records is deleted, the unfiltered customer history is a 500. |

## Left out

- Transport, routing, authentication and the frontend are not modelled. Handlers return only the result kind, not response bodies or status-code plumbing.
- Transactions are not modelled as a mechanism. Each handler is one atomic step, and concurrent requests are not modelled.
- Foreign keys at the database level are not modelled. A record may name a car or service that does not exist, and deleting a car or a service does not check for records that still name it. Parts are removed with their record because the controller deletes them explicitly.
- Request parsing (`parseInt`, `new Date`, query strings) is not modelled. Bodies arrive as typed optional values.
- DECIMAL columns are exact integer cents. The model does not cover DECIMAL values arriving as strings, which would make the report sums concatenate. The average cost is an exact `real`, not a floating-point division.
- Report accumulators are plain maps. JavaScript object keys such as `constructor`, which would read an inherited value, are not modelled.
- The payment model file is not part of this model. Its column rules are not checked. The create body's fields are taken as typed values, with the payment method and status enums as the documented ones.
- Payments.GetPaymentsByServiceRecord: the query has no order clause, so the model returns payments by ascending id and promises no order.
- Reports.Inventory: the database's `GROUP BY` promises no group order. The model lists names by first appearance, and the contract states no order.
- The joined car, service, parts and payments in the GET responses are not modelled. The single-row getters return only the stored row.
- `updatedAt` and the create timestamp of updates are not modelled; `createdAt` comes from the `now` parameter.
- Payments.UpdatePayment: a `serviceRecordId` of 0 is falsy, so it is stored without the existence check, as the code does.
- Sequelize validation of a record's enum and date columns on create is not modelled beyond the NOT NULL columns without defaults. Values arrive already in range.
- Services.GetServices: names are compared and ordered by exact code points (`Sorting.LexLe`). The database collation is not part of this model. Under a case-insensitive collation, "oil change" and "Oil Change" would clash in the duplicate checks of Cars.CreateCar, Cars.UpdateCar, Services.CreateService and Services.UpdateService. They would also share a line in Reports.Inventory and sort differently here.
- A part request carrying its own `id` or other extra keys is not modelled. `...part` could override such columns.

## Findings

| source | as written | input that shows it | evidently intended | confidence | as-written member | corrected member |
|---|---|---|---|---|---|---|
| backend-project/controllers/serviceRecordController.js:100-106 | Parts are written with `PartsUsed.bulkCreate(...)` without `validate: true`, so the `min: 1` quantity and `min: 0` cost validators of backend-project/models/ServiceRecord.js:78-91 never run; the same holds at lines 185-191 of the update | a create with `partsUsed: [{ name: "Oil filter", quantity: 0, cost: 850 }]` stores a part of quantity 0 | parts failing the declared validators are refused and the transaction rolls back | not executed | Records.WritePartsAsWritten, Records.CreateServiceRecord, Records.UpdateServiceRecord, Records.AsWrittenStoresZeroQuantity, Records.CreateStoresZeroQuantityPart | Records.WriteParts, Records.CreateServiceRecordValidated, Records.UpdateServiceRecordValidated, Records.CorrectedRejectsZeroQuantity, Records.ValidatedCreateRejectsZeroQuantity |
