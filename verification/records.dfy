/** The service record controller. A record and the parts used on it are
    written in one transaction, so each handler either produces a whole new
    store or fails with the store left as it was. */
module Records {
  import opened Common
  import opened Tables
  import opened Sorting
  import opened Folds
  import opened Models
  import opened Store

  /** One element of the `partsUsed` array of a request body. */
  datatype PartRequest = PartRequest(name: Option<string>, quantity: Option<int>, cost: Option<int>)

  /** The fields of a create or update request body, already parsed. */
  datatype RecordRequest = RecordRequest(
    carId: Option<nat>,
    serviceId: Option<nat>,
    startDate: Option<int>,
    endDate: Option<int>,
    status: Option<RecordStatus>,
    cost: Option<int>,
    technician: Option<string>,
    notes: Option<string>,
    partsUsed: Option<seq<PartRequest>>)

  /** Every NOT NULL column of the part is supplied. */
  predicate PartComplete(p: PartRequest) {
    p.name.Some? && p.quantity.Some? && p.cost.Some?
  }

  /** The `min: 1` and `min: 0` validators of the parts model, applied to a
      complete part request. */
  predicate PassesValidators(p: PartRequest) {
    PartComplete(p) && p.quantity.value >= 1 && p.cost.value >= 0
  }

  /** `{ ...part, serviceRecordId: owner }`. */
  function ToPart(owner: nat, p: PartRequest): Part
    requires PartComplete(p)
  {
    Part(owner, p.name.value, p.quantity.value, p.cost.value)
  }

  function ToParts(owner: nat, ps: seq<PartRequest>): (r: seq<Part>)
    requires forall k :: 0 <= k < |ps| ==> PartComplete(ps[k])
    ensures |r| == |ps|
    ensures forall k :: 0 <= k < |ps| ==> r[k] == ToPart(owner, ps[k])
  {
    seq(|ps|, k requires 0 <= k < |ps| => ToPart(owner, ps[k]))
  }

  /** `t'` is `t` with the parts `ps`, owned by `owner`, appended under
      consecutive fresh ids in list order. */
  ghost predicate Appended(t: Table<Part>, t': Table<Part>, owner: nat, ps: seq<PartRequest>) {
    && WellFormed(t')
    && t'.nextId == t.nextId + |ps|
    && (forall id :: id in t.rows ==> id in t'.rows && t'.rows[id] == t.rows[id])
    && (forall id :: id in t'.rows ==> id in t.rows || t.nextId <= id < t.nextId + |ps|)
    && (forall k :: 0 <= k < |ps| ==>
          && Slot(t.nextId, k) in t'.rows
          && PartComplete(ps[k])
          && t'.rows[Slot(t.nextId, k)] == ToPart(owner, ps[k]))
  }

  /** `PartsUsed.bulkCreate(parts)` as the code calls it: without the
      `validate` option, so only the NOT NULL constraints apply. */
  function WritePartsAsWritten(t: Table<Part>, owner: nat, ps: seq<PartRequest>): (r: Result<Table<Part>>)
    requires WellFormed(t)
    ensures r.Ok? <==> forall k :: 0 <= k < |ps| ==> PartComplete(ps[k])
    ensures r.Err? ==> r.code == ServerError
    ensures r.Ok? ==> Appended(t, r.value, owner, ps)
  {
    if forall k :: 0 <= k < |ps| ==> PartComplete(ps[k]) then
      InsertAllAppended(t, owner, ps);
      Ok(InsertAll(t, ToParts(owner, ps)))
    else Err(ServerError)
  }

  /** A bulk insert of complete part requests appends them. */
  lemma InsertAllAppended(t: Table<Part>, owner: nat, ps: seq<PartRequest>)
    requires WellFormed(t)
    requires forall k :: 0 <= k < |ps| ==> PartComplete(ps[k])
    ensures Appended(t, InsertAll(t, ToParts(owner, ps)), owner, ps)
  {
    InsertAllSlots(t, owner, ps);
  }

  /** The `k`-th part request lands on id `Slot(nextId, k)`. */
  lemma InsertAllSlots(t: Table<Part>, owner: nat, ps: seq<PartRequest>)
    requires WellFormed(t)
    requires forall k :: 0 <= k < |ps| ==> PartComplete(ps[k])
    ensures forall k :: 0 <= k < |ps| ==>
              && Slot(t.nextId, k) in InsertAll(t, ToParts(owner, ps)).rows
              && InsertAll(t, ToParts(owner, ps)).rows[Slot(t.nextId, k)] == ToPart(owner, ps[k])
  {
    var parts := ToParts(owner, ps);
    forall k | 0 <= k < |ps|
      ensures Slot(t.nextId, k) in InsertAll(t, parts).rows && InsertAll(t, parts).rows[Slot(t.nextId, k)] == ToPart(owner, ps[k])
    {
      InsertAllAt(t, parts, k);
    }
  }

  /** The part writer with the model's validators applied, as the declared
      `min` constraints intend: a part with quantity below 1 or a negative
      cost fails the whole write. */
  function WriteParts(t: Table<Part>, owner: nat, ps: seq<PartRequest>): (r: Result<Table<Part>>)
    requires WellFormed(t)
    ensures r.Ok? <==> forall k :: 0 <= k < |ps| ==> PassesValidators(ps[k])
    ensures r.Err? ==> r.code == ServerError
    ensures r.Ok? ==> Appended(t, r.value, owner, ps)
    ensures r.Ok? && PartsValid(t.rows) ==> PartsValid(r.value.rows)
  {
    if forall k :: 0 <= k < |ps| ==> PassesValidators(ps[k]) then
      var r := WritePartsAsWritten(t, owner, ps);
      assert PartsValid(t.rows) ==> PartsValid(r.value.rows) by {
        forall id | id in r.value.rows && id !in t.rows
          ensures PartValid(r.value.rows[id])
        {
          var k := id - t.nextId;
          assert Slot(t.nextId, k) == id;
          assert r.value.rows[Slot(t.nextId, k)] == ToPart(owner, ps[k]);
        }
      }
      r
    else Err(ServerError)
  }

  /** What the part writer accepts: every NOT NULL column supplied and,
      when `validate` is set, the `min` validators passed as well. */
  predicate Accepted(validate: bool, p: PartRequest) {
    if validate then PassesValidators(p) else PartComplete(p)
  }

  /** `PartsUsed.bulkCreate(parts, { validate })`: the controllers pass no
      `validate` option, which is `false`; `true` is the corrected writer. */
  function BulkCreate(t: Table<Part>, owner: nat, ps: seq<PartRequest>, validate: bool): (r: Result<Table<Part>>)
    requires WellFormed(t)
    ensures r.Ok? <==> forall k :: 0 <= k < |ps| ==> Accepted(validate, ps[k])
    ensures r.Err? ==> r.code == ServerError
    ensures r.Ok? ==> Appended(t, r.value, owner, ps)
    ensures r.Ok? && validate && PartsValid(t.rows) ==> PartsValid(r.value.rows)
  {
    if validate then WriteParts(t, owner, ps) else WritePartsAsWritten(t, owner, ps)
  }

  /** The parts of `t` that do not belong to record `rid`:
      `PartsUsed.destroy({ where: { serviceRecordId: rid } })`. */
  function DropParts(t: Table<Part>, rid: nat): (r: Table<Part>)
    requires WellFormed(t)
    ensures WellFormed(r) && r.nextId == t.nextId
    ensures forall id :: id in r.rows <==> id in t.rows && t.rows[id].serviceRecordId != rid
    ensures forall id :: id in r.rows ==> r.rows[id] == t.rows[id]
  {
    Table(map id | id in t.rows && t.rows[id].serviceRecordId != rid :: t.rows[id], t.nextId)
  }

  /** Appending parts owned by an existing record keeps every part owned,
      also when the records only grow. */
  lemma AppendedOwned(t: Table<Part>, t': Table<Part>, owner: nat, ps: seq<PartRequest>,
                      records: map<nat, ServiceRecord>, records': map<nat, ServiceRecord>)
    requires Appended(t, t', owner, ps)
    requires PartsOwned(t.rows, records)
    requires records.Keys <= records'.Keys && owner in records'
    ensures PartsOwned(t'.rows, records')
  {
    forall id | id in t'.rows
      ensures t'.rows[id].serviceRecordId in records'
    {
      if id !in t.rows {
        var k := id - t.nextId;
        assert Slot(t.nextId, k) == id;
        assert t'.rows[Slot(t.nextId, k)] == ToPart(owner, ps[k]);
      }
    }
  }

  /** carId, serviceId, startDate and technician are NOT NULL without a default. */
  predicate HasRequiredFields(req: RecordRequest) {
    req.carId.Some? && req.serviceId.Some? && req.startDate.Some? && req.technician.Some?
  }

  /** The parts a request supplies; an absent list means none. */
  function PartsGiven(req: RecordRequest): seq<PartRequest> {
    if req.partsUsed.Some? then req.partsUsed.value else []
  }

  /** The record carries the request's fields, with status pending and
      cost 0 when they are absent. */
  ghost predicate CreatedFrom(rec: ServiceRecord, req: RecordRequest, now: int)
    requires HasRequiredFields(req)
  {
    && rec.carId == req.carId.value
    && rec.serviceId == req.serviceId.value
    && rec.startDate == req.startDate.value
    && rec.endDate == req.endDate
    && rec.status == (if req.status.Some? then req.status.value else DefaultRecordStatus)
    && rec.cost == (if req.cost.Some? then req.cost.value else DefaultRecordCost)
    && rec.technician == req.technician.value
    && rec.notes == req.notes
    && rec.createdAt == now
  }

  /** What a successful create leaves behind: the new record under a fresh
      id, its parts appended, and the other tables untouched. */
  ghost predicate RecordCreated(s: Store, s': Store, id: nat, req: RecordRequest, now: int)
    requires HasRequiredFields(req)
  {
    && Valid(s')
    && s'.cars == s.cars && s'.services == s.services && s'.payments == s.payments
    && id !in s.records.rows
    && id in s'.records.rows
    && s'.records.rows == s.records.rows[id := s'.records.rows[id]]
    && CreatedFrom(s'.records.rows[id], req, now)
    && Appended(s.parts, s'.parts, id, PartsGiven(req))
  }

  /** The create handler, with the part writer's `validate` option as a
      parameter: the record and then its parts, all or nothing. A missing
      required column or a part the writer refuses makes the transaction
      roll back with a 500. */
  function CreateServiceRecordWith(s: Store, req: RecordRequest, now: int, validate: bool): (r: Result<(Store, nat)>)
    requires Valid(s)
    ensures r.Ok? <==> HasRequiredFields(req) && forall k :: 0 <= k < |PartsGiven(req)| ==> Accepted(validate, PartsGiven(req)[k])
    ensures r.Err? ==> r.code == ServerError
    ensures r.Ok? ==> RecordCreated(s, r.value.0, r.value.1, req, now)
    ensures r.Ok? && validate && PartsValid(s.parts.rows) ==> PartsValid(r.value.0.parts.rows)
  {
    if !HasRequiredFields(req) then Err(ServerError)
    else
      var rec := ServiceRecord(
        req.carId.value, req.serviceId.value, req.startDate.value, req.endDate,
        OrElse(req.status, DefaultRecordStatus), OrElse(req.cost, DefaultRecordCost),
        req.technician.value, req.notes, now);
      var (records, id) := Insert(s.records, rec);
      var written := BulkCreate(s.parts, id, PartsGiven(req), validate);
      if written.Err? then Err(ServerError)
      else
        AppendedOwned(s.parts, written.value, id, PartsGiven(req), s.records.rows, records.rows);
        Ok((s.(records := records, parts := written.value), id))
  }

  /** POST /api/service-records as written: the parts are stored as soon as
      their NOT NULL columns are supplied, whatever their quantity or cost. */
  function CreateServiceRecord(s: Store, req: RecordRequest, now: int): (r: Result<(Store, nat)>)
    requires Valid(s)
    ensures r.Ok? <==> HasRequiredFields(req) && forall k :: 0 <= k < |PartsGiven(req)| ==> PartComplete(PartsGiven(req)[k])
    ensures r.Err? ==> r.code == ServerError
    ensures r.Ok? ==> RecordCreated(s, r.value.0, r.value.1, req, now)
  {
    CreateServiceRecordWith(s, req, now, false)
  }

  /** The create handler with the parts model's validators applied: it
      refuses a part with quantity below 1 or a negative cost, and so keeps
      every stored part valid. */
  function CreateServiceRecordValidated(s: Store, req: RecordRequest, now: int): (r: Result<(Store, nat)>)
    requires Valid(s)
    ensures r.Ok? <==> HasRequiredFields(req) && forall k :: 0 <= k < |PartsGiven(req)| ==> PassesValidators(PartsGiven(req)[k])
    ensures r.Err? ==> r.code == ServerError
    ensures r.Ok? ==> RecordCreated(s, r.value.0, r.value.1, req, now)
    ensures r.Ok? && PartsValid(s.parts.rows) ==> PartsValid(r.value.0.parts.rows)
  {
    CreateServiceRecordWith(s, req, now, true)
  }

  /** `record.update(fields)`: Sequelize skips the keys whose value is
      `undefined`, so an absent field keeps its value and a present one
      replaces it, falsy or not. */
  function ApplyUpdate(rec: ServiceRecord, req: RecordRequest): ServiceRecord {
    rec.(
      carId := OrElse(req.carId, rec.carId),
      serviceId := OrElse(req.serviceId, rec.serviceId),
      startDate := OrElse(req.startDate, rec.startDate),
      endDate := if req.endDate.Some? then req.endDate else rec.endDate,
      status := OrElse(req.status, rec.status),
      cost := OrElse(req.cost, rec.cost),
      technician := OrElse(req.technician, rec.technician),
      notes := if req.notes.Some? then req.notes else rec.notes)
  }

  /** The parts of record `rid` in `t` are replaced by `ps`, in list order
      under fresh ids, and every other part stays as it was. */
  ghost predicate Replaced(t: Table<Part>, t': Table<Part>, rid: nat, ps: seq<PartRequest>) {
    && t'.nextId == t.nextId + |ps|
    && (forall id :: id in t.rows && t.rows[id].serviceRecordId != rid ==> id in t'.rows && t'.rows[id] == t.rows[id])
    && (forall id :: id in t'.rows ==> (id in t.rows && t.rows[id].serviceRecordId != rid) || t.nextId <= id < t.nextId + |ps|)
    && (forall k :: 0 <= k < |ps| ==>
          && Slot(t.nextId, k) in t'.rows
          && PartComplete(ps[k])
          && t'.rows[Slot(t.nextId, k)] == ToPart(rid, ps[k]))
  }

  /** Deleting the parts of record `rid` and writing `ps` in their place. */
  function ReplaceParts(t: Table<Part>, rid: nat, ps: seq<PartRequest>, validate: bool): (r: Result<Table<Part>>)
    requires WellFormed(t)
    ensures r.Ok? <==> forall k :: 0 <= k < |ps| ==> Accepted(validate, ps[k])
    ensures r.Err? ==> r.code == ServerError
    ensures r.Ok? ==> WellFormed(r.value) && Replaced(t, r.value, rid, ps)
    ensures r.Ok? && validate && PartsValid(t.rows) ==> PartsValid(r.value.rows)
  {
    var kept := DropParts(t, rid);
    var written := BulkCreate(kept, rid, ps, validate);
    assert PartsValid(t.rows) ==> PartsValid(kept.rows);
    written
  }

  lemma ReplacedAt(t: Table<Part>, t': Table<Part>, rid: nat, ps: seq<PartRequest>, k: nat)
    requires Replaced(t, t', rid, ps) && k < |ps|
    ensures Slot(t.nextId, k) in t'.rows && t'.rows[Slot(t.nextId, k)].serviceRecordId == rid
  {
    assert PartComplete(ps[k]);
    assert t'.rows[Slot(t.nextId, k)] == ToPart(rid, ps[k]);
  }

  /** Replacing the parts of an existing record keeps every part owned. */
  lemma ReplacedOwned(t: Table<Part>, t': Table<Part>, rid: nat, ps: seq<PartRequest>,
                      records: map<nat, ServiceRecord>, records': map<nat, ServiceRecord>)
    requires Replaced(t, t', rid, ps)
    requires PartsOwned(t.rows, records)
    requires records.Keys <= records'.Keys && rid in records'
    ensures PartsOwned(t'.rows, records')
  {
    forall id | id in t'.rows
      ensures t'.rows[id].serviceRecordId in records'
    {
      if !(id in t.rows && t.rows[id].serviceRecordId != rid) {
        var k := id - t.nextId;
        assert Slot(t.nextId, k) == id;
        assert Slot(t.nextId, k) in t'.rows && t'.rows[Slot(t.nextId, k)] == ToPart(rid, ps[k]);
      }
    }
  }

  /** What a successful update leaves behind: the record's fields updated
      in place and, when `partsUsed` is present, its parts replaced. */
  ghost predicate RecordUpdated(s: Store, s': Store, id: nat, req: RecordRequest)
    requires id in s.records.rows
  {
    && Valid(s')
    && s'.cars == s.cars && s'.services == s.services && s'.payments == s.payments
    && s'.records.nextId == s.records.nextId
    && s'.records.rows == s.records.rows[id := ApplyUpdate(s.records.rows[id], req)]
    && (req.partsUsed.None? ==> s'.parts == s.parts)
    && (req.partsUsed.Some? ==> Replaced(s.parts, s'.parts, id, req.partsUsed.value))
  }

  /** The update handler, with the part writer's `validate` option as a
      parameter. The record's fields are updated; when `partsUsed` is
      present (even `[]`) the record's parts are deleted and the given ones
      written in their place. */
  function UpdateServiceRecordWith(s: Store, id: nat, req: RecordRequest, validate: bool): (r: Result<Store>)
    requires Valid(s)
    ensures r == Err(NotFound) <==> id !in s.records.rows
    ensures r.Ok? <==> id in s.records.rows && forall k :: 0 <= k < |PartsGiven(req)| ==> Accepted(validate, PartsGiven(req)[k])
    ensures r.Err? ==> r.code == NotFound || r.code == ServerError
    ensures r.Ok? ==> RecordUpdated(s, r.value, id, req)
    ensures r.Ok? && validate && PartsValid(s.parts.rows) ==> PartsValid(r.value.parts.rows)
  {
    if id !in s.records.rows then Err(NotFound)
    else
      var records := s.records.(rows := s.records.rows[id := ApplyUpdate(s.records.rows[id], req)]);
      if req.partsUsed.None? then Ok(s.(records := records))
      else
        var written := ReplaceParts(s.parts, id, req.partsUsed.value, validate);
        assert PartsGiven(req) == req.partsUsed.value;
        if written.Err? then Err(ServerError)
        else
          ReplacedOwned(s.parts, written.value, id, req.partsUsed.value, s.records.rows, records.rows);
          Ok(s.(records := records, parts := written.value))
  }

  /** PUT /api/service-records/:id as written: replacement parts are stored
      as soon as their NOT NULL columns are supplied. */
  function UpdateServiceRecord(s: Store, id: nat, req: RecordRequest): (r: Result<Store>)
    requires Valid(s)
    ensures r == Err(NotFound) <==> id !in s.records.rows
    ensures r.Ok? <==> id in s.records.rows && forall k :: 0 <= k < |PartsGiven(req)| ==> PartComplete(PartsGiven(req)[k])
    ensures r.Err? ==> r.code == NotFound || r.code == ServerError
    ensures r.Ok? ==> RecordUpdated(s, r.value, id, req)
  {
    UpdateServiceRecordWith(s, id, req, false)
  }

  /** The update handler with the parts model's validators applied to the
      replacement parts, keeping every stored part valid. */
  function UpdateServiceRecordValidated(s: Store, id: nat, req: RecordRequest): (r: Result<Store>)
    requires Valid(s)
    ensures r == Err(NotFound) <==> id !in s.records.rows
    ensures r.Ok? <==> id in s.records.rows && forall k :: 0 <= k < |PartsGiven(req)| ==> PassesValidators(PartsGiven(req)[k])
    ensures r.Err? ==> r.code == NotFound || r.code == ServerError
    ensures r.Ok? ==> RecordUpdated(s, r.value, id, req)
    ensures r.Ok? && PartsValid(s.parts.rows) ==> PartsValid(r.value.parts.rows)
  {
    UpdateServiceRecordWith(s, id, req, true)
  }

  /** DELETE /api/service-records/:id removes the record and every part
      that belongs to it. Payments are left in place, so a payment may go
      on naming a record that no longer exists. */
  function DeleteServiceRecord(s: Store, id: nat): (r: Result<Store>)
    requires Valid(s)
    ensures r.Ok? <==> id in s.records.rows
    ensures r.Err? ==> r.code == NotFound
    ensures r.Ok? ==>
      && Valid(r.value)
      && r.value.cars == s.cars && r.value.services == s.services && r.value.payments == s.payments
      && id !in r.value.records.rows
      && (forall j :: j != id ==> (j in r.value.records.rows <==> j in s.records.rows))
      && (forall j :: j in r.value.records.rows ==> r.value.records.rows[j] == s.records.rows[j])
      && (forall p :: p in r.value.parts.rows <==> p in s.parts.rows && s.parts.rows[p].serviceRecordId != id)
      && (forall p :: p in r.value.parts.rows ==> r.value.parts.rows[p] == s.parts.rows[p])
  {
    if id !in s.records.rows then Err(NotFound)
    else Ok(s.(records := Remove(s.records, id), parts := DropParts(s.parts, id)))
  }

  /** GET /api/service-records/:id, without the joined car, service and parts. */
  function GetServiceRecordById(s: Store, id: nat): (r: Result<ServiceRecord>)
    ensures r.Ok? <==> id in s.records.rows
    ensures r.Err? ==> r.code == NotFound
    ensures r.Ok? ==> r.value == s.records.rows[id]
  {
    if id in s.records.rows then Ok(s.records.rows[id]) else Err(NotFound)
  }

  /** `order: [['createdAt', 'DESC']]`. */
  predicate NewerRecord(a: (nat, ServiceRecord), b: (nat, ServiceRecord)) {
    a.1.createdAt >= b.1.createdAt
  }

  /** GET /api/service-records: every record once, newest first. */
  function GetServiceRecords(s: Store): (r: seq<(nat, ServiceRecord)>)
    requires Valid(s)
    ensures Lists(r, s.records.rows)
    ensures Sorted(r, NewerRecord)
  {
    Listing(s.records, NewerRecord)
  }

  function CarOf(row: (nat, ServiceRecord)): nat {
    row.1.carId
  }

  /** GET /api/service-records/car/:carId: exactly the records of that car,
      each once, newest first. */
  function GetServiceRecordsByCar(s: Store, carId: nat): (r: seq<(nat, ServiceRecord)>)
    requires Valid(s)
    ensures forall row :: row in r <==> row.0 in s.records.rows && row.1 == s.records.rows[row.0] && row.1.carId == carId
    ensures forall i, j :: 0 <= i < j < |r| ==> r[i].0 != r[j].0
    ensures Sorted(r, NewerRecord)
  {
    ListingWhere(s.records, CarOf, carId, NewerRecord)
  }

  /** With `partsUsed` present, the parts of the record are exactly the new
      ones: those with the fresh ids, and no part that was there before. */
  lemma ReplacedPartsExactly(s: Store, id: nat, req: RecordRequest)
    requires Valid(s)
    requires UpdateServiceRecord(s, id, req).Ok? && req.partsUsed.Some?
    ensures var t' := UpdateServiceRecord(s, id, req).value.parts;
            forall p :: p in t'.rows && t'.rows[p].serviceRecordId == id
                        <==> s.parts.nextId <= p < s.parts.nextId + |req.partsUsed.value|
  {
    var t' := UpdateServiceRecord(s, id, req).value.parts;
    var ps := req.partsUsed.value;
    assert Replaced(s.parts, t', id, ps);
    forall p | s.parts.nextId <= p < s.parts.nextId + |ps|
      ensures p in t'.rows && t'.rows[p].serviceRecordId == id
    {
      var k := p - s.parts.nextId;
      assert 0 <= k < |ps| && Slot(s.parts.nextId, k) == p;
      ReplacedAt(s.parts, t', id, ps, k);
    }
  }

  /** Updating with `partsUsed: []` removes every part of the record, and
      repeating the same update changes nothing more. */
  lemma EmptyPartsUpdateIdempotent(s: Store, id: nat, req: RecordRequest)
    requires Valid(s) && id in s.records.rows
    requires req.partsUsed == Some([])
    ensures UpdateServiceRecord(s, id, req).Ok?
    ensures var s' := UpdateServiceRecord(s, id, req).value;
            && (forall p :: p in s'.parts.rows ==> s'.parts.rows[p].serviceRecordId != id)
            && UpdateServiceRecord(s', id, req) == Ok(s')
  {
    var s' := UpdateServiceRecord(s, id, req).value;
    ReplacedNothing(s.parts, s'.parts, id);
    var again := UpdateServiceRecord(s', id, req);
    assert again.Ok?;
    SameUpdateAgain(s, s', again.value, id, req);
  }

  /** The second `partsUsed: []` update finds nothing left to change. */
  lemma SameUpdateAgain(s: Store, s': Store, s'': Store, id: nat, req: RecordRequest)
    requires id in s.records.rows && id in s'.records.rows
    requires req.partsUsed == Some([])
    requires RecordUpdated(s, s', id, req) && RecordUpdated(s', s'', id, req)
    ensures s'' == s'
  {
    ReplacedNothing(s.parts, s'.parts, id);
    ReplacedNothing(s'.parts, s''.parts, id);
    assert s''.parts.rows == s'.parts.rows;
    assert ApplyUpdate(ApplyUpdate(s.records.rows[id], req), req) == ApplyUpdate(s.records.rows[id], req);
    assert s''.records.rows == s'.records.rows;
  }

  /** Replacing a record's parts by none keeps exactly the other parts. */
  lemma ReplacedNothing(t: Table<Part>, t': Table<Part>, rid: nat)
    requires Replaced(t, t', rid, [])
    ensures forall p :: p in t'.rows <==> p in t.rows && t.rows[p].serviceRecordId != rid
    ensures forall p :: p in t'.rows ==> t'.rows[p] == t.rows[p]
    ensures t'.nextId == t.nextId
  {
  }

  /** Without `partsUsed`, a present field overwrites even when it is falsy:
      a cost of 0 is stored, unlike the `||` updates of cars and services. */
  lemma UpdateStoresFalsyCost(s: Store, id: nat, req: RecordRequest)
    requires Valid(s) && id in s.records.rows
    requires req.cost == Some(0) && req.partsUsed.None?
    ensures UpdateServiceRecord(s, id, req).Ok?
    ensures UpdateServiceRecord(s, id, req).value.records.rows[id].cost == 0
  {
  }

  /** Deleting a record keeps the payments that name it. */
  lemma DeleteKeepsPayments(s: Store, id: nat, pid: nat)
    requires Valid(s) && id in s.records.rows
    requires pid in s.payments.rows && s.payments.rows[pid].serviceRecordId == id
    ensures var s' := DeleteServiceRecord(s, id).value;
            pid in s'.payments.rows && s'.payments.rows[pid].serviceRecordId !in s'.records.rows
  {
  }

  /** As written, the part writer stores a part with quantity 0, which the
      parts model declares invalid. */
  lemma AsWrittenStoresZeroQuantity()
    ensures var ps := [PartRequest(Some("Oil filter"), Some(0), Some(850))];
            var r := WritePartsAsWritten(Empty(), 1, ps);
            r.Ok? && 1 in r.value.rows && !PartValid(r.value.rows[1])
  {
    var ps := [PartRequest(Some("Oil filter"), Some(0), Some(850))];
    var r := WritePartsAsWritten(Empty(), 1, ps);
    assert r.value.rows[Slot(Empty<Part>().nextId, 0)] == ToPart(1, ps[0]);
  }

  /** The corrected writer refuses the same request. */
  lemma CorrectedRejectsZeroQuantity()
    ensures WriteParts(Empty(), 1, [PartRequest(Some("Oil filter"), Some(0), Some(850))]) == Err(ServerError)
  {
    var ps := [PartRequest(Some("Oil filter"), Some(0), Some(850))];
    assert !PassesValidators(ps[0]);
  }

  /** The same request sent to the create handler as written is answered
      with success and leaves a part of quantity 0 in the store. */
  lemma CreateStoresZeroQuantityPart(req: RecordRequest, now: int)
    requires HasRequiredFields(req)
    requires req.partsUsed == Some([PartRequest(Some("Oil filter"), Some(0), Some(850))])
    ensures var r := CreateServiceRecord(EmptyStore(), req, now);
            r.Ok? && 1 in r.value.0.parts.rows && !PartValid(r.value.0.parts.rows[1])
  {
    EmptyStoreValid();
    var ps := PartsGiven(req);
    assert PartComplete(ps[0]);
    var r := CreateServiceRecord(EmptyStore(), req, now);
    assert Slot(EmptyStore().parts.nextId, 0) == 1;
    assert r.value.0.parts.rows[1] == ToPart(r.value.1, ps[0]);
  }

  /** The corrected create handler refuses it with a 500. */
  lemma ValidatedCreateRejectsZeroQuantity(req: RecordRequest, now: int)
    requires req.partsUsed == Some([PartRequest(Some("Oil filter"), Some(0), Some(850))])
    ensures CreateServiceRecordValidated(EmptyStore(), req, now) == Err(ServerError)
  {
    EmptyStoreValid();
    assert !PassesValidators(PartsGiven(req)[0]);
  }
}
