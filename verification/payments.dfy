/** The payment controller. Payments refer to service records by id; the
    controller checks that reference when a payment is created and when an
    update moves it to another record. */
module Payments {
  import opened Common
  import opened Tables
  import opened Sorting
  import opened Models
  import opened Store

  /** The body of a create request. The payment model's own column rules
      are not part of this model, so every column but the record reference
      is taken as supplied and well typed. */
  datatype NewPayment = NewPayment(
    serviceRecordId: Option<nat>,
    amount: int,
    paymentDate: int,
    paymentMethod: PaymentMethod,
    status: PaymentStatus,
    transactionId: Option<string>,
    notes: Option<string>)

  /** The body of an update request: any field may be left out. */
  datatype PaymentChanges = PaymentChanges(
    serviceRecordId: Option<nat>,
    amount: Option<int>,
    paymentDate: Option<int>,
    paymentMethod: Option<PaymentMethod>,
    status: Option<PaymentStatus>,
    transactionId: Option<string>,
    notes: Option<string>)

  /** POST /api/payments: 404 unless the referenced service record exists. */
  function CreatePayment(s: Store, req: NewPayment, now: int): (r: Result<(Store, nat)>)
    requires Valid(s)
    ensures r.Ok? <==> req.serviceRecordId.Some? && req.serviceRecordId.value in s.records.rows
    ensures r.Err? ==> r.code == NotFound
    ensures r.Ok? ==>
      var (s', id) := r.value;
      && Valid(s')
      && s' == s.(payments := s'.payments)
      && id !in s.payments.rows
      && id in s'.payments.rows
      && s'.payments.rows == s.payments.rows[id := s'.payments.rows[id]]
      && s'.payments.rows[id] == Payment(
           req.serviceRecordId.value, req.amount, req.paymentDate, req.paymentMethod,
           req.status, req.transactionId, req.notes, now)
  {
    if req.serviceRecordId.None? || req.serviceRecordId.value !in s.records.rows then Err(NotFound)
    else
      var payment := Payment(
        req.serviceRecordId.value, req.amount, req.paymentDate, req.paymentMethod,
        req.status, req.transactionId, req.notes, now);
      var (payments, id) := Insert(s.payments, payment);
      Ok((s.(payments := payments), id))
  }

  /** `payment.update(fields)`: absent fields keep their value, present ones
      replace it. */
  function ApplyChanges(p: Payment, req: PaymentChanges): Payment {
    p.(
      serviceRecordId := OrElse(req.serviceRecordId, p.serviceRecordId),
      amount := OrElse(req.amount, p.amount),
      paymentDate := OrElse(req.paymentDate, p.paymentDate),
      paymentMethod := OrElse(req.paymentMethod, p.paymentMethod),
      status := OrElse(req.status, p.status),
      transactionId := if req.transactionId.Some? then req.transactionId else p.transactionId,
      notes := if req.notes.Some? then req.notes else p.notes)
  }

  /** The update moves the payment to another service record: the new id is
      truthy (not 0) and differs from the current one. */
  predicate MovesRecord(p: Payment, req: PaymentChanges) {
    TruthyInt(req.serviceRecordId) && req.serviceRecordId.value != p.serviceRecordId
  }

  /** PUT /api/payments/:id. The referenced record is looked up only when
      the update moves the payment to another record. */
  function UpdatePayment(s: Store, id: nat, req: PaymentChanges): (r: Result<Store>)
    requires Valid(s)
    ensures r.Ok? <==> id in s.payments.rows
                       && (MovesRecord(s.payments.rows[id], req) ==> req.serviceRecordId.value in s.records.rows)
    ensures r.Err? ==> r.code == NotFound
    ensures r.Ok? ==>
      && Valid(r.value)
      && r.value == s.(payments := r.value.payments)
      && r.value.payments.nextId == s.payments.nextId
      && r.value.payments.rows == s.payments.rows[id := ApplyChanges(s.payments.rows[id], req)]
  {
    if id !in s.payments.rows then Err(NotFound)
    else
      var p := s.payments.rows[id];
      if MovesRecord(p, req) && req.serviceRecordId.value !in s.records.rows then Err(NotFound)
      else Ok(s.(payments := s.payments.(rows := s.payments.rows[id := ApplyChanges(p, req)])))
  }

  /** DELETE /api/payments/:id removes exactly that payment. */
  function DeletePayment(s: Store, id: nat): (r: Result<Store>)
    requires Valid(s)
    ensures r.Ok? <==> id in s.payments.rows
    ensures r.Err? ==> r.code == NotFound
    ensures r.Ok? ==>
      && Valid(r.value)
      && r.value == s.(payments := r.value.payments)
      && id !in r.value.payments.rows
      && (forall j :: j != id ==> (j in r.value.payments.rows <==> j in s.payments.rows))
      && (forall j :: j in r.value.payments.rows ==> r.value.payments.rows[j] == s.payments.rows[j])
  {
    if id !in s.payments.rows then Err(NotFound)
    else Ok(s.(payments := Remove(s.payments, id)))
  }

  /** GET /api/payments/:id, without the joined record, car and service. */
  function GetPaymentById(s: Store, id: nat): (r: Result<Payment>)
    ensures r.Ok? <==> id in s.payments.rows
    ensures r.Err? ==> r.code == NotFound
    ensures r.Ok? ==> r.value == s.payments.rows[id]
  {
    if id in s.payments.rows then Ok(s.payments.rows[id]) else Err(NotFound)
  }

  /** `order: [['createdAt', 'DESC']]`. */
  predicate NewerPayment(a: (nat, Payment), b: (nat, Payment)) {
    a.1.createdAt >= b.1.createdAt
  }

  /** GET /api/payments: every payment once, newest first. */
  function GetPayments(s: Store): (r: seq<(nat, Payment)>)
    requires Valid(s)
    ensures Lists(r, s.payments.rows)
    ensures Sorted(r, NewerPayment)
  {
    Listing(s.payments, NewerPayment)
  }

  function RecordOf(row: (nat, Payment)): nat {
    row.1.serviceRecordId
  }

  /** GET /api/payments/service-record/:serviceRecordId: exactly the payments
      naming that record, each once. The query has no `order` clause; the
      model returns them by ascending id. */
  function GetPaymentsByServiceRecord(s: Store, recordId: nat): (r: seq<(nat, Payment)>)
    requires Valid(s)
    ensures forall row :: row in r <==> row.0 in s.payments.rows && row.1 == s.payments.rows[row.0]
                                        && row.1.serviceRecordId == recordId
    ensures forall i, j :: 0 <= i < j < |r| ==> r[i].0 != r[j].0
  {
    ListingWhere(s.payments, RecordOf, recordId, ById)
  }

  /** A created payment is listed under its service record. */
  lemma CreateThenListByRecord(s: Store, req: NewPayment, now: int)
    requires Valid(s)
    requires CreatePayment(s, req, now).Ok?
    ensures var (s', id) := CreatePayment(s, req, now).value;
            (id, s'.payments.rows[id]) in GetPaymentsByServiceRecord(s', req.serviceRecordId.value)
  {
  }

  /** A payment left naming a deleted record can still be updated as long as
      the update does not move it: the reference is then never looked up. */
  lemma UpdateOrphanWithoutMoving(s: Store, id: nat, req: PaymentChanges)
    requires Valid(s) && id in s.payments.rows
    requires s.payments.rows[id].serviceRecordId !in s.records.rows
    requires req.serviceRecordId.None? || req.serviceRecordId == Some(s.payments.rows[id].serviceRecordId)
    ensures UpdatePayment(s, id, req).Ok?
    ensures UpdatePayment(s, id, req).value.payments.rows[id].serviceRecordId !in s.records.rows
  {
  }

  /** Moving a payment to a record that does not exist is refused and the
      payment keeps its record. */
  lemma MoveToMissingRecordRejected(s: Store, id: nat, req: PaymentChanges)
    requires Valid(s) && id in s.payments.rows
    requires MovesRecord(s.payments.rows[id], req) && req.serviceRecordId.value !in s.records.rows
    ensures UpdatePayment(s, id, req) == Err(NotFound)
  {
  }
}
