/** The service catalogue controller: list, get, create, update and delete. */
module Services {
  import opened Common
  import opened Tables
  import opened Sorting
  import opened Models
  import opened Store

  /** The fields of a create or update request body, already parsed. */
  datatype ServiceRequest = ServiceRequest(
    name: Option<string>,
    description: Option<string>,
    basePrice: Option<int>,
    duration: Option<int>,
    status: Option<ActiveStatus>)

  /** Some service other than `self` is already called `name`. */
  predicate NameTaken(services: map<nat, Service>, name: string, self: Option<nat>) {
    exists id :: id in services && Some(id) != self && services[id].name == name
  }

  /** The stored service carries the request's fields; the description is
      stored as given, a falsy duration becomes 60 minutes and an absent
      status becomes active. */
  ghost predicate CreatedFrom(svc: Service, req: ServiceRequest)
    requires Truthy(req.name) && TruthyInt(req.basePrice)
  {
    && svc.name == req.name.value
    && svc.description == req.description
    && svc.basePrice == req.basePrice.value
    && svc.duration == (if TruthyInt(req.duration) then req.duration.value else DefaultDuration)
    && svc.status == (if req.status.Some? then req.status.value else DefaultServiceStatus)
  }

  /** POST /api/services. A falsy name or base price (so a price of 0 too)
      is a 400, and so is a name already in use. */
  function CreateService(s: Store, req: ServiceRequest): (r: Result<(Store, nat)>)
    requires Valid(s)
    ensures r.Ok? <==> Truthy(req.name) && TruthyInt(req.basePrice) && !NameTaken(s.services.rows, req.name.value, None)
    ensures r.Err? ==> r.code == BadRequest
    ensures r.Ok? ==>
      && Valid(r.value.0)
      && r.value.1 !in s.services.rows
      && r.value.1 in r.value.0.services.rows
      && r.value.0.services.rows == s.services.rows[r.value.1 := r.value.0.services.rows[r.value.1]]
      && r.value.0 == s.(services := r.value.0.services)
      && CreatedFrom(r.value.0.services.rows[r.value.1], req)
  {
    if !Truthy(req.name) || !TruthyInt(req.basePrice) then Err(BadRequest)
    else if NameTaken(s.services.rows, req.name.value, None) then Err(BadRequest)
    else
      var svc := Service(
        req.name.value, req.description, req.basePrice.value,
        OrInt(req.duration, DefaultDuration), OrElse(req.status, DefaultServiceStatus));
      var (services, id) := Insert(s.services, svc);
      Ok((s.(services := services), id))
  }

  /** The service after a partial update: each falsy field keeps its value. */
  function MergeService(svc: Service, req: ServiceRequest): Service {
    svc.(
      name := OrStr(req.name, svc.name),
      description := if Truthy(req.description) then req.description else svc.description,
      basePrice := OrInt(req.basePrice, svc.basePrice),
      duration := OrInt(req.duration, svc.duration),
      status := OrElse(req.status, svc.status))
  }

  /** `x || old` for every field: a truthy field is stored, a falsy one
      keeps the old value. */
  ghost predicate UpdatedFields(was: Service, svc: Service, req: ServiceRequest) {
    && (Truthy(req.name) ==> svc.name == req.name.value)
    && (!Truthy(req.name) ==> svc.name == was.name)
    && (Truthy(req.description) ==> svc.description == req.description)
    && (!Truthy(req.description) ==> svc.description == was.description)
    && (TruthyInt(req.basePrice) ==> svc.basePrice == req.basePrice.value)
    && (!TruthyInt(req.basePrice) ==> svc.basePrice == was.basePrice)
    && (TruthyInt(req.duration) ==> svc.duration == req.duration.value)
    && (!TruthyInt(req.duration) ==> svc.duration == was.duration)
    && (req.status.Some? ==> svc.status == req.status.value)
    && (req.status.None? ==> svc.status == was.status)
  }

  /** PUT /api/services/:id. The name is checked only when it is truthy and
      differs from the current one; with names already unique this rejects
      exactly the updates that would give another service's name. */
  function UpdateService(s: Store, id: nat, req: ServiceRequest): (r: Result<Store>)
    requires Valid(s)
    ensures r == Err(NotFound) <==> id !in s.services.rows
    ensures r == Err(BadRequest) <==>
      id in s.services.rows && NameTaken(s.services.rows, OrStr(req.name, s.services.rows[id].name), Some(id))
    ensures r.Err? ==> r.code != ServerError
    ensures r.Ok? ==>
      && Valid(r.value)
      && r.value == s.(services := r.value.services)
      && r.value.services.nextId == s.services.nextId
      && r.value.services.rows.Keys == s.services.rows.Keys
      && (forall j :: j in s.services.rows && j != id ==> r.value.services.rows[j] == s.services.rows[j])
    ensures r.Ok? ==> UpdatedFields(s.services.rows[id], r.value.services.rows[id], req)
  {
    if id !in s.services.rows then Err(NotFound)
    else
      var svc := s.services.rows[id];
      var renames := Truthy(req.name) && req.name.value != svc.name;
      if renames && NameTaken(s.services.rows, req.name.value, None) then Err(BadRequest)
      else
        assert !NameTaken(s.services.rows, OrStr(req.name, svc.name), Some(id)) by {
          if !renames {
            assert OrStr(req.name, svc.name) == svc.name;
          }
        }
        Ok(s.(services := s.services.(rows := s.services.rows[id := MergeService(svc, req)])))
  }

  /** DELETE /api/services/:id removes exactly that service. */
  function DeleteService(s: Store, id: nat): (r: Result<Store>)
    requires Valid(s)
    ensures r.Ok? <==> id in s.services.rows
    ensures r.Err? ==> r.code == NotFound
    ensures r.Ok? ==>
      && Valid(r.value)
      && r.value == s.(services := r.value.services)
      && id !in r.value.services.rows
      && (forall j :: j != id ==> (j in r.value.services.rows <==> j in s.services.rows))
      && (forall j :: j in r.value.services.rows ==> r.value.services.rows[j] == s.services.rows[j])
  {
    if id !in s.services.rows then Err(NotFound)
    else Ok(s.(services := Remove(s.services, id)))
  }

  /** GET /api/services/:id. */
  function GetServiceById(s: Store, id: nat): (r: Result<Service>)
    ensures r.Ok? <==> id in s.services.rows
    ensures r.Err? ==> r.code == NotFound
    ensures r.Ok? ==> r.value == s.services.rows[id]
  {
    if id in s.services.rows then Ok(s.services.rows[id]) else Err(NotFound)
  }

  /** `order: [['name', 'ASC']]`. */
  predicate ByName(a: (nat, Service), b: (nat, Service)) {
    LexLe(a.1.name, b.1.name)
  }

  lemma ByNameTotalPreorder()
    ensures TotalPreorder(ByName)
  {
    forall a: (nat, Service), b: (nat, Service)
      ensures ByName(a, b) || ByName(b, a)
    {
      LexLeTotal(a.1.name, b.1.name);
    }
    forall a: (nat, Service), b: (nat, Service), c: (nat, Service) | ByName(a, b) && ByName(b, c)
      ensures ByName(a, c)
    {
      LexLeTransitive(a.1.name, b.1.name, c.1.name);
    }
  }

  /** GET /api/services: every service once, in ascending name order. */
  function GetServices(s: Store): (r: seq<(nat, Service)>)
    requires Valid(s)
    ensures Lists(r, s.services.rows)
    ensures forall i, j :: 0 <= i < j < |r| ==> LexLe(r[i].1.name, r[j].1.name)
  {
    ByNameTotalPreorder();
    Listing(s.services, ByName)
  }

  /** Since names are unique, the listing is strictly increasing by name. */
  lemma GetServicesStrictlyOrdered(s: Store)
    requires Valid(s)
    ensures var r := GetServices(s);
            forall i, j :: 0 <= i < j < |r| ==> r[i].1.name != r[j].1.name
  {
    var r := GetServices(s);
    forall i, j | 0 <= i < j < |r|
      ensures r[i].1.name != r[j].1.name
    {
      assert r[i].0 != r[j].0;
    }
  }

  /** A created service is found by its new id with exactly the submitted
      fields and defaults. */
  lemma CreateThenGet(s: Store, req: ServiceRequest)
    requires Valid(s)
    requires CreateService(s, req).Ok?
    ensures var (s', id) := CreateService(s, req).value;
            GetServiceById(s', id).Ok? && CreatedFrom(GetServiceById(s', id).value, req)
  {
  }

  /** A second service with a name already in use is refused with 400,
      whatever else it carries. */
  lemma SecondCreateSameNameRejected(s: Store, req: ServiceRequest, req2: ServiceRequest)
    requires Valid(s)
    requires CreateService(s, req).Ok?
    requires req2.name == req.name
    ensures CreateService(CreateService(s, req).value.0, req2) == Err(BadRequest)
  {
    var (s', id) := CreateService(s, req).value;
    assert s'.services.rows[id].name == req2.name.value;
  }

  /** A base price of 0 is falsy, so such a service cannot be created even
      though the column would accept it. */
  lemma ZeroPriceRejected(s: Store, req: ServiceRequest)
    requires Valid(s)
    requires req.basePrice == Some(0)
    ensures CreateService(s, req) == Err(BadRequest)
  {
  }

  /** An update whose fields are all falsy leaves the store as it was. */
  lemma UpdateWithFalsyFieldsIsNoOp(s: Store, id: nat, req: ServiceRequest)
    requires Valid(s) && id in s.services.rows
    requires !Truthy(req.name) && !Truthy(req.description)
    requires !TruthyInt(req.basePrice) && !TruthyInt(req.duration) && req.status.None?
    ensures UpdateService(s, id, req) == Ok(s)
  {
    assert MergeService(s.services.rows[id], req) == s.services.rows[id];
    assert s.services.rows[id := s.services.rows[id]] == s.services.rows;
  }
}
