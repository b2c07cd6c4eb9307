/** The car controller: list, get, create, update and delete, each as a
    pure transition on the store. */
module Cars {
  import opened Common
  import opened Tables
  import opened Sorting
  import opened Models
  import opened Store

  /** The fields of a create or update request body, already parsed. */
  datatype CarRequest = CarRequest(
    make: Option<string>,
    model: Option<string>,
    year: Option<int>,
    licensePlate: Option<string>,
    vin: Option<string>,
    color: Option<string>,
    mileage: Option<int>,
    status: Option<ActiveStatus>)

  /** Make, model, year, licence plate and VIN are all truthy. */
  predicate HasRequiredFields(req: CarRequest) {
    && Truthy(req.make)
    && Truthy(req.model)
    && TruthyInt(req.year)
    && Truthy(req.licensePlate)
    && Truthy(req.vin)
  }

  /** A car other than `self` already uses `vin` or `plate`. */
  predicate Clash(cars: map<nat, Car>, vin: string, plate: string, self: Option<nat>) {
    exists id :: id in cars && Some(id) != self && (cars[id].vin == vin || cars[id].licensePlate == plate)
  }

  /** The stored car carries the request's fields, with the defaults for
      the optional ones: mileage 0 when falsy, status active when absent. */
  ghost predicate CreatedFrom(car: Car, req: CarRequest, now: int)
    requires HasRequiredFields(req) && Truthy(req.color)
  {
    && car.make == req.make.value
    && car.model == req.model.value
    && car.year == req.year.value
    && car.licensePlate == req.licensePlate.value
    && car.vin == req.vin.value
    && car.color == req.color.value
    && car.mileage == (if TruthyInt(req.mileage) then req.mileage.value else DefaultMileage)
    && car.status == (if req.status.Some? then req.status.value else DefaultCarStatus)
    && car.createdAt == now
  }

  /** POST /api/cars. Missing required fields or a VIN or plate already in
      use answer 400. A falsy colour is written as null, which the NOT NULL
      colour column rejects, so that request ends in a 500. */
  function CreateCar(s: Store, req: CarRequest, now: int): (r: Result<(Store, nat)>)
    requires Valid(s)
    ensures !HasRequiredFields(req) ==> r == Err(BadRequest)
    ensures HasRequiredFields(req) && Clash(s.cars.rows, req.vin.value, req.licensePlate.value, None)
            ==> r == Err(BadRequest)
    ensures r.Ok? <==> HasRequiredFields(req)
                       && !Clash(s.cars.rows, req.vin.value, req.licensePlate.value, None)
                       && Truthy(req.color)
    ensures (HasRequiredFields(req) && !Clash(s.cars.rows, req.vin.value, req.licensePlate.value, None)
             && !Truthy(req.color)) ==> r == Err(ServerError)
    ensures r.Ok? ==>
      && Valid(r.value.0)
      && r.value.1 !in s.cars.rows
      && r.value.1 in r.value.0.cars.rows
      && r.value.0.cars.rows == s.cars.rows[r.value.1 := r.value.0.cars.rows[r.value.1]]
      && r.value.0 == s.(cars := r.value.0.cars)
      && CreatedFrom(r.value.0.cars.rows[r.value.1], req, now)
  {
    if !HasRequiredFields(req) then Err(BadRequest)
    else if Clash(s.cars.rows, req.vin.value, req.licensePlate.value, None) then Err(BadRequest)
    else
      var color := if Truthy(req.color) then Some(req.color.value) else None;
      if color.None? then Err(ServerError)
      else
        var car := Car(
          req.make.value, req.model.value, req.year.value, req.licensePlate.value, req.vin.value,
          color.value, OrInt(req.mileage, DefaultMileage), OrElse(req.status, DefaultCarStatus), now);
        var (cars, id) := Insert(s.cars, car);
        Ok((s.(cars := cars), id))
  }

  /** The car after a partial update: each falsy field keeps its value. */
  function MergeCar(car: Car, req: CarRequest): Car {
    car.(
      make := OrStr(req.make, car.make),
      model := OrStr(req.model, car.model),
      year := OrInt(req.year, car.year),
      licensePlate := OrStr(req.licensePlate, car.licensePlate),
      vin := OrStr(req.vin, car.vin),
      color := OrStr(req.color, car.color),
      mileage := OrInt(req.mileage, car.mileage),
      status := OrElse(req.status, car.status))
  }

  /** PUT /api/cars/:id. The duplicate check runs only when the VIN or the
      plate changes and skips the car itself; because the stored cars are
      already unique, this rejects exactly the updates that would make
      another car share the resulting VIN or plate. */
  function UpdateCar(s: Store, id: nat, req: CarRequest): (r: Result<Store>)
    requires Valid(s)
    ensures r == Err(NotFound) <==> id !in s.cars.rows
    ensures r == Err(BadRequest) <==>
      id in s.cars.rows
      && Clash(s.cars.rows, OrStr(req.vin, s.cars.rows[id].vin),
               OrStr(req.licensePlate, s.cars.rows[id].licensePlate), Some(id))
    ensures r.Err? ==> r.code != ServerError
    ensures r.Ok? ==>
      && Valid(r.value)
      && r.value == s.(cars := r.value.cars)
      && r.value.cars.nextId == s.cars.nextId
      && r.value.cars.rows.Keys == s.cars.rows.Keys
      && (forall j :: j in s.cars.rows && j != id ==> r.value.cars.rows[j] == s.cars.rows[j])
  {
    if id !in s.cars.rows then Err(NotFound)
    else
      var car := s.cars.rows[id];
      var vin := OrStr(req.vin, car.vin);
      var plate := OrStr(req.licensePlate, car.licensePlate);
      var changes := (Truthy(req.vin) && req.vin.value != car.vin)
                  || (Truthy(req.licensePlate) && req.licensePlate.value != car.licensePlate);
      if changes && Clash(s.cars.rows, vin, plate, Some(id)) then Err(BadRequest)
      else
        assert !Clash(s.cars.rows, vin, plate, Some(id)) by {
          if !changes {
            assert vin == car.vin && plate == car.licensePlate;
          }
        }
        Ok(s.(cars := s.cars.(rows := s.cars.rows[id := MergeCar(car, req)])))
  }

  /** DELETE /api/cars/:id removes exactly that car. */
  function DeleteCar(s: Store, id: nat): (r: Result<Store>)
    requires Valid(s)
    ensures r.Ok? <==> id in s.cars.rows
    ensures r.Err? ==> r.code == NotFound
    ensures r.Ok? ==>
      && Valid(r.value)
      && r.value == s.(cars := r.value.cars)
      && id !in r.value.cars.rows
      && (forall j :: j != id ==> (j in r.value.cars.rows <==> j in s.cars.rows))
      && (forall j :: j in r.value.cars.rows ==> r.value.cars.rows[j] == s.cars.rows[j])
  {
    if id !in s.cars.rows then Err(NotFound)
    else Ok(s.(cars := Remove(s.cars, id)))
  }

  /** GET /api/cars/:id. */
  function GetCarById(s: Store, id: nat): (r: Result<Car>)
    ensures r.Ok? <==> id in s.cars.rows
    ensures r.Err? ==> r.code == NotFound
    ensures r.Ok? ==> r.value == s.cars.rows[id]
  {
    if id in s.cars.rows then Ok(s.cars.rows[id]) else Err(NotFound)
  }

  /** `order: [['createdAt', 'DESC']]`. */
  predicate NewerCar(a: (nat, Car), b: (nat, Car)) {
    a.1.createdAt >= b.1.createdAt
  }

  /** GET /api/cars: every car once, newest first. */
  function GetCars(s: Store): (r: seq<(nat, Car)>)
    requires Valid(s)
    ensures Lists(r, s.cars.rows)
    ensures Sorted(r, NewerCar)
  {
    Listing(s.cars, NewerCar)
  }

  /** A created car is found by its new id with exactly the submitted fields. */
  lemma CreateThenGet(s: Store, req: CarRequest, now: int)
    requires Valid(s)
    requires CreateCar(s, req, now).Ok?
    ensures var (s', id) := CreateCar(s, req, now).value;
            GetCarById(s', id).Ok? && CreatedFrom(GetCarById(s', id).value, req, now)
  {
  }

  /** After a car is created, a second car with the same VIN is refused
      with 400 whatever its plate, and nothing is written. */
  lemma SecondCreateSameVinRejected(s: Store, req: CarRequest, now: int, req2: CarRequest, later: int)
    requires Valid(s)
    requires CreateCar(s, req, now).Ok?
    requires HasRequiredFields(req2) && req2.vin == req.vin
    ensures CreateCar(CreateCar(s, req, now).value.0, req2, later) == Err(BadRequest)
  {
    var (s', id) := CreateCar(s, req, now).value;
    assert s'.cars.rows[id].vin == req2.vin.value;
  }

  /** An update whose fields are all falsy changes nothing: in particular a
      mileage of 0 never overwrites the stored mileage. */
  lemma UpdateWithFalsyFieldsIsNoOp(s: Store, id: nat, req: CarRequest)
    requires Valid(s) && id in s.cars.rows
    requires !Truthy(req.make) && !Truthy(req.model) && !TruthyInt(req.year)
    requires !Truthy(req.licensePlate) && !Truthy(req.vin) && !Truthy(req.color)
    requires !TruthyInt(req.mileage) && req.status.None?
    ensures UpdateCar(s, id, req) == Ok(s)
  {
    assert MergeCar(s.cars.rows[id], req) == s.cars.rows[id];
    assert s.cars.rows[id := s.cars.rows[id]] == s.cars.rows;
  }

  /** A successful update stores each truthy field and keeps the old value
      of every falsy one. */
  lemma UpdateCarFields(s: Store, id: nat, req: CarRequest)
    requires Valid(s)
    requires UpdateCar(s, id, req).Ok?
    ensures var was := s.cars.rows[id];
            var car := UpdateCar(s, id, req).value.cars.rows[id];
            && (Truthy(req.make) ==> car.make == req.make.value)
            && (!Truthy(req.make) ==> car.make == was.make)
            && (Truthy(req.model) ==> car.model == req.model.value)
            && (!Truthy(req.model) ==> car.model == was.model)
            && (TruthyInt(req.year) ==> car.year == req.year.value)
            && (!TruthyInt(req.year) ==> car.year == was.year)
            && (Truthy(req.licensePlate) ==> car.licensePlate == req.licensePlate.value)
            && (!Truthy(req.licensePlate) ==> car.licensePlate == was.licensePlate)
            && (Truthy(req.vin) ==> car.vin == req.vin.value)
            && (!Truthy(req.vin) ==> car.vin == was.vin)
            && (Truthy(req.color) ==> car.color == req.color.value)
            && (!Truthy(req.color) ==> car.color == was.color)
            && (TruthyInt(req.mileage) ==> car.mileage == req.mileage.value)
            && (!TruthyInt(req.mileage) ==> car.mileage == was.mileage)
            && (req.status.Some? ==> car.status == req.status.value)
            && (req.status.None? ==> car.status == was.status)
            && car.createdAt == was.createdAt
  {
  }

  /** A deleted car can no longer be fetched, and deleting it again is a 404. */
  lemma DeleteThenGet(s: Store, id: nat)
    requires Valid(s)
    requires DeleteCar(s, id).Ok?
    ensures GetCarById(DeleteCar(s, id).value, id) == Err(NotFound)
    ensures DeleteCar(DeleteCar(s, id).value, id) == Err(NotFound)
  {
  }
}
