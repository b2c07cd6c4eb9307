/** The whole database as one immutable value, and the invariants the
    schema and the controllers together are meant to keep. */
module Store {
  import opened Tables
  import opened Models

  datatype Store = Store(
    cars: Table<Car>,
    services: Table<Service>,
    records: Table<ServiceRecord>,
    parts: Table<Part>,
    payments: Table<Payment>)

  function EmptyStore(): Store {
    Store(Empty(), Empty(), Empty(), Empty(), Empty())
  }

  /** No two cars share a VIN, and no two share a licence plate. */
  ghost predicate UniqueCars(cars: map<nat, Car>) {
    forall a, b :: a in cars && b in cars && a != b ==>
      cars[a].vin != cars[b].vin && cars[a].licensePlate != cars[b].licensePlate
  }

  /** No two services share a name. */
  ghost predicate UniqueServiceNames(services: map<nat, Service>) {
    forall a, b :: a in services && b in services && a != b ==> services[a].name != services[b].name
  }

  /** Every part belongs to a service record that exists. */
  ghost predicate PartsOwned(parts: map<nat, Part>, records: map<nat, ServiceRecord>) {
    forall p :: p in parts ==> parts[p].serviceRecordId in records
  }

  /** Every part passes the parts model's validators. The handlers as
      written do not keep this (their part writer skips the validators), so
      it is not part of `Valid`. */
  ghost predicate PartsValid(parts: map<nat, Part>) {
    forall p :: p in parts ==> PartValid(parts[p])
  }

  ghost predicate Valid(s: Store) {
    && WellFormed(s.cars)
    && WellFormed(s.services)
    && WellFormed(s.records)
    && WellFormed(s.parts)
    && WellFormed(s.payments)
    && UniqueCars(s.cars.rows)
    && UniqueServiceNames(s.services.rows)
    && PartsOwned(s.parts.rows, s.records.rows)
  }

  /** The empty database satisfies every invariant. */
  lemma EmptyStoreValid()
    ensures Valid(EmptyStore())
  {
  }
}
