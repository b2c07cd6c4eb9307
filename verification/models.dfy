/** The entities of the garage database, as the Sequelize models declare
    them: column types, allowed enum values and column defaults. Money is
    in integer cents and timestamps are integers. */
module Models {
  import opened Common

  /** `ENUM('active', 'inactive')`, shared by cars and services. */
  datatype ActiveStatus = Active | Inactive

  /** A car. `licensePlate` and `vin` are unique across cars; `color` is
      declared NOT NULL. */
  datatype Car = Car(
    make: string,
    model: string,
    year: int,
    licensePlate: string,
    vin: string,
    color: string,
    mileage: int,
    status: ActiveStatus,
    createdAt: int)

  const DefaultMileage: int := 0
  const DefaultCarStatus: ActiveStatus := Active

  /** A service offered by the garage; `name` is unique across services.
      `duration` is in minutes. */
  datatype Service = Service(
    name: string,
    description: Option<string>,
    basePrice: int,
    duration: int,
    status: ActiveStatus)

  const DefaultBasePrice: int := 0
  const DefaultDuration: int := 60
  const DefaultServiceStatus: ActiveStatus := Active

  /** `ENUM('pending', 'in_progress', 'completed', 'cancelled')`. */
  datatype RecordStatus = Pending | InProgress | Completed | Cancelled

  /** One car undergoing one service. `carId`, `serviceId`, `startDate`
      and `technician` are NOT NULL; `cost` is NOT NULL with a default. */
  datatype ServiceRecord = ServiceRecord(
    carId: nat,
    serviceId: nat,
    startDate: int,
    endDate: Option<int>,
    status: RecordStatus,
    cost: int,
    technician: string,
    notes: Option<string>,
    createdAt: int)

  const DefaultRecordStatus: RecordStatus := Pending
  const DefaultRecordCost: int := 0

  /** A line of parts consumed by exactly one service record; `cost` is the
      unit cost. */
  datatype Part = Part(serviceRecordId: nat, name: string, quantity: int, cost: int)

  /** The `validate: { min: 1 }` on quantity and `validate: { min: 0 }` on cost. */
  predicate PartValid(p: Part) {
    p.quantity >= 1 && p.cost >= 0
  }

  datatype PaymentMethod = Cash | Credit | Debit | Transfer
  datatype PaymentStatus = PaymentPending | PaymentCompleted | PaymentFailed

  /** A payment towards one service record. */
  datatype Payment = Payment(
    serviceRecordId: nat,
    amount: int,
    paymentDate: int,
    paymentMethod: PaymentMethod,
    status: PaymentStatus,
    transactionId: Option<string>,
    notes: Option<string>,
    createdAt: int)
}
