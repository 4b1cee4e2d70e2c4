/** The stored documents. Reference-typed properties that a request body may
    leave null are Options; value-typed ones (decimal, double, bool, DateTime)
    always hold a value. decimal and double are both exact reals here. */
module Models {
  import opened Wrappers
  import opened Calendar

  datatype ParkingArea = ParkingArea(
    id: Option<string>,
    name: Option<string>,
    location: Option<string>,
    weekdaysHourlyRateUsd: real,
    weekendHourlyRateUsd: real,
    discountPercentage: real,
    description: Option<string>,
    isActive: bool)

  /** The amounts a client records when it pays; only AmountUsd is read here. */
  datatype PaymentResult = PaymentResult(amountUsd: real, amountEur: real, amountPln: real)

  datatype ParkingFee = ParkingFee(
    id: Option<string>,
    parkingAreaId: Option<string>,
    startTime: DateTime,
    endTime: DateTime,
    parkingDate: DateTime,
    paymentResult: Option<PaymentResult>)

  function AreaId(a: ParkingArea): Option<string> { a.id }

  function AreaWithId(a: ParkingArea, id: string): ParkingArea { a.(id := Some(id)) }

  function FeeId(f: ParkingFee): Option<string> { f.id }

  function FeeWithId(f: ParkingFee, id: string): ParkingFee { f.(id := Some(id)) }
}
