/** ParkingFeeController: each action is a function from the fee store to its
    result and the store afterwards, with URL decoding the parameter `decode`. */
module ParkingFeeController {
  import opened Wrappers
  import opened Calendar
  import opened Models
  import opened BaseRepo
  import opened Actions

  const AreaIdRequired: string := "Parking area ID is required."
  const StartNotBeforeEnd: string := "Start time must be before end time."
  const DateRequired: string := "Parking date is required."

  /** The validation a posted or put fee goes through: an area id, then a
      start strictly before the end, then a parking date other than the
      default. Neither the area's existence nor the amounts are checked. */
  function RunChecks(fee: ParkingFee): (r: Option<string>)
    ensures r.None? <==>
      !IsNullOrEmpty(fee.parkingAreaId) && Ticks(fee.startTime) < Ticks(fee.endTime) && Ticks(fee.parkingDate) != Ticks(MinValue)
    ensures IsNullOrEmpty(fee.parkingAreaId) ==> r == Some(AreaIdRequired)
    ensures !IsNullOrEmpty(fee.parkingAreaId) && Ticks(fee.startTime) >= Ticks(fee.endTime) ==> r == Some(StartNotBeforeEnd)
    ensures !IsNullOrEmpty(fee.parkingAreaId) && Ticks(fee.startTime) < Ticks(fee.endTime) && Ticks(fee.parkingDate) == Ticks(MinValue)
      ==> r == Some(DateRequired)
  {
    if IsNullOrEmpty(fee.parkingAreaId) then Some(AreaIdRequired)
    else if Ticks(fee.startTime) >= Ticks(fee.endTime) then Some(StartNotBeforeEnd)
    else if Ticks(fee.parkingDate) == Ticks(MinValue) then Some(DateRequired)
    else None
  }

  /** An accepted fee starts strictly before it ends on the calendar and has a
      parking date after 0001-01-01 00:00. */
  lemma AcceptedFeeIsOrdered(fee: ParkingFee)
    requires RunChecks(fee).None?
    ensures Precedes(fee.startTime, fee.endTime)
    ensures fee.parkingDate != MinValue && Precedes(MinValue, fee.parkingDate)
  {
    TicksOrder(fee.startTime, fee.endTime);
    TicksOrder(fee.parkingDate, MinValue);
    TicksOrder(MinValue, fee.parkingDate);
  }

  /** The payment and the id play no part in validation, and the area id only
      through being non-empty. */
  lemma RunChecksIgnoresPayment(fee: ParkingFee, payment: Option<PaymentResult>, id: Option<string>, areaId: string)
    requires !IsNullOrEmpty(fee.parkingAreaId) && areaId != ""
    ensures RunChecks(fee) == RunChecks(fee.(paymentResult := payment, id := id, parkingAreaId := Some(areaId)))
  {
  }

  /** GET api/parking_fee/{id}; an empty id is not rejected here. */
  function Get(id: string, decode: string -> string, fees: Store<ParkingFee>): (r: ActionResult<ParkingFee>)
    ensures decode(id) !in fees ==> r == NotFound(None)
    ensures decode(id) in fees ==> r == Ok(fees[decode(id)])
  {
    match BaseRepo.Get(fees, decode(id))
    case None => NotFound(None)
    case Some(fee) => Ok(fee)
  }

  /** The fields `[ApiController]` model validation refuses before the action
      runs: the non-nullable `ParkingAreaId` string and the non-nullable
      `PaymentResult` each carry an implicit `[Required]`. The nullable Id
      and the `DateTime` values are never refused. */
  function InvalidFields(fee: ParkingFee): (r: set<string>)
    ensures "ParkingAreaId" in r <==> MissingText(fee.parkingAreaId)
    ensures "PaymentResult" in r <==> fee.paymentResult.None?
    ensures r <= {"ParkingAreaId", "PaymentResult"}
  {
    (if MissingText(fee.parkingAreaId) then {"ParkingAreaId"} else {}) + (if fee.paymentResult.None? then {"PaymentResult"} else {})
  }

  /** A body that passes model validation never fails the action's own area
      id check: only the times and the date can still be refused. */
  lemma ValidBodyHasAreaId(fee: ParkingFee)
    requires InvalidFields(fee) == {}
    ensures RunChecks(fee) != Some(AreaIdRequired)
    ensures fee.paymentResult.Some?
  {
  }

  /** POST api/parking_fee: an invalid body answers 400 with its failing
      fields and a failing check answers 400 with its message, storing
      nothing; otherwise the fee is stored under its Id (or a generated one)
      and returned with that Id. */
  function Create(fee: ParkingFee, fees: Store<ParkingFee>, generatedId: string): (r: (ActionResult<ParkingFee>, Store<ParkingFee>))
    ensures InvalidFields(fee) != {} ==> r == (ValidationProblem(InvalidFields(fee)), fees)
    ensures InvalidFields(fee) == {} && RunChecks(fee).Some? ==> r == (BadRequest(RunChecks(fee)), fees)
    ensures r.0.Ok? <==> InvalidFields(fee) == {} && RunChecks(fee).None?
    ensures r.0.Ok? ==>
      var key := fee.id.GetOr(generatedId);
      && r.0 == Ok(fee.(id := Some(key)))
      && r.1.Keys == fees.Keys + {key}
      && r.1[key] == fee.(id := Some(key))
      && forall k :: k in fees && k != key ==> r.1[k] == fees[k]
  {
    var invalid := InvalidFields(fee);
    if invalid != {} then (ValidationProblem(invalid), fees)
    else
      var checks := RunChecks(fee);
      if checks.Some? then (BadRequest(checks), fees)
      else
        var (stored, added) := Add(fees, fee, FeeId, FeeWithId, generatedId);
        (Ok(added), stored)
  }

  /** PUT api/parking_fee/{id}: invalid body 400 before the action runs, then
      id mismatch 400, failing check 400, unknown id 404, all with the store
      unchanged; otherwise 204 with the body merged into that one fee. */
  function Update(id: string, decode: string -> string, updatedFee: ParkingFee, fees: Store<ParkingFee>)
    : (r: (ActionResult<ParkingFee>, Store<ParkingFee>))
    ensures InvalidFields(updatedFee) != {} ==> r == (ValidationProblem(InvalidFields(updatedFee)), fees)
    ensures InvalidFields(updatedFee) == {} && Some(decode(id)) != updatedFee.id ==> r == (BadRequest(None), fees)
    ensures InvalidFields(updatedFee) == {} && Some(decode(id)) == updatedFee.id && RunChecks(updatedFee).Some?
      ==> r == (BadRequest(RunChecks(updatedFee)), fees)
    ensures InvalidFields(updatedFee) == {} && Some(decode(id)) == updatedFee.id && RunChecks(updatedFee).None?
      && decode(id) !in fees
      ==> r == (NotFound(None), fees)
    ensures r.0 == NoContent <==>
      InvalidFields(updatedFee) == {} && Some(decode(id)) == updatedFee.id && RunChecks(updatedFee).None?
      && decode(id) in fees
    ensures r.0 == NoContent ==> r.1 == fees[decode(id) := MergeFee(fees[decode(id)], updatedFee)]
    ensures r.0 != NoContent ==> r.1 == fees
  {
    var invalid := InvalidFields(updatedFee);
    if invalid != {} then (ValidationProblem(invalid), fees)
    else
      var decodedId := decode(id);
      if Some(decodedId) != updatedFee.id then (BadRequest(None), fees)
      else
        var checks := RunChecks(updatedFee);
        if checks.Some? then (BadRequest(checks), fees)
        else if BaseRepo.Get(fees, decodedId).None? then (NotFound(None), fees)
        else match BaseRepo.Update(fees, updatedFee, FeeId, MergeFee)
          case Success(updated) => (NoContent, updated)
          case Failure(_) => (Status(500, "An error occured while updating the parking fee."), fees)
  }

  /** DELETE api/parking_fee/{id}. */
  function Delete(id: string, decode: string -> string, fees: Store<ParkingFee>): (ActionResult<ParkingFee>, Store<ParkingFee>) {
    DeleteById(id, decode, fees)
  }

  /** After a 204 from Update the stored fee itself passes both validations:
      the merge copies the validated times, date, area id and payment. */
  lemma UpdatedFeePassesChecks(id: string, decode: string -> string, updatedFee: ParkingFee, fees: Store<ParkingFee>)
    requires Update(id, decode, updatedFee, fees).0 == NoContent
    ensures RunChecks(Update(id, decode, updatedFee, fees).1[decode(id)]).None?
    ensures InvalidFields(Update(id, decode, updatedFee, fees).1[decode(id)]) == {}
  {
    var merged := MergeFee(fees[decode(id)], updatedFee);
    assert merged.parkingAreaId == updatedFee.parkingAreaId && merged.paymentResult == updatedFee.paymentResult;
  }

  lemma ActionsKeepFeesKeyed(id: string, decode: string -> string, fee: ParkingFee,
                             fees: Store<ParkingFee>, generatedId: string)
    requires WellKeyed(fees, FeeId)
    ensures WellKeyed(Create(fee, fees, generatedId).1, FeeId)
    ensures WellKeyed(Update(id, decode, fee, fees).1, FeeId)
    ensures WellKeyed(Delete(id, decode, fees).1, FeeId)
  {
    AddFeeKeepsKeys(fees, fee, generatedId);
    if Update(id, decode, fee, fees).0 == NoContent {
      UpdateFeeKeepsKeys(fees, fee);
    }
    DeleteKeepsKeys(fees, decode(id), FeeId);
  }
}
