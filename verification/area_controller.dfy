/** ParkingAreaController: each action is a function from the stores to its
    result and the stores afterwards. URL decoding of the path id is the
    parameter `decode`; `generatedId` is the id the store would assign. */
module ParkingAreaController {
  import opened Wrappers
  import opened Models
  import opened BaseRepo
  import opened Actions

  const NameRequired: string := "Parking area name is required."
  const RatesNegative: string := "Hourly rates must be non-negative."
  const IdRequired: string := "Parking area ID cannot be null or empty."

  /** The validation a posted or put area goes through: a name, then
      non-negative hourly rates. Nothing else is looked at. */
  function RunChecks(area: ParkingArea): (r: Option<string>)
    ensures r.None? <==> !IsNullOrEmpty(area.name) && area.weekdaysHourlyRateUsd >= 0.0 && area.weekendHourlyRateUsd >= 0.0
    ensures IsNullOrEmpty(area.name) ==> r == Some(NameRequired)
    ensures !IsNullOrEmpty(area.name) && (area.weekdaysHourlyRateUsd < 0.0 || area.weekendHourlyRateUsd < 0.0)
      ==> r == Some(RatesNegative)
  {
    if IsNullOrEmpty(area.name) then Some(NameRequired)
    else if area.weekdaysHourlyRateUsd < 0.0 || area.weekendHourlyRateUsd < 0.0 then Some(RatesNegative)
    else None
  }

  /** Id, location, discount, description and the active flag never affect
      validation: an out-of-range discount is accepted. */
  lemma RunChecksReadsNameAndRatesOnly(a: ParkingArea, b: ParkingArea)
    requires a.name == b.name
    requires a.weekdaysHourlyRateUsd == b.weekdaysHourlyRateUsd && a.weekendHourlyRateUsd == b.weekendHourlyRateUsd
    ensures RunChecks(a) == RunChecks(b)
  {
  }

  /** GET api/parking_area/{id}/parking_fees: every stored fee whose area id
      is the decoded id. */
  function GetParkingFees(id: string, decode: string -> string, fees: Store<ParkingFee>): (r: ActionResult<Store<ParkingFee>>)
    ensures id == "" ==> r == BadRequest(Some(IdRequired))
    ensures id != "" ==> r.Ok?
    ensures r.Ok? ==> r.value.Keys <= fees.Keys
    ensures r.Ok? ==> forall k :: k in fees ==> (k in r.value <==> fees[k].parkingAreaId == Some(decode(id)))
    ensures r.Ok? ==> forall k :: k in r.value ==> r.value[k] == fees[k]
  {
    if id == "" then BadRequest(Some(IdRequired))
    else
      var decodedId := decode(id);
      Ok(GetAll(fees, (fee: ParkingFee) => fee.parkingAreaId == Some(decodedId)))
  }

  /** GET api/parking_area/{id}. */
  function Get(id: string, decode: string -> string, areas: Store<ParkingArea>): (r: ActionResult<ParkingArea>)
    ensures id == "" ==> r == BadRequest(Some(IdRequired))
    ensures id != "" && decode(id) !in areas ==> r == NotFound(None)
    ensures id != "" && decode(id) in areas ==> r == Ok(areas[decode(id)])
  {
    if id == "" then BadRequest(Some(IdRequired))
    else match BaseRepo.Get(areas, decode(id))
      case None => NotFound(None)
      case Some(area) => Ok(area)
  }

  /** The fields `[ApiController]` model validation refuses before the action
      runs: `Name` and `Location` are non-nullable strings, so each carries an
      implicit `[Required]`. The nullable Id and Description, the rates, the
      discount and the flag are never refused. */
  function InvalidFields(area: ParkingArea): (r: set<string>)
    ensures "Name" in r <==> MissingText(area.name)
    ensures "Location" in r <==> MissingText(area.location)
    ensures r <= {"Name", "Location"}
  {
    (if MissingText(area.name) then {"Name"} else {}) + (if MissingText(area.location) then {"Location"} else {})
  }

  /** Every area in the store has what validation demands. */
  ghost predicate AllComplete(areas: Store<ParkingArea>) {
    forall k :: k in areas ==> InvalidFields(areas[k]) == {}
  }

  /** A body that passes model validation never fails the action's own name
      check: only the rates can still be refused. */
  lemma ValidBodyHasName(area: ParkingArea)
    requires InvalidFields(area) == {}
    ensures RunChecks(area) != Some(NameRequired)
    ensures RunChecks(area).None? <==> area.weekdaysHourlyRateUsd >= 0.0 && area.weekendHourlyRateUsd >= 0.0
  {
  }

  /** POST api/parking_area: an invalid body answers 400 with its failing
      fields and a failing check answers 400 with its message, storing
      nothing; otherwise the area is stored under its Id (or a generated one)
      and returned with that Id. */
  function Create(area: ParkingArea, areas: Store<ParkingArea>, generatedId: string): (r: (ActionResult<ParkingArea>, Store<ParkingArea>))
    ensures InvalidFields(area) != {} ==> r == (ValidationProblem(InvalidFields(area)), areas)
    ensures InvalidFields(area) == {} && RunChecks(area).Some? ==> r == (BadRequest(RunChecks(area)), areas)
    ensures r.0.Ok? <==> InvalidFields(area) == {} && RunChecks(area).None?
    ensures r.0.Ok? ==>
      var key := area.id.GetOr(generatedId);
      && r.0 == Ok(area.(id := Some(key)))
      && r.1.Keys == areas.Keys + {key}
      && r.1[key] == area.(id := Some(key))
      && forall k :: k in areas && k != key ==> r.1[k] == areas[k]
  {
    var invalid := InvalidFields(area);
    if invalid != {} then (ValidationProblem(invalid), areas)
    else
      var checks := RunChecks(area);
      if checks.Some? then (BadRequest(checks), areas)
      else
        var (stored, added) := Add(areas, area, AreaId, AreaWithId, generatedId);
        (Ok(added), stored)
  }

  /** PUT api/parking_area/{id}: an invalid body answers 400 before the action
      runs, then a path id that is not the body's Id 400, then a failing check
      400, then an unknown id 404; only a 204 changes the store, merging the
      body into that one area. */
  function Update(id: string, decode: string -> string, updatedArea: ParkingArea, areas: Store<ParkingArea>)
    : (r: (ActionResult<ParkingArea>, Store<ParkingArea>))
    ensures InvalidFields(updatedArea) != {} ==> r == (ValidationProblem(InvalidFields(updatedArea)), areas)
    ensures InvalidFields(updatedArea) == {} && Some(decode(id)) != updatedArea.id ==> r == (BadRequest(None), areas)
    ensures InvalidFields(updatedArea) == {} && Some(decode(id)) == updatedArea.id && RunChecks(updatedArea).Some?
      ==> r == (BadRequest(RunChecks(updatedArea)), areas)
    ensures InvalidFields(updatedArea) == {} && Some(decode(id)) == updatedArea.id && RunChecks(updatedArea).None?
      && decode(id) !in areas
      ==> r == (NotFound(None), areas)
    ensures r.0 == NoContent <==>
      InvalidFields(updatedArea) == {} && Some(decode(id)) == updatedArea.id && RunChecks(updatedArea).None?
      && decode(id) in areas
    ensures r.0 == NoContent ==> r.1 == areas[decode(id) := MergeArea(areas[decode(id)], updatedArea)]
    ensures r.0 != NoContent ==> r.1 == areas
  {
    var invalid := InvalidFields(updatedArea);
    if invalid != {} then (ValidationProblem(invalid), areas)
    else
      var decodedId := decode(id);
      if Some(decodedId) != updatedArea.id then (BadRequest(None), areas)
      else
        var checks := RunChecks(updatedArea);
        if checks.Some? then (BadRequest(checks), areas)
        else if BaseRepo.Get(areas, decodedId).None? then (NotFound(None), areas)
        else match BaseRepo.Update(areas, updatedArea, AreaId, MergeArea)
          case Success(updated) => (NoContent, updated)
          case Failure(_) => (Status(500, "An error occured while updating the parking area."), areas)
  }

  /** DELETE api/parking_area/{id}. */
  function Delete(id: string, decode: string -> string, areas: Store<ParkingArea>): (ActionResult<ParkingArea>, Store<ParkingArea>) {
    DeleteById(id, decode, areas)
  }

  /** The area-changing actions keep every stored area under its own Id, and
      a 204 from Update leaves that Id in place. */
  lemma ActionsKeepAreasKeyed(id: string, decode: string -> string, area: ParkingArea,
                              areas: Store<ParkingArea>, generatedId: string)
    requires WellKeyed(areas, AreaId)
    ensures WellKeyed(Create(area, areas, generatedId).1, AreaId)
    ensures WellKeyed(Update(id, decode, area, areas).1, AreaId)
    ensures WellKeyed(Delete(id, decode, areas).1, AreaId)
  {
    AddAreaKeepsKeys(areas, area, generatedId);
    if Update(id, decode, area, areas).0 == NoContent {
      UpdateAreaKeepsKeys(areas, area);
    }
    DeleteKeepsKeys(areas, decode(id), AreaId);
  }

  /** The actions never store an area that validation would refuse: an area
      written through them always has a name and a location. */
  lemma ActionsKeepAreasComplete(id: string, decode: string -> string, area: ParkingArea,
                                 areas: Store<ParkingArea>, generatedId: string)
    requires AllComplete(areas)
    ensures AllComplete(Create(area, areas, generatedId).1)
    ensures AllComplete(Update(id, decode, area, areas).1)
    ensures AllComplete(Delete(id, decode, areas).1)
  {
  }
}
