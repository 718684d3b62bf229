/**
 The records of one shop that the CRM and the walk-in desk share: customers, vehicles, visits and repairs.

 Every query of the source is restricted to one shop, so shops do not meet. Texts are taken as stripped, VINs and
 plates as upper-cased; `lastYear` is next calendar year, the latest model year accepted.
 */
module ShopRecords {
  import opened Wrappers
  import Vin

  datatype Status = Open | Converted | Closed | Cancelled

  datatype Vehicle = Vehicle(
    customer: Option<int>, vin: string, plate: Option<string>, year: int, make: string, model: string, mileage: int,
    created: int)

  datatype Visit = Visit(vehicle: int, customer: Option<int>, complaint: string, status: Status, arrived: int)

  datatype Repair = Repair(customer: Option<int>, vehicle: int, cost: int)

  /** `issued` holds every id ever given out: new ids are new. */
  datatype Shop = Shop(
    customers: map<int, string>, vehicles: map<int, Vehicle>, visits: map<int, Visit>, repairs: map<int, Repair>,
    issued: set<int>)

  datatype Failure = Invalid | NotFound | Conflict

  // ---------------------------------------------------------------- field rules

  predicate IsMileage(mileage: int) {
    0 <= mileage <= 3_000_000
  }

  predicate IsYear(year: int, lastYear: int) {
    1900 <= year <= lastYear
  }

  predicate PlateChar(c: char) {
    'A' <= c <= 'Z' || '0' <= c <= '9'
  }

  /** A plate without its spaces and dashes. */
  function PlateKey(plate: string): string {
    if plate == "" then "" else
      (if PlateChar(plate[0]) then [plate[0]] else "") + PlateKey(plate[1..])
  }

  function OrText(value: string, otherwise: string): string {
    if value != "" then value else otherwise
  }

  /** What stays of a plate that was given: nothing of an empty one. */
  function PlateOr(plate: string, otherwise: Option<string>): Option<string> {
    if plate != "" then Some(plate) else otherwise
  }

  // ---------------------------------------------------------------- looking vehicles up

  ghost predicate HasVin(s: Shop, id: int, vin: string) {
    id in s.vehicles && s.vehicles[id].vin == vin
  }

  ghost function ByVin(s: Shop, vin: string): Option<int> {
    if exists id :: HasVin(s, id, vin) then
      var id :| HasVin(s, id, vin);
      Some(id)
    else None
  }

  ghost predicate HasPlate(s: Shop, id: int, key: string) {
    id in s.vehicles && s.vehicles[id].plate.Some? && PlateKey(s.vehicles[id].plate.value) == key
  }

  /** `found` is a vehicle with this plate, and one of the newest; none only if there is none. */
  ghost predicate IsNewestWithPlate(s: Shop, key: string, found: Option<int>) {
    match found
    case None => forall id :: !HasPlate(s, id, key)
    case Some(best) =>
      && HasPlate(s, best, key)
      && forall id :: HasPlate(s, id, key) ==> s.vehicles[id].created <= s.vehicles[best].created
  }

  // ---------------------------------------------------------------- operations

  datatype Details = Details(vin: string, plate: string, year: int, make: string, model: string, mileage: int)

  /** A change to a field: leave it, or set it, possibly to nothing. */
  datatype Change<T> = Keep | Set(value: Option<T>)

  datatype Op =
    | TakeIn(details: Details, complaint: string, found: Option<int>, vehicleId: int, visitId: int, now: int)
    | Convert(visit: int, name: string, customerId: int)
    | AttachKnown(visit: int, vehicle: int)
    | AttachDescribed(visit: int, given: Option<Details>, vehicleId: int, now: int)
    | Close(visit: int)
    | Cancel(visit: int)
    | AddRepair(visit: int, cost: int, repairId: int)
    | AddCustomer(name: string, customerId: int)
    | RemoveCustomer(customer: int)
    | AddVehicle(customer: int, details: Details, vehicleId: int, now: int)
    | EditVehicle(
        vehicle: int, vin: Change<string>, plate: Change<string>, year: Change<int>, make: Change<string>,
        model: Change<string>, mileage: Change<int>)
    | RemoveVehicle(vehicle: int)

  function NewVehicle(d: Details, plate: Option<string>, customer: Option<int>, now: int): Vehicle {
    Vehicle(customer, d.vin, plate, d.year, d.make, d.model, d.mileage, now)
  }

  predicate ValidNumbers(d: Details, lastYear: int) {
    IsYear(d.year, lastYear) && IsMileage(d.mileage)
  }

  /** The car an intake is for: the one with its VIN, else the one with its plate. */
  ghost function Arriving(s: Shop, d: Details, found: Option<int>): Option<int> {
    if ByVin(s, d.vin).Some? then ByVin(s, d.vin)
    else if PlateKey(d.plate) != "" then found
    else None
  }

  ghost function TakenIn(s: Shop, d: Details, complaint: string, found: Option<int>, vehicleId: int, visitId: int,
                         now: int, lastYear: int): Result<Shop, Failure>
  {
    if complaint == "" || !Vin.WellFormed(d.vin) || !ValidNumbers(d, lastYear) then Err(Invalid) else
      var known := Arriving(s, d, found);
      if known.Some? && known.value in s.vehicles then
        var v := s.vehicles[known.value];
        var v' := v.(plate := PlateOr(PlateKey(d.plate), v.plate), year := d.year, make := OrText(d.make, v.make),
                     model := OrText(d.model, v.model), mileage := d.mileage);
        Ok(s.(vehicles := s.vehicles[known.value := v'],
              visits := s.visits[visitId := Visit(known.value, v.customer, complaint, Open, now)]))
      else
        var v := NewVehicle(d, PlateOr(PlateKey(d.plate), None), None, now);
        Ok(s.(vehicles := s.vehicles[vehicleId := v],
              visits := s.visits[visitId := Visit(vehicleId, None, complaint, Open, now)]))
  }

  /** The visit, if it can still be worked on. */
  function OpenVisit(s: Shop, visit: int): Result<Visit, Failure> {
    if visit !in s.visits then Err(NotFound)
    else if s.visits[visit].status in {Closed, Cancelled} then Err(Conflict)
    else Ok(s.visits[visit])
  }

  ghost function ConvertedTo(s: Shop, visit: int, name: string, customerId: int): Result<Shop, Failure> {
    match OpenVisit(s, visit)
    case Err(failure) => Err(failure)
    case Ok(v) =>
      if v.customer.Some? then Err(Conflict)
      else if name == "" then Err(Invalid)
      else if v.vehicle !in s.vehicles then Err(NotFound)
      else
        Ok(s.(customers := s.customers[customerId := name],
              vehicles := s.vehicles[v.vehicle := s.vehicles[v.vehicle].(customer := Some(customerId))],
              visits := s.visits[visit := v.(customer := Some(customerId), status := Converted)]))
  }

  /** The end of attaching: a car without an owner gets the visit's customer, a visit without one the car's. */
  function Attached(s: Shop, visit: int, vehicle: int): Shop
    requires visit in s.visits && vehicle in s.vehicles
  {
    var v, car := s.visits[visit], s.vehicles[vehicle];
    var customer := OrElse(car.customer, v.customer);
    s.(vehicles := s.vehicles[vehicle := car.(customer := customer)],
       visits := s.visits[visit := v.(vehicle := vehicle, customer := OrElse(v.customer, customer))])
  }

  ghost function AttachedKnown(s: Shop, visit: int, vehicle: int): Result<Shop, Failure> {
    match OpenVisit(s, visit)
    case Err(failure) => Err(failure)
    case Ok(v) => if vehicle !in s.vehicles then Err(NotFound) else Ok(Attached(s, visit, vehicle))
  }

  ghost function AttachedDescribed(s: Shop, visit: int, given: Option<Details>, vehicleId: int, now: int, lastYear: int)
    : Result<Shop, Failure>
  {
    match OpenVisit(s, visit)
    case Err(failure) => Err(failure)
    case Ok(v) =>
      if given.None? then Err(Invalid) else
      var d := given.value;
      if d.vin == "" || d.make == "" || d.model == "" then Err(Invalid)
      else if !Vin.WellFormed(d.vin) || !ValidNumbers(d, lastYear) then Err(Invalid)
      else
        var known := ByVin(s, d.vin);
        if known.Some? && known.value in s.vehicles then
          var car := s.vehicles[known.value];
          var car' := NewVehicle(d, PlateOr(d.plate, car.plate), OrElse(v.customer, car.customer), car.created);
          Ok(Attached(s.(vehicles := s.vehicles[known.value := car']), visit, known.value))
        else
          Ok(Attached(s.(vehicles := s.vehicles[vehicleId := NewVehicle(d, PlateOr(d.plate, None), v.customer, now)]),
                      visit, vehicleId))
  }

  /** Closing or cancelling: done already, possible, or in conflict with the other. */
  ghost function Ended(s: Shop, visit: int, status: Status, other: Status): Result<Shop, Failure> {
    if visit !in s.visits then Err(NotFound)
    else if s.visits[visit].status == status then Ok(s)
    else if s.visits[visit].status == other then Err(Conflict)
    else Ok(s.(visits := s.visits[visit := s.visits[visit].(status := status)]))
  }

  ghost function Repaired(s: Shop, visit: int, cost: int, repairId: int): Result<Shop, Failure> {
    match OpenVisit(s, visit)
    case Err(failure) => Err(failure)
    case Ok(v) =>
      if v.vehicle !in s.vehicles then Err(NotFound)
      else if cost < 0 then Err(Invalid)
      else Ok(s.(repairs := s.repairs[repairId := Repair(OrElse(v.customer, s.vehicles[v.vehicle].customer), v.vehicle,
          cost)]))
  }

  predicate OwnedBy(s: Shop, vehicle: int, customer: int) {
    vehicle in s.vehicles && s.vehicles[vehicle].customer == Some(customer)
  }

  function CarsOfOthers(s: Shop, customer: int): map<int, Vehicle> {
    map id | id in s.vehicles && !OwnedBy(s, id, customer) :: s.vehicles[id]
  }

  function VisitsOfOthers(s: Shop, customer: int): map<int, Visit> {
    map id | id in s.visits && s.visits[id].customer != Some(customer)
             && !OwnedBy(s, s.visits[id].vehicle, customer) :: s.visits[id]
  }

  function RepairsOfOthers(s: Shop, customer: int): map<int, Repair> {
    map id | id in s.repairs && s.repairs[id].customer != Some(customer)
             && !OwnedBy(s, s.repairs[id].vehicle, customer) :: s.repairs[id]
  }

  /** Deleting a customer takes the customer's cars along, and every visit and repair of either. */
  ghost function WithoutCustomer(s: Shop, customer: int): Result<Shop, Failure> {
    if customer !in s.customers then Err(NotFound) else
      Ok(s.(customers := s.customers - {customer}, vehicles := CarsOfOthers(s, customer),
            visits := VisitsOfOthers(s, customer), repairs := RepairsOfOthers(s, customer)))
  }

  ghost function WithVehicle(s: Shop, customer: int, d: Details, vehicleId: int, now: int, lastYear: int)
    : Result<Shop, Failure>
  {
    if customer !in s.customers then Err(NotFound)
    else if !Vin.WellFormed(d.vin) then Err(Invalid)
    else if ByVin(s, d.vin).Some? then Err(Conflict)
    else if !ValidNumbers(d, lastYear) then Err(Invalid)
    else Ok(s.(vehicles := s.vehicles[vehicleId := NewVehicle(d, PlateOr(d.plate, None), Some(customer), now)]))
  }

  function Changed<T>(change: Change<T>, current: T): T {
    if change.Set? && change.value.Some? then change.value.value else current
  }

  predicate Names(change: Change<string>) {
    change.Set? ==> change.value.Some? && change.value.value != ""
  }

  /** The new VIN of a vehicle, unless it is no VIN or another vehicle's. */
  ghost function NextVin(s: Shop, vehicle: int, vin: Change<string>): Result<string, Failure>
    requires vehicle in s.vehicles
  {
    if vin.Keep? then Ok(s.vehicles[vehicle].vin)
    else if vin.value.None? || !Vin.WellFormed(vin.value.value) then Err(Invalid)
    else if ByVin(s, vin.value.value).Some? && ByVin(s, vin.value.value) != Some(vehicle) then Err(Conflict)
    else Ok(vin.value.value)
  }

  /** A vehicle's fields after a change, unless one of them is not allowed. */
  function NextFields(v: Vehicle, plate: Change<string>, year: Change<int>, make: Change<string>, model: Change<string>,
                      mileage: Change<int>, lastYear: int): Result<Vehicle, Failure>
  {
    if (year.Set? && (year.value.None? || !IsYear(year.value.value, lastYear)))
       || !Names(make) || !Names(model)
       || (mileage.Set? && (mileage.value.None? || !IsMileage(mileage.value.value)))
    then Err(Invalid)
    else
      Ok(v.(plate := if plate.Keep? then v.plate else if plate.value.None? then None
          else PlateOr(plate.value.value, None),
            year := Changed(year, v.year), make := Changed(make, v.make), model := Changed(model, v.model),
            mileage := Changed(mileage, v.mileage)))
  }

  ghost function Edited(s: Shop, op: Op, lastYear: int): Result<Shop, Failure>
    requires op.EditVehicle?
  {
    if op.vehicle !in s.vehicles then Err(NotFound) else
      match NextVin(s, op.vehicle, op.vin)
      case Err(failure) => Err(failure)
      case Ok(vin) =>
        match NextFields(s.vehicles[op.vehicle].(vin := vin), op.plate, op.year, op.make, op.model, op.mileage,
            lastYear)
        case Err(failure) => Err(failure)
        case Ok(v) => Ok(s.(vehicles := s.vehicles[op.vehicle := v]))
  }

  /** A vehicle goes only when no visit names it; its repairs go along. */
  ghost function WithoutVehicle(s: Shop, vehicle: int): Result<Shop, Failure> {
    if vehicle !in s.vehicles then Err(NotFound)
    else if exists id :: id in s.visits && s.visits[id].vehicle == vehicle then Err(Conflict)
    else Ok(s.(vehicles := s.vehicles - {vehicle},
               repairs := map id | id in s.repairs && s.repairs[id].vehicle != vehicle :: s.repairs[id]))
  }

  function NewIds(op: Op): set<int> {
    match op
    case TakeIn(_, _, _, vehicleId, visitId, _) => {vehicleId, visitId}
    case Convert(_, _, customerId) => {customerId}
    case AttachDescribed(_, _, vehicleId, _) => {vehicleId}
    case AddRepair(_, _, repairId) => {repairId}
    case AddCustomer(_, customerId) => {customerId}
    case AddVehicle(_, _, vehicleId, _) => {vehicleId}
    case _ => {}
  }

  ghost function Outcome(s: Shop, op: Op, lastYear: int): Result<Shop, Failure> {
    match op
    case TakeIn(d, complaint, found, vehicleId, visitId, now) =>
      TakenIn(s, d, complaint, found, vehicleId, visitId, now, lastYear)
    case Convert(visit, name, customerId) => ConvertedTo(s, visit, name, customerId)
    case AttachKnown(visit, vehicle) => AttachedKnown(s, visit, vehicle)
    case AttachDescribed(visit, given, vehicleId, now) => AttachedDescribed(s, visit, given, vehicleId, now, lastYear)
    case Close(visit) => Ended(s, visit, Closed, Cancelled)
    case Cancel(visit) => Ended(s, visit, Cancelled, Closed)
    case AddRepair(visit, cost, repairId) => Repaired(s, visit, cost, repairId)
    case AddCustomer(name, customerId) => Ok(s.(customers := s.customers[customerId := name]))
    case RemoveCustomer(customer) => WithoutCustomer(s, customer)
    case AddVehicle(customer, d, vehicleId, now) => WithVehicle(s, customer, d, vehicleId, now, lastYear)
    case EditVehicle(_, _, _, _, _, _, _) => Edited(s, op, lastYear)
    case RemoveVehicle(vehicle) => WithoutVehicle(s, vehicle)
  }

  /** What an operation leaves behind; a failed one leaves the records alone, and no id is given out again. */
  ghost function After(s: Shop, op: Op, lastYear: int): Shop {
    match Outcome(s, op, lastYear)
    case Ok(t) => t.(issued := s.issued + NewIds(op))
    case Err(_) => s.(issued := s.issued + NewIds(op))
  }

  /** New ids are new and differ, and the plate lookup found what there was to find. */
  ghost predicate Possible(s: Shop, op: Op) {
    && (forall id :: id in NewIds(op) ==> id !in s.issued)
    && (op.TakeIn? ==>
        && op.vehicleId != op.visitId
        && (PlateKey(op.details.plate) != "" ==> IsNewestWithPlate(s, PlateKey(op.details.plate), op.found)))
  }

  // ---------------------------------------------------------------- what holds in every state

  ghost predicate UniqueVins(s: Shop) {
    forall a, b :: a in s.vehicles && b in s.vehicles && s.vehicles[a].vin == s.vehicles[b].vin ==> a == b
  }

  predicate CustomerExists(s: Shop, customer: Option<int>) {
    customer.Some? ==> customer.value in s.customers
  }

  predicate VehicleIsGood(s: Shop, v: Vehicle) {
    Vin.WellFormed(v.vin) && IsMileage(v.mileage) && v.year >= 1900 && CustomerExists(s, v.customer)
  }

  /** A visit's car and customer exist, and a converted visit has a customer. */
  predicate VisitIsGood(s: Shop, v: Visit) {
    v.vehicle in s.vehicles && CustomerExists(s, v.customer) && (v.status.Converted? ==> v.customer.Some?)
  }

  predicate RepairIsGood(s: Shop, r: Repair) {
    r.vehicle in s.vehicles && CustomerExists(s, r.customer)
  }

  ghost predicate References(s: Shop) {
    && (forall id :: id in s.vehicles ==> VehicleIsGood(s, s.vehicles[id]))
    && (forall id :: id in s.visits ==> VisitIsGood(s, s.visits[id]))
    && (forall id :: id in s.repairs ==> RepairIsGood(s, s.repairs[id]))
  }

  ghost predicate AllIssued(s: Shop) {
    s.customers.Keys <= s.issued && s.vehicles.Keys <= s.issued && s.visits.Keys <= s.issued
        && s.repairs.Keys <= s.issued
  }

  ghost predicate Good(s: Shop) {
    UniqueVins(s) && References(s) && AllIssued(s)
  }

  lemma ByVinFinds(s: Shop, vin: string, id: int)
    requires UniqueVins(s) && HasVin(s, id, vin)
    ensures ByVin(s, vin) == Some(id)
  {
    var found :| HasVin(s, found, vin) && ByVin(s, vin) == Some(found);
  }

  lemma NoneHasVin(s: Shop, vin: string)
    requires ByVin(s, vin) == None
    ensures forall id :: id in s.vehicles ==> s.vehicles[id].vin != vin
  {
    forall id | id in s.vehicles
      ensures s.vehicles[id].vin != vin
    {
      assert !HasVin(s, id, vin);
    }
  }

  // ---------------------------------------------------------------- what a step may do to a visit

  function Stage(status: Status): nat {
    match status
    case Open => 0
    case Converted => 1
    case Closed => 2
    case Cancelled => 2
  }

  /**
   A visit's later state: an ended visit is as it was, a customer once set stays, a stage is never left backwards, and
   only a visit without a customer is converted.
   */
  ghost predicate Follows(v: Visit, w: Visit) {
    && (v.status in {Closed, Cancelled} ==> w == v)
    && (v.customer.Some? ==> w.customer == v.customer)
    && w.complaint == v.complaint && w.arrived == v.arrived
    && Stage(v.status) <= Stage(w.status)
    && (v.status.Open? && w.status.Converted? ==> v.customer.None?)
  }

  lemma FollowsIsTransitive(u: Visit, v: Visit, w: Visit)
    requires Follows(u, v) && Follows(v, w)
    ensures Follows(u, w)
  {
  }

  /** A visit disappears only with a customer, its own or its car's owner. */
  ghost predicate TakenAlong(s: Shop, t: Shop, visit: int)
    requires visit in s.visits
  {
    exists customer ::
      && customer in s.customers && customer !in t.customers
      && (s.visits[visit].customer == Some(customer) || OwnedBy(s, s.visits[visit].vehicle, customer))
  }

  ghost predicate VisitStep(s: Shop, t: Shop, visit: int) {
    && (visit in s.visits && visit in t.visits ==> Follows(s.visits[visit], t.visits[visit]))
    && (visit in s.visits && visit !in t.visits ==> TakenAlong(s, t, visit))
    && (visit !in s.visits && visit in t.visits ==> visit !in s.issued && t.visits[visit].status.Open?)
  }

  ghost predicate Step(s: Shop, t: Shop) {
    s.issued <= t.issued && forall visit :: VisitStep(s, t, visit)
  }

  // ---------------------------------------------------------------- every operation keeps it

  /** More customers and vehicles break no reference. */
  lemma StillGood(s: Shop, t: Shop)
    requires s.customers.Keys <= t.customers.Keys && s.vehicles.Keys <= t.vehicles.Keys
    ensures forall v :: VehicleIsGood(s, v) ==> VehicleIsGood(t, v)
    ensures forall v :: VisitIsGood(s, v) ==> VisitIsGood(t, v)
    ensures forall r :: RepairIsGood(s, r) ==> RepairIsGood(t, r)
  {
  }

  lemma IssueMore(s: Shop, ids: set<int>)
    requires Good(s)
    ensures Good(s.(issued := s.issued + ids))
  {
    StillGood(s, s.(issued := s.issued + ids));
  }

  /** Writing a vehicle row whose VIN no other row has. */
  lemma WriteVehicle(s: Shop, id: int, v: Vehicle)
    requires Good(s) && id in s.issued && VehicleIsGood(s, v)
    requires forall other :: other in s.vehicles && other != id ==> s.vehicles[other].vin != v.vin
    ensures Good(s.(vehicles := s.vehicles[id := v]))
  {
    StillGood(s, s.(vehicles := s.vehicles[id := v]));
  }

  lemma WriteVisit(s: Shop, id: int, v: Visit)
    requires Good(s) && id in s.issued && VisitIsGood(s, v)
    ensures Good(s.(visits := s.visits[id := v]))
  {
    StillGood(s, s.(visits := s.visits[id := v]));
  }

  lemma WriteCustomer(s: Shop, id: int, name: string)
    requires Good(s) && id in s.issued
    ensures Good(s.(customers := s.customers[id := name]))
  {
    StillGood(s, s.(customers := s.customers[id := name]));
  }

  lemma WriteRepair(s: Shop, id: int, r: Repair)
    requires Good(s) && id in s.issued && RepairIsGood(s, r)
    ensures Good(s.(repairs := s.repairs[id := r]))
  {
    StillGood(s, s.(repairs := s.repairs[id := r]));
  }

  lemma StepOfVisit(s: Shop, t: Shop, id: int, v: Visit)
    requires s.issued <= t.issued && t.visits == s.visits[id := v]
    requires if id in s.visits then Follows(s.visits[id], v) else id !in s.issued && v.status.Open?
    ensures Step(s, t)
  {
  }

  lemma StepWithoutVisits(s: Shop, t: Shop)
    requires s.issued <= t.issued && t.visits == s.visits
    ensures Step(s, t)
  {
  }

  lemma TakeInIsGood(s: Shop, op: Op, lastYear: int)
    requires Good(s) && Possible(s, op) && op.TakeIn?
    ensures Good(After(s, op, lastYear)) && Step(s, After(s, op, lastYear))
  {
    hide Good;
    hide Step;
    hide PlateKey;
    var d, t := op.details, After(s, op, lastYear);
    var i := s.(issued := s.issued + NewIds(op));
    IssueMore(s, NewIds(op));
    if Outcome(s, op, lastYear).Ok? {
      var known := Arriving(s, d, op.found);
      var id := if known.Some? then known.value else op.vehicleId;
      VehiclesAreGood(s, id);
      VisitIdsAreIssued(s, op.visitId);
      ArrivingIsThere(s, op);
      NewVinIsFree(s, d, op.found);
      assert op.vehicleId in NewIds(op) && op.visitId in NewIds(op);
      var car, visit := t.vehicles[id], t.visits[op.visitId];
      WriteVehicle(i, id, car);
      var j := i.(vehicles := i.vehicles[id := car]);
      WriteVisit(j, op.visitId, visit);
      StepOfVisit(s, t, op.visitId, visit);
      assert t == j.(visits := j.visits[op.visitId := visit]);
    } else {
      StepWithoutVisits(s, t);
    }
  }

  lemma ArrivingIsThere(s: Shop, op: Op)
    requires Possible(s, op) && op.TakeIn?
    ensures var known := Arriving(s, op.details, op.found); known.Some? ==> known.value in s.vehicles
  {
  }

  /** A new car is only made when no vehicle has its VIN; a known one keeps the VIN it has. */
  lemma NewVinIsFree(s: Shop, d: Details, found: Option<int>)
    requires UniqueVins(s)
    ensures var known := Arriving(s, d, found);
            known.None? ==> forall id :: id in s.vehicles ==> s.vehicles[id].vin != d.vin
    ensures forall a, b :: a in s.vehicles && b in s.vehicles && a != b ==> s.vehicles[a].vin != s.vehicles[b].vin
  {
    if ByVin(s, d.vin).None? {
      NoneHasVin(s, d.vin);
    }
  }

  lemma VehiclesAreGood(s: Shop, id: int)
    requires Good(s)
    ensures UniqueVins(s) && s.vehicles.Keys <= s.issued
    ensures id in s.vehicles ==> VehicleIsGood(s, s.vehicles[id])
  {
  }

  lemma VisitIdsAreIssued(s: Shop, id: int)
    requires Good(s)
    ensures s.visits.Keys <= s.issued
    ensures id in s.visits ==> VisitIsGood(s, s.visits[id])
  {
  }

  lemma ConvertIsGood(s: Shop, op: Op, lastYear: int)
    requires Good(s) && Possible(s, op) && op.Convert?
    ensures Good(After(s, op, lastYear)) && Step(s, After(s, op, lastYear))
  {
    hide Good;
    hide Step;
    var t := After(s, op, lastYear);
    var i := s.(issued := s.issued + NewIds(op));
    IssueMore(s, NewIds(op));
    if Outcome(s, op, lastYear).Ok? {
      var id := s.visits[op.visit].vehicle;
      VehiclesAreGood(s, id);
      VisitIdsAreIssued(s, op.visit);
      WriteCustomer(i, op.customerId, op.name);
      var j := i.(customers := i.customers[op.customerId := op.name]);
      WriteVehicle(j, id, t.vehicles[id]);
      var k := j.(vehicles := j.vehicles[id := t.vehicles[id]]);
      WriteVisit(k, op.visit, t.visits[op.visit]);
      assert t == k.(visits := k.visits[op.visit := t.visits[op.visit]]);
      StepOfVisit(s, t, op.visit, t.visits[op.visit]);
    } else {
      StepWithoutVisits(s, t);
    }
  }

  lemma AttachIsGood(s: Shop, visit: int, vehicle: int)
    requires Good(s) && visit in s.visits && vehicle in s.vehicles
    requires s.visits[visit].status !in {Closed, Cancelled}
    ensures Good(Attached(s, visit, vehicle)) && Step(s, Attached(s, visit, vehicle))
  {
    hide Good;
    hide Step;
    var t := Attached(s, visit, vehicle);
    VehiclesAreGood(s, vehicle);
    VisitIdsAreIssued(s, visit);
    WriteVehicle(s, vehicle, t.vehicles[vehicle]);
    var j := s.(vehicles := s.vehicles[vehicle := t.vehicles[vehicle]]);
    WriteVisit(j, visit, t.visits[visit]);
    StepOfVisit(s, t, visit, t.visits[visit]);
  }

  /** Writing the described car first: a new row, or the row that has its VIN. */
  lemma DescribedIsGood(s: Shop, id: int, v: Vehicle, vin: string)
    requires Good(s) && v.vin == vin && VehicleIsGood(s, v) && id in s.issued
    requires ByVin(s, vin) == None || ByVin(s, vin) == Some(id)
    ensures var t := s.(vehicles := s.vehicles[id := v]); Good(t) && Step(s, t)
  {
    var t := s.(vehicles := s.vehicles[id := v]);
    forall other | other in s.vehicles && other != id
      ensures s.vehicles[other].vin != vin
    {
      if s.vehicles[other].vin == vin {
        assert HasVin(s, other, vin);
        ByVinFinds(s, vin, other);
      }
    }
    WriteVehicle(s, id, v);
    StepWithoutVisits(s, t);
  }

  lemma StepIsTransitive(s: Shop, t: Shop, u: Shop)
    requires s.visits.Keys == t.visits.Keys == u.visits.Keys
    requires Step(s, t) && Step(t, u)
    ensures Step(s, u)
  {
    forall visit
      ensures VisitStep(s, u, visit)
    {
      assert VisitStep(s, t, visit) && VisitStep(t, u, visit);
    }
  }

  lemma AttachDescribedIsGood(s: Shop, op: Op, lastYear: int)
    requires Good(s) && Possible(s, op) && op.AttachDescribed?
    ensures Good(After(s, op, lastYear)) && Step(s, After(s, op, lastYear))
  {
    var i := s.(issued := s.issued + NewIds(op));
    IssueMore(s, NewIds(op));
    if Outcome(s, op, lastYear).Ok? {
      var d, v := op.given.value, s.visits[op.visit];
      var known := ByVin(s, d.vin);
      SameVins(s, i, d.vin);
      var id, car;
      if known.Some? {
        id := known.value;
        assert HasVin(s, id, d.vin);
        car := NewVehicle(d, PlateOr(d.plate, s.vehicles[id].plate), OrElse(v.customer, s.vehicles[id].customer),
            s.vehicles[id].created);
      } else {
        id := op.vehicleId;
        car := NewVehicle(d, PlateOr(d.plate, None), v.customer, op.now);
      }
      DescribedIsGood(i, id, car, d.vin);
      var t := i.(vehicles := i.vehicles[id := car]);
      AttachIsGood(t, op.visit, id);
      StepIsTransitive(i, t, Attached(t, op.visit, id));
      assert After(s, op, lastYear) == Attached(t, op.visit, id);
      StepFromIssued(s, i, After(s, op, lastYear));
    }
  }

  lemma SameVins(s: Shop, t: Shop, vin: string)
    requires s.vehicles == t.vehicles && UniqueVins(s)
    ensures ByVin(s, vin) == ByVin(t, vin)
  {
    if id :| HasVin(s, id, vin) {
      assert HasVin(t, id, vin);
      ByVinFinds(s, vin, id);
      ByVinFinds(t, vin, id);
    } else {
      assert forall id :: HasVin(t, id, vin) ==> HasVin(s, id, vin);
    }
  }

  lemma StepFromIssued(s: Shop, i: Shop, t: Shop)
    requires Step(i, t) && s.issued <= i.issued && i == s.(issued := i.issued)
    requires t.visits.Keys <= s.visits.Keys
    ensures Step(s, t)
  {
    forall visit
      ensures VisitStep(s, t, visit)
    {
      assert VisitStep(i, t, visit);
      if visit in s.visits && visit !in t.visits {
        assert TakenAlong(i, t, visit);
      }
    }
  }

  lemma RemoveCustomerIsGood(s: Shop, op: Op, lastYear: int)
    requires Good(s) && op.RemoveCustomer?
    ensures Good(After(s, op, lastYear)) && Step(s, After(s, op, lastYear))
  {
    var t := After(s, op, lastYear);
    if Outcome(s, op, lastYear).Ok? {
      forall id | id in t.vehicles
        ensures VehicleIsGood(t, t.vehicles[id])
      {
        assert VehicleIsGood(s, s.vehicles[id]);
      }
      forall id | id in t.visits
        ensures VisitIsGood(t, t.visits[id])
      {
        assert VisitIsGood(s, s.visits[id]);
      }
      forall id | id in t.repairs
        ensures RepairIsGood(t, t.repairs[id])
      {
        assert RepairIsGood(s, s.repairs[id]);
      }
      forall visit
        ensures VisitStep(s, t, visit)
      {
        assert visit in s.visits && visit !in t.visits ==> op.customer in s.customers && op.customer !in t.customers;
      }
    }
  }

  lemma EditIsGood(s: Shop, op: Op, lastYear: int)
    requires Good(s) && op.EditVehicle?
    ensures Good(After(s, op, lastYear)) && Step(s, After(s, op, lastYear))
  {
    if Outcome(s, op, lastYear).Ok? {
      var v, t := s.vehicles[op.vehicle], After(s, op, lastYear);
      var v' := t.vehicles[op.vehicle];
      assert VehicleIsGood(s, v);
      if op.vin.Keep? {
        assert HasVin(s, op.vehicle, v'.vin);
        ByVinFinds(s, v'.vin, op.vehicle);
      }
      DescribedIsGood(s, op.vehicle, v', v'.vin);
      assert t == s.(vehicles := s.vehicles[op.vehicle := v']);
    }
  }

  lemma AddVehicleIsGood(s: Shop, op: Op, lastYear: int)
    requires Good(s) && Possible(s, op) && op.AddVehicle?
    ensures Good(After(s, op, lastYear)) && Step(s, After(s, op, lastYear))
  {
    var i := s.(issued := s.issued + NewIds(op));
    IssueMore(s, NewIds(op));
    if Outcome(s, op, lastYear).Ok? {
      var t := After(s, op, lastYear);
      SameVins(s, i, op.details.vin);
      DescribedIsGood(i, op.vehicleId, t.vehicles[op.vehicleId], op.details.vin);
      assert t == i.(vehicles := i.vehicles[op.vehicleId := t.vehicles[op.vehicleId]]);
    }
  }

  lemma RemoveVehicleIsGood(s: Shop, op: Op, lastYear: int)
    requires Good(s) && op.RemoveVehicle?
    ensures Good(After(s, op, lastYear)) && Step(s, After(s, op, lastYear))
  {
    var t := After(s, op, lastYear);
    if Outcome(s, op, lastYear).Ok? {
      forall id | id in t.visits
        ensures VisitIsGood(t, t.visits[id])
      {
        assert VisitIsGood(s, s.visits[id]);
      }
      forall id | id in t.repairs
        ensures RepairIsGood(t, t.repairs[id])
      {
        assert RepairIsGood(s, s.repairs[id]);
      }
    }
  }

  lemma EndIsGood(s: Shop, op: Op, lastYear: int)
    requires Good(s) && (op.Close? || op.Cancel?)
    ensures Good(After(s, op, lastYear)) && Step(s, After(s, op, lastYear))
  {
    hide Good;
    hide Step;
    var t := After(s, op, lastYear);
    if t.visits == s.visits {
      StepWithoutVisits(s, t);
    } else {
      VisitIdsAreIssued(s, op.visit);
      WriteVisit(s, op.visit, t.visits[op.visit]);
      StepOfVisit(s, t, op.visit, t.visits[op.visit]);
    }
    assert t.issued == s.issued;
  }

  lemma SmallStepIsGood(s: Shop, op: Op, lastYear: int)
    requires Good(s) && Possible(s, op)
    requires op.AttachKnown? || op.AddRepair? || op.AddCustomer?
    ensures Good(After(s, op, lastYear)) && Step(s, After(s, op, lastYear))
  {
    hide Good;
    hide Step;
    var t := After(s, op, lastYear);
    var i := s.(issued := s.issued + NewIds(op));
    IssueMore(s, NewIds(op));
    StepWithoutVisits(s, i);
    if Outcome(s, op, lastYear).Ok? {
      match op
      case AttachKnown(visit, vehicle) =>
        AttachIsGood(s, visit, vehicle);
        assert t == Attached(s, visit, vehicle);
      case AddRepair(visit, _, repairId) =>
        VisitIdsAreIssued(s, visit);
        VehiclesAreGood(s, s.visits[visit].vehicle);
        WriteRepair(i, repairId, t.repairs[repairId]);
        StepWithoutVisits(s, t);
      case AddCustomer(name, customerId) =>
        WriteCustomer(i, customerId, name);
        StepWithoutVisits(s, t);
    }
  }

  /** Every operation, failed or not, keeps VINs unique and references whole, and treats visits as it should. */
  lemma OperationIsGood(s: Shop, op: Op, lastYear: int)
    requires Good(s) && Possible(s, op)
    ensures Good(After(s, op, lastYear)) && Step(s, After(s, op, lastYear))
  {
    match op
    case TakeIn(_, _, _, _, _, _) => TakeInIsGood(s, op, lastYear);
    case Convert(_, _, _) => ConvertIsGood(s, op, lastYear);
    case AttachDescribed(_, _, _, _) => AttachDescribedIsGood(s, op, lastYear);
    case RemoveCustomer(_) => RemoveCustomerIsGood(s, op, lastYear);
    case AddVehicle(_, _, _, _) => AddVehicleIsGood(s, op, lastYear);
    case EditVehicle(_, _, _, _, _, _, _) => EditIsGood(s, op, lastYear);
    case RemoveVehicle(_) => RemoveVehicleIsGood(s, op, lastYear);
    case Close(_) => EndIsGood(s, op, lastYear);
    case Cancel(_) => EndIsGood(s, op, lastYear);
    case _ => SmallStepIsGood(s, op, lastYear);
  }

  // ---------------------------------------------------------------- runs

  /** The states a run goes through, from the first on; the year may change between operations. */
  ghost predicate IsRun(states: seq<Shop>, ops: seq<Op>, lastYears: seq<int>) {
    && |states| == |ops| + 1 && |lastYears| == |ops|
    && forall i :: 0 <= i < |ops| ==>
      Possible(states[i], ops[i]) && states[i + 1] == After(states[i], ops[i], lastYears[i])
  }

  lemma {:induction false} RunIsGood(states: seq<Shop>, ops: seq<Op>, lastYears: seq<int>, n: nat)
    requires IsRun(states, ops, lastYears) && Good(states[0]) && n < |states|
    ensures Good(states[n])
    ensures n > 0 ==> Step(states[n - 1], states[n])
  {
    if n > 0 {
      RunIsGood(states, ops, lastYears, n - 1);
      OperationIsGood(states[n - 1], ops[n - 1], lastYears[n - 1]);
    }
  }

  /**
   Between any two moments of any run: ended visits have not changed, a visit's customer has not been replaced, no
   visit has gone back a stage, and none that is gone has come back.
   */
  lemma {:induction false} VisitsOverRuns(states: seq<Shop>, ops: seq<Op>, lastYears: seq<int>, i: nat, j: nat,
      visit: int)
    requires IsRun(states, ops, lastYears) && Good(states[0]) && i <= j < |states|
    requires visit in states[i].issued
    ensures visit in states[j].issued
    ensures visit in states[j].visits ==>
        visit in states[i].visits && Follows(states[i].visits[visit], states[j].visits[visit])
    decreases j
  {
    if i < j {
      VisitsOverRuns(states, ops, lastYears, i, j - 1, visit);
      RunIsGood(states, ops, lastYears, j);
      assert VisitStep(states[j - 1], states[j], visit);
      if visit in states[j].visits {
        FollowsIsTransitive(states[i].visits[visit], states[j - 1].visits[visit], states[j].visits[visit]);
      }
    }
  }

  /** An open visit that has a customer, from a returning car say, is never converted, however long the run. */
  lemma OpenWithCustomerNeverConverts(states: seq<Shop>, ops: seq<Op>, lastYears: seq<int>, i: nat, j: nat, visit: int)
    requires IsRun(states, ops, lastYears) && Good(states[0]) && i <= j < |states|
    requires visit in states[i].visits && states[i].visits[visit].status.Open? && states[i].visits[visit].customer.Some?
    ensures visit in states[j].visits ==> !states[j].visits[visit].status.Converted?
  {
    RunIsGood(states, ops, lastYears, i);
    VisitsOverRuns(states, ops, lastYears, i, j, visit);
  }

  // ---------------------------------------------------------------- what one operation touches

  /**
   An intake is for the car with its VIN, else for one with its plate, else for a new one. The car gets the mileage
   read today and keeps VIN, owner and age; the visit gets the car's owner; every other row stays.
   */
  lemma IntakeIsForTheCarThatArrived(s: Shop, op: Op, lastYear: int)
    requires Good(s) && Possible(s, op) && op.TakeIn? && Outcome(s, op, lastYear).Ok?
    ensures var t, d := Outcome(s, op, lastYear).value, op.details;
            && op.visitId in t.visits && t.visits[op.visitId].vehicle in t.vehicles
            && var id := t.visits[op.visitId].vehicle;
               var car := t.vehicles[id];
               && t.visits[op.visitId] == Visit(id, car.customer, op.complaint, Open, op.now)
               && car.mileage == d.mileage && car.year == d.year
               && (forall v :: HasVin(s, v, d.vin) ==> id == v)
               && (id in s.vehicles ==>
                     && car.vin == s.vehicles[id].vin && car.customer == s.vehicles[id].customer
                     && car.created == s.vehicles[id].created
                     && (car.vin == d.vin || (PlateKey(d.plate) != "" && HasPlate(s, id, PlateKey(d.plate)))))
               && (id !in s.vehicles <==>
                     && (forall v :: !HasVin(s, v, d.vin))
                     && (PlateKey(d.plate) == "" || forall v :: !HasPlate(s, v, PlateKey(d.plate))))
               && (id !in s.vehicles ==> car.vin == d.vin && car.customer == None)
               && t.vehicles == s.vehicles[id := car] && t.visits == s.visits[op.visitId := t.visits[op.visitId]]
               && t.customers == s.customers && t.repairs == s.repairs
  {
    hide References;
    hide PlateKey;
    hide Vin.WellFormed;
    var d := op.details;
    assert op.vehicleId in NewIds(op) && op.vehicleId !in s.issued;
    assert op.vehicleId !in s.vehicles;
    if v :| HasVin(s, v, d.vin) {
      ByVinFinds(s, d.vin, v);
    } else {
      assert ByVin(s, d.vin) == None;
      if PlateKey(d.plate) != "" && op.found.Some? {
        assert HasPlate(s, op.found.value, PlateKey(d.plate));
      }
    }
  }

  function NamedVisit(op: Op): Option<int> {
    match op
    case TakeIn(_, _, _, _, visitId, _) => Some(visitId)
    case Convert(visit, _, _) => Some(visit)
    case AttachKnown(visit, _) => Some(visit)
    case AttachDescribed(visit, _, _, _) => Some(visit)
    case Close(visit) => Some(visit)
    case Cancel(visit) => Some(visit)
    case _ => None
  }

  /** Apart from deleting a customer, an operation writes no visit but the one it names. */
  lemma OnlyTheNamedVisitChanges(s: Shop, op: Op, lastYear: int, visit: int)
    requires !op.RemoveCustomer? && NamedVisit(op) != Some(visit)
    ensures var t := After(s, op, lastYear);
            (visit in t.visits <==> visit in s.visits) && (visit in s.visits ==> t.visits[visit] == s.visits[visit])
  {
  }

  // ---------------------------------------------------------------- whose car it is

  /** Every visit of a car that has a customer has the car's. */
  ghost predicate InLine(s: Shop, car: int) {
    forall id :: id in s.visits && car in s.vehicles && s.visits[id].vehicle == car && s.visits[id].customer.Some? ==>
      s.visits[id].customer == s.vehicles[car].customer
  }

  /**
   Converting hands the car to the new customer whoever had it. The car and its visits agree afterwards exactly when
   no other visit of that car had a customer.
   */
  lemma ConvertingTakesTheCar(s: Shop, visit: int, name: string, customerId: int)
    requires Good(s) && customerId !in s.issued && ConvertedTo(s, visit, name, customerId).Ok?
    ensures var t, car := ConvertedTo(s, visit, name, customerId).value, s.visits[visit].vehicle;
            && t.vehicles[car].customer == t.visits[visit].customer == Some(customerId)
            && (InLine(t, car) <==>
                forall id :: id in s.visits && id != visit && s.visits[id].vehicle == car ==>
                    s.visits[id].customer.None?)
  {
    var t, car := ConvertedTo(s, visit, name, customerId).value, s.visits[visit].vehicle;
    forall id | id in s.visits && id != visit && s.visits[id].vehicle == car && s.visits[id].customer.Some?
      ensures !InLine(t, car)
    {
      assert VisitIsGood(s, s.visits[id]);
      assert t.visits[id].customer != t.vehicles[car].customer;
    }
  }

  const NoRecords := Shop(map[], map[], map[], map[], {})

  lemma NoRecordsAreGood()
    ensures Good(NoRecords)
  {
  }

  /** Two intakes of one car nobody owns, then both visits converted. */
  function TwoIntakes(d: Details, complaint: string, first: string, second: string, now: int): seq<Op> {
    [TakeIn(d, complaint, None, 1, 2, now), TakeIn(d, complaint, None, 3, 4, now), Convert(2, first, 5),
        Convert(4, second, 6)]
  }

  /** It does happen: after that run the first visit has its customer still, and its car is the second customer's. */
  lemma SecondConversionTakesTheCar(d: Details, complaint: string, first: string, second: string, now: int,
      lastYear: int)
    returns (states: seq<Shop>)
    requires complaint != "" && first != "" && second != ""
    requires Vin.WellFormed(d.vin) && ValidNumbers(d, lastYear) && PlateKey(d.plate) == ""
    ensures states != [] && states[0] == NoRecords
    ensures IsRun(states, TwoIntakes(d, complaint, first, second, now), [lastYear, lastYear, lastYear, lastYear])
    ensures var end := states[|states| - 1];
            && 2 in end.visits && end.visits[2].vehicle == 1 && end.visits[2].customer == Some(5)
            && 1 in end.vehicles && end.vehicles[1].customer == Some(6) && !InLine(end, 1)
  {
    hide Vin.WellFormed;
    hide PlateKey;
    var ops := TwoIntakes(d, complaint, first, second, now);
    assert forall id :: !HasVin(NoRecords, id, d.vin);
    var s1 := After(NoRecords, ops[0], lastYear);
    assert HasVin(s1, 1, d.vin);
    ByVinFinds(s1, d.vin, 1);
    var s2 := After(s1, ops[1], lastYear);
    var s3 := After(s2, ops[2], lastYear);
    var s4 := After(s3, ops[3], lastYear);
    assert s4.visits[2].customer == Some(5) && s4.vehicles[1].customer == Some(6);
    states := [NoRecords, s1, s2, s3, s4];
  }

  /** Who owns a car once attaching came to an end. */
  ghost function OwnerAfter(result: Result<Shop, Failure>, car: int): Option<int>
    requires result.Ok? && car in result.value.vehicles
  {
    result.value.vehicles[car].customer
  }

  /**
   Attaching a car in either way succeeds. Named by its id it keeps the owner it has, described by its VIN it goes to
   the visit's customer; the two agree exactly when one of them is missing or they are the same.
   */
  lemma AttachingWaysAgreeExactlyWhen(
    s: Shop, visit: int, car: int, d: Details, vehicleId: int, now: int, lastYear: int)
    requires Good(s) && OpenVisit(s, visit).Ok? && car in s.vehicles && s.vehicles[car].vin == d.vin
    requires d.make != "" && d.model != "" && ValidNumbers(d, lastYear)
    ensures var byId := AttachedKnown(s, visit, car);
            var byVin := AttachedDescribed(s, visit, Some(d), vehicleId, now, lastYear);
            var customer, owner := s.visits[visit].customer, s.vehicles[car].customer;
            && byId.Ok? && car in byId.value.vehicles && byVin.Ok? && car in byVin.value.vehicles
            && OwnerAfter(byId, car) == OrElse(owner, customer) && OwnerAfter(byVin, car) == OrElse(customer, owner)
            && (OwnerAfter(byId, car) == OwnerAfter(byVin, car) <==>
                customer.None? || owner.None? || customer == owner)
  {
    assert HasVin(s, car, d.vin);
    ByVinFinds(s, d.vin, car);
    assert VehicleIsGood(s, s.vehicles[car]);
  }

  /** Customer 5 with car 1; then another car comes in and its visit is converted to customer 6. */
  function TwoOwners(mine: Details, other: Details, complaint: string, first: string, second: string,
                     now: int): seq<Op>
  {
    [AddCustomer(first, 5), AddVehicle(5, mine, 1, now), TakeIn(other, complaint, None, 2, 3, now),
        Convert(3, second, 6)]
  }

  lemma TwoOwnersRun(
    mine: Details, other: Details, complaint: string, first: string, second: string, now: int, lastYear: int)
    returns (states: seq<Shop>)
    requires complaint != "" && second != "" && mine.vin != other.vin
    requires Vin.WellFormed(mine.vin) && ValidNumbers(mine, lastYear)
    requires Vin.WellFormed(other.vin) && ValidNumbers(other, lastYear) && PlateKey(other.plate) == ""
    ensures |states| == 5 && states[0] == NoRecords
    ensures IsRun(states, TwoOwners(mine, other, complaint, first, second, now),
        [lastYear, lastYear, lastYear, lastYear])
    ensures 1 in states[4].vehicles && states[4].vehicles[1].customer == Some(5)
        && states[4].vehicles[1].vin == mine.vin
    ensures 3 in states[4].visits && states[4].visits[3].customer == Some(6) && states[4].visits[3].status == Converted
  {
    hide Vin.WellFormed;
    hide PlateKey;
    var ops := TwoOwners(mine, other, complaint, first, second, now);
    var s1 := After(NoRecords, ops[0], lastYear);
    assert forall id :: !HasVin(s1, id, mine.vin);
    var s2 := After(s1, ops[1], lastYear);
    assert forall id :: !HasVin(s2, id, other.vin);
    var s3 := After(s2, ops[2], lastYear);
    var s4 := After(s3, ops[3], lastYear);
    states := [NoRecords, s1, s2, s3, s4];
  }

  /** Where that run ends, attaching car 1 to the visit by its VIN gives it to 6; by its id it stays with 5. */
  lemma AttachingByVinTakesTheCar(
    mine: Details, other: Details, complaint: string, first: string, second: string, now: int, lastYear: int)
    returns (states: seq<Shop>)
    requires complaint != "" && second != "" && mine.vin != other.vin && mine.make != "" && mine.model != ""
    requires Vin.WellFormed(mine.vin) && ValidNumbers(mine, lastYear)
    requires Vin.WellFormed(other.vin) && ValidNumbers(other, lastYear) && PlateKey(other.plate) == ""
    ensures |states| == 5 && states[0] == NoRecords
    ensures IsRun(states, TwoOwners(mine, other, complaint, first, second, now),
        [lastYear, lastYear, lastYear, lastYear])
    ensures var byId := AttachedKnown(states[4], 3, 1);
            var byVin := AttachedDescribed(states[4], 3, Some(mine), 7, now, lastYear);
            && byId.Ok? && 1 in byId.value.vehicles && OwnerAfter(byId, 1) == Some(5)
            && byVin.Ok? && 1 in byVin.value.vehicles && OwnerAfter(byVin, 1) == Some(6)
  {
    hide Vin.WellFormed;
    hide PlateKey;
    hide AttachedKnown;
    hide AttachedDescribed;
    hide Good;
    hide IsRun;
    hide TwoOwners;
    states := TwoOwnersRun(mine, other, complaint, first, second, now, lastYear);
    var ops := TwoOwners(mine, other, complaint, first, second, now);
    NoRecordsAreGood();
    RunIsGood(states, ops, [lastYear, lastYear, lastYear, lastYear], 4);
    AttachingWaysAgreeExactlyWhen(states[4], 3, 1, mine, 7, now, lastYear);
  }
}
