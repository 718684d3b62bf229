/**
 The walk-in and CRM services of one shop, over its repositories.

 Each method does one unit of work: what is written before a failure is rolled back with it. Ids for new rows and
 the clock are parameters.
 */
module WalkInDesk {
  import opened Wrappers
  import opened ShopRecords
  import Vin

  /** A unit of work that came to what the operation should come to, with the same failure when it failed. */
  ghost predicate Done<T>(before: Shop, op: Op, lastYear: int, after: Shop, result: Result<T, Failure>) {
    && after == After(before, op, lastYear)
    && match Outcome(before, op, lastYear)
       case Ok(_) => result.Ok?
       case Err(failure) => result == Err(failure)
  }

  class Desk {
    var customers: map<int, string>
    var vehicles: map<int, Vehicle>
    var visits: map<int, Visit>
    var repairs: map<int, Repair>
    ghost var issued: set<int>

    ghost function State(): Shop
      reads this
    {
      Shop(customers, vehicles, visits, repairs, issued)
    }

    constructor ()
      ensures Good(State()) && visits == map[] && issued == {}
    {
      customers, vehicles, visits, repairs, issued := map[], map[], map[], map[], {};
    }

    // -------------------------------------------------------------- vehicle lookups

    method GetByVin(vin: string) returns (found: Option<int>)
      requires UniqueVins(State())
      ensures found == ByVin(State(), vin)
      ensures found.Some? ==> found.value in vehicles && vehicles[found.value].vin == vin
      ensures found.None? ==> forall id :: id in vehicles ==> vehicles[id].vin != vin
    {
      var rows := vehicles.Items;
      while rows != {}
        invariant rows <= vehicles.Items
        invariant forall id :: HasVin(State(), id, vin) ==> (id, vehicles[id]) in rows
      {
        var row :| row in rows;
        if row.1.vin == vin {
          assert HasVin(State(), row.0, vin);
          ByVinFinds(State(), vin, row.0);
          return Some(row.0);
        }
        rows := rows - {row};
      }
      found := None;
    }

    method GetByLicensePlate(key: string) returns (found: Option<int>)
      ensures IsNewestWithPlate(State(), key, found)
      ensures found.None? ==> forall id :: id in vehicles && vehicles[id].plate.Some? ==>
        PlateKey(vehicles[id].plate.value) != key
      ensures found.Some? ==>
        && found.value in vehicles && vehicles[found.value].plate.Some?
        && PlateKey(vehicles[found.value].plate.value) == key
        && forall id :: id in vehicles && vehicles[id].plate.Some? && PlateKey(vehicles[id].plate.value) == key ==>
          vehicles[id].created <= vehicles[found.value].created
    {
      found := None;
      var rows := vehicles.Items;
      while rows != {}
        invariant rows <= vehicles.Items
        invariant found.None? ==> forall id :: HasPlate(State(), id, key) ==> (id, vehicles[id]) in rows
        invariant found.Some? ==>
          && HasPlate(State(), found.value, key)
          && forall id :: HasPlate(State(), id, key) && (id, vehicles[id]) !in rows ==>
            vehicles[id].created <= vehicles[found.value].created
      {
        var row :| row in rows;
        var plate := row.1.plate;
        if plate.Some? && PlateKey(plate.value) == key {
          assert HasPlate(State(), row.0, key);
          if found.None? || row.1.created > vehicles[found.value].created {
            found := Some(row.0);
          }
        }
        rows := rows - {row};
      }
    }

    // -------------------------------------------------------------- walk-ins

    method Create(d: Details, complaint: string, vehicleId: int, visitId: int, now: int, lastYear: int)
      returns (result: Result<int, Failure>, ghost op: Op)
      requires Good(State()) && vehicleId !in issued && visitId !in issued && vehicleId != visitId
      modifies this
      ensures op.TakeIn? && op == TakeIn(d, complaint, op.found, vehicleId, visitId, now)
      ensures Possible(old(State()), op)
      ensures Done(old(State()), op, lastYear, State(), result)
    {
      hide Vin.WellFormed;
      hide PlateKey;
      hide References;
      var found := None;
      if PlateKey(d.plate) != "" {
        found := GetByLicensePlate(PlateKey(d.plate));
      }
      op := TakeIn(d, complaint, found, vehicleId, visitId, now);
      issued := issued + {vehicleId, visitId};
      if complaint == "" { return Err(Invalid), op; }
      if !Vin.WellFormed(d.vin) { return Err(Invalid), op; }
      var known := GetByVin(d.vin);
      SameVins(old(State()), State(), d.vin);
      if known.None? && PlateKey(d.plate) != "" {
        known := found;
      }
      if !IsYear(d.year, lastYear) || !IsMileage(d.mileage) { return Err(Invalid), op; }
      var id, owner;
      if known.None? {
        id, owner := vehicleId, None;
        vehicles := vehicles[id := Vehicle(None, d.vin, PlateOr(PlateKey(d.plate), None), d.year, d.make, d.model,
            d.mileage, now)];
      } else {
        var v := vehicles[known.value];
        id, owner := known.value, v.customer;
        vehicles := vehicles[id :=
          Vehicle(v.customer, v.vin, PlateOr(PlateKey(d.plate), v.plate), d.year, OrText(d.make, v.make),
                  OrText(d.model, v.model), d.mileage, v.created)];
      }
      visits := visits[visitId := Visit(id, owner, complaint, Open, now)];
      result := Ok(visitId);
    }

    method ConvertToCustomer(visitId: int, name: string, customerId: int) returns (result: Result<int, Failure>)
      requires Good(State()) && customerId !in issued
      modifies this
      ensures Done(old(State()), Convert(visitId, name, customerId), 0, State(), result)
    {
      issued := issued + {customerId};
      if visitId !in visits { return Err(NotFound); }
      var visit := visits[visitId];
      if visit.status == Closed { return Err(Conflict); }
      if visit.status == Cancelled { return Err(Conflict); }
      if visit.customer.Some? { return Err(Conflict); }
      if name == "" { return Err(Invalid); }
      assert VisitIsGood(old(State()), visit);
      customers := customers[customerId := name];
      var car := vehicles[visit.vehicle];
      vehicles := vehicles[visit.vehicle := car.(customer := Some(customerId))];
      visits := visits[visitId := visit.(customer := Some(customerId), status := Converted)];
      result := Ok(visitId);
    }

    /** The tail of `attach_vehicle`: settle the car's owner and write the visit. */
    method FinishAttaching(visitId: int, vehicleId: int)
      requires visitId in visits && vehicleId in vehicles
      modifies this`vehicles, this`visits
      ensures State() == Attached(old(State()), visitId, vehicleId)
    {
      var visit, car := visits[visitId], vehicles[vehicleId];
      if visit.customer.Some? && car.customer.None? {
        car := car.(customer := visit.customer);
        vehicles := vehicles[vehicleId := car];
      }
      assert vehicles == old(vehicles)[vehicleId := car];
      visits := visits[visitId := visit.(vehicle := vehicleId, customer := OrElse(visit.customer, car.customer))];
    }

    method AttachVehicle(visitId: int, vehicleId: int) returns (result: Result<int, Failure>)
      modifies this
      ensures Done(old(State()), AttachKnown(visitId, vehicleId), 0, State(), result)
    {
      assert issued == issued + {};
      if visitId !in visits { return Err(NotFound); }
      if visits[visitId].status in {Closed, Cancelled} { return Err(Conflict); }
      if vehicleId !in vehicles { return Err(NotFound); }
      FinishAttaching(visitId, vehicleId);
      result := Ok(visitId);
    }

    method AttachDescribedVehicle(visitId: int, given: Option<Details>, newId: int, now: int, lastYear: int)
      returns (result: Result<int, Failure>)
      requires Good(State()) && newId !in issued
      modifies this
      ensures Done(old(State()), AttachDescribed(visitId, given, newId, now), lastYear, State(), result)
    {
      issued := issued + {newId};
      if visitId !in visits { return Err(NotFound); }
      if visits[visitId].status in {Closed, Cancelled} { return Err(Conflict); }
      if given.None? { return Err(Invalid); }
      var visit, d := visits[visitId], given.value;
      if d.vin == "" || d.make == "" || d.model == "" { return Err(Invalid); }
      if !Vin.WellFormed(d.vin) { return Err(Invalid); }
      var existing := GetByVin(d.vin);
      SameVins(old(State()), State(), d.vin);
      if !IsYear(d.year, lastYear) || !IsMileage(d.mileage) { return Err(Invalid); }
      var id;
      if existing.Some? {
        id := existing.value;
        var v := vehicles[id];
        vehicles := vehicles[id :=
          Vehicle(OrElse(visit.customer, v.customer), v.vin, PlateOr(d.plate, v.plate), d.year, d.make, d.model,
              d.mileage, v.created)];
        assert HasVin(old(State()), id, d.vin);
      } else {
        id := newId;
        vehicles := vehicles[id := Vehicle(visit.customer, d.vin, PlateOr(d.plate, None), d.year, d.make, d.model,
            d.mileage, now)];
      }
      FinishAttaching(visitId, id);
      result := Ok(visitId);
    }

    method CloseVisit(visitId: int) returns (result: Result<int, Failure>)
      modifies this
      ensures Done(old(State()), Close(visitId), 0, State(), result)
    {
      assert issued == issued + {};
      if visitId !in visits { return Err(NotFound); }
      var visit := visits[visitId];
      if visit.status == Closed { return Ok(visitId); }
      if visit.status == Cancelled { return Err(Conflict); }
      visits := visits[visitId := visit.(status := Closed)];
      result := Ok(visitId);
    }

    method CancelVisit(visitId: int) returns (result: Result<int, Failure>)
      modifies this
      ensures Done(old(State()), Cancel(visitId), 0, State(), result)
    {
      assert issued == issued + {};
      if visitId !in visits { return Err(NotFound); }
      var visit := visits[visitId];
      if visit.status == Cancelled { return Ok(visitId); }
      if visit.status == Closed { return Err(Conflict); }
      visits := visits[visitId := visit.(status := Cancelled)];
      result := Ok(visitId);
    }

    method AttachRepairHistory(visitId: int, cost: int, repairId: int) returns (result: Result<int, Failure>)
      requires Good(State()) && repairId !in issued
      modifies this
      ensures Done(old(State()), AddRepair(visitId, cost, repairId), 0, State(), result)
    {
      issued := issued + {repairId};
      if visitId !in visits { return Err(NotFound); }
      var visit := visits[visitId];
      if visit.status == Closed || visit.status == Cancelled { return Err(Conflict); }
      if visit.vehicle !in vehicles { return Err(NotFound); }
      if cost < 0 { return Err(Invalid); }
      repairs := repairs[repairId := Repair(OrElse(visit.customer, vehicles[visit.vehicle].customer), visit.vehicle,
          cost)];
      result := Ok(repairId);
    }

    // -------------------------------------------------------------- customers and vehicles

    /** The visits that go neither by their customer nor by their car. */
    method OtherVisits(customerId: int, owned: set<int>) returns (kept: map<int, Visit>)
      requires forall id :: id in owned <==> OwnedBy(State(), id, customerId)
      ensures kept == VisitsOfOthers(State(), customerId)
    {
      kept := map id | id in visits && visits[id].customer != Some(customerId) && visits[id].vehicle !in owned ::
          visits[id];
    }

    method OtherRepairs(customerId: int, owned: set<int>) returns (kept: map<int, Repair>)
      requires forall id :: id in owned <==> OwnedBy(State(), id, customerId)
      ensures kept == RepairsOfOthers(State(), customerId)
    {
      kept := map id | id in repairs && repairs[id].customer != Some(customerId) && repairs[id].vehicle !in owned ::
          repairs[id];
    }

    method DeleteCustomer(customerId: int) returns (result: Result<int, Failure>)
      modifies this
      ensures Done(old(State()), RemoveCustomer(customerId), 0, State(), result)
    {
      hide VisitsOfOthers;
      hide RepairsOfOthers;
      assert issued == issued + {};
      if customerId !in customers { return Err(NotFound); }
      var owned := set id | id in vehicles && vehicles[id].customer == Some(customerId);
      var keptVisits := OtherVisits(customerId, owned);
      var keptRepairs := OtherRepairs(customerId, owned);
      visits, repairs, vehicles := keptVisits, keptRepairs, vehicles - owned;
      customers := customers - {customerId};
      assert vehicles == CarsOfOthers(old(State()), customerId);
      assert State() == WithoutCustomer(old(State()), customerId).value;
      result := Ok(customerId);
    }

    method CreateVehicle(customerId: int, d: Details, vehicleId: int, now: int, lastYear: int)
        returns (result: Result<int, Failure>)
      requires Good(State()) && vehicleId !in issued
      modifies this
      ensures Done(old(State()), AddVehicle(customerId, d, vehicleId, now), lastYear, State(), result)
    {
      issued := issued + {vehicleId};
      if customerId !in customers { return Err(NotFound); }
      if !Vin.WellFormed(d.vin) { return Err(Invalid); }
      var existing := GetByVin(d.vin);
      SameVins(old(State()), State(), d.vin);
      if existing.Some? { return Err(Conflict); }
      if !IsYear(d.year, lastYear) || !IsMileage(d.mileage) { return Err(Invalid); }
      vehicles := vehicles[vehicleId :=
        Vehicle(Some(customerId), d.vin, PlateOr(d.plate, None), d.year, d.make, d.model, d.mileage, now)];
      result := Ok(vehicleId);
    }

    /** The VIN an update would leave: it may not be another vehicle's. */
    method CheckVin(vehicleId: int, vin: Change<string>) returns (next: Result<string, Failure>)
      requires Good(State()) && vehicleId in vehicles
      ensures next == NextVin(State(), vehicleId, vin)
    {
      if vin.Keep? { return Ok(vehicles[vehicleId].vin); }
      if vin.value.None? || !Vin.WellFormed(vin.value.value) { return Err(Invalid); }
      if vin.value.value != vehicles[vehicleId].vin {
        var conflict := GetByVin(vin.value.value);
        if conflict.Some? && conflict.value != vehicleId { return Err(Conflict); }
      } else {
        assert HasVin(State(), vehicleId, vin.value.value);
        ByVinFinds(State(), vin.value.value, vehicleId);
      }
      next := Ok(vin.value.value);
    }

    /** The other fields of an update, in the order they are looked at. */
    method CheckFields(current: Vehicle, plate: Change<string>, year: Change<int>, make: Change<string>,
                       model: Change<string>, mileage: Change<int>, lastYear: int)
      returns (result: Result<Vehicle, Failure>)
      ensures result == NextFields(current, plate, year, make, model, mileage, lastYear)
    {
      var next := current;
      if plate.Set? {
        next := next.(plate := if plate.value.Some? && plate.value.value != "" then plate.value else None);
      }
      if year.Set? {
        if year.value.None? || !IsYear(year.value.value, lastYear) { return Err(Invalid); }
        next := next.(year := year.value.value);
      }
      if make.Set? {
        if make.value.None? || make.value.value == "" { return Err(Invalid); }
        next := next.(make := make.value.value);
      }
      if model.Set? {
        if model.value.None? || model.value.value == "" { return Err(Invalid); }
        next := next.(model := model.value.value);
      }
      if mileage.Set? {
        if mileage.value.None? || !IsMileage(mileage.value.value) { return Err(Invalid); }
        next := next.(mileage := mileage.value.value);
      }
      result := Ok(next);
    }

    method UpdateVehicle(vehicleId: int, vin: Change<string>, plate: Change<string>, year: Change<int>,
                         make: Change<string>, model: Change<string>, mileage: Change<int>, lastYear: int)
      returns (result: Result<int, Failure>)
      requires Good(State())
      modifies this
      ensures Done(old(State()), EditVehicle(vehicleId, vin, plate, year, make, model, mileage), lastYear, State(),
          result)
    {
      hide Good;
      hide NextVin;
      hide NextFields;
      assert issued == issued + {};
      if vehicleId !in vehicles { return Err(NotFound); }
      var nextVin := CheckVin(vehicleId, vin);
      if nextVin.Err? { return Err(nextVin.error); }
      var next := CheckFields(vehicles[vehicleId].(vin := nextVin.value), plate, year, make, model, mileage, lastYear);
      if next.Err? { return Err(next.error); }
      vehicles := vehicles[vehicleId := next.value];
      result := Ok(vehicleId);
    }

    method DeleteVehicle(vehicleId: int) returns (result: Result<int, Failure>)
      modifies this
      ensures Done(old(State()), RemoveVehicle(vehicleId), 0, State(), result)
    {
      assert issued == issued + {};
      if vehicleId !in vehicles { return Err(NotFound); }
      if exists id :: id in visits && visits[id].vehicle == vehicleId { return Err(Conflict); }
      vehicles := vehicles - {vehicleId};
      repairs := map id | id in repairs && repairs[id].vehicle != vehicleId :: repairs[id];
      result := Ok(vehicleId);
    }
  }
}
