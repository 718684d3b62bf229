/**
 What each operation of a shop comes to, field by field: when it succeeds, which failure it ends with otherwise, and
 which rows it leaves changed.
 */
module ShopOutcomes {
  import opened Wrappers
  import opened ShopRecords
  import Vin

  // ---------------------------------------------------------------- plates

  /** Only capital letters and digits of a plate count, in their order. */
  lemma {:induction false} PlateKeyKeepsOrder(a: string, b: string)
    ensures PlateKey(a + b) == PlateKey(a) + PlateKey(b)
  {
    if a == "" {
      assert a + b == b;
    } else {
      assert (a + b)[1..] == a[1..] + b;
      PlateKeyKeepsOrder(a[1..], b);
    }
  }

  lemma PlateKeyOfOne(c: char)
    ensures PlateKey([c]) == if 'A' <= c <= 'Z' || '0' <= c <= '9' then [c] else ""
  {
    assert [c][1..] == "" && PlateKey("") == "";
  }

  /** So spacing a plate in any way does not make it another plate. */
  lemma SpacedPlateIsTheSame(a: string, b: string, spacing: char)
    requires spacing == ' ' || spacing == '-'
    ensures PlateKey(a + [spacing] + b) == PlateKey(a + b)
  {
    PlateKeyKeepsOrder(a + [spacing], b);
    PlateKeyKeepsOrder(a, [spacing]);
    PlateKeyKeepsOrder(a, b);
    PlateKeyOfOne(spacing);
  }

  // ---------------------------------------------------------------- walk-ins

  /** An intake fails only over what it was given; nothing that is on record can stop it. */
  lemma IntakeSucceedsExactlyWhen(s: Shop, op: Op, lastYear: int)
    requires op.TakeIn?
    ensures var r, d := Outcome(s, op, lastYear), op.details;
            && (r.Ok? <==> op.complaint != "" && Vin.WellFormed(d.vin) && 1900 <= d.year <= lastYear
                           && 0 <= d.mileage <= 3_000_000)
            && (r.Err? ==> r.error == Invalid)
  {
    hide Vin.WellFormed;
  }

  /** A known car takes over what was told about it and keeps what was not; a new one is as it was told. */
  lemma IntakeFields(s: Shop, op: Op, lastYear: int)
    requires Good(s) && Possible(s, op) && op.TakeIn? && Outcome(s, op, lastYear).Ok?
    ensures var t, d := Outcome(s, op, lastYear).value, op.details;
            && op.visitId in t.visits && t.visits[op.visitId].vehicle in t.vehicles
            && var id := t.visits[op.visitId].vehicle;
               var car, told := t.vehicles[id], PlateKey(d.plate);
               && car.year == d.year && car.mileage == d.mileage
               && (id in s.vehicles ==>
                     && car.make == (if d.make != "" then d.make else s.vehicles[id].make)
                     && car.model == (if d.model != "" then d.model else s.vehicles[id].model)
                     && car.plate == (if told != "" then Some(told) else s.vehicles[id].plate))
               && (id !in s.vehicles ==>
                     && id == op.vehicleId && car.make == d.make && car.model == d.model && car.created == op.now
                     && car.plate == if told != "" then Some(told) else None)
  {
    hide PlateKey;
    hide Vin.WellFormed;
    hide References;
    IntakeIsForTheCarThatArrived(s, op, lastYear);
    assert op.vehicleId in NewIds(op) && op.vehicleId !in s.issued;
  }

  /** A visit that is there and neither closed nor cancelled. */
  predicate Workable(s: Shop, visit: int) {
    visit in s.visits && (s.visits[visit].status == Open || s.visits[visit].status == Converted)
  }

  /**
   A visit that cannot be worked on is missing or in conflict, and so fails converting, attaching and repairing alike.
   */
  lemma EndedVisitsAreLeftAlone(s: Shop, op: Op, lastYear: int)
    requires match op
             case Convert(visit, _, _) => !Workable(s, visit)
             case AttachKnown(visit, _) => !Workable(s, visit)
             case AttachDescribed(visit, _, _, _) => !Workable(s, visit)
             case AddRepair(visit, _, _) => !Workable(s, visit)
             case _ => false
    ensures Outcome(s, op, lastYear) == Err(if op.visit in s.visits then Conflict else NotFound)
  {
  }

  /** Converting: when, with which failure otherwise, and everything it changes. */
  lemma ConvertingSucceedsExactlyWhen(s: Shop, visit: int, name: string, customerId: int, lastYear: int)
    requires Workable(s, visit)
    ensures var r, v := Outcome(s, Convert(visit, name, customerId), lastYear), s.visits[visit];
            && (r.Ok? <==> v.customer == None && name != "" && v.vehicle in s.vehicles)
            && (r.Err? ==>
                  r.error == if v.customer.Some? then Conflict else if name == "" then Invalid else NotFound)
            && (r.Ok? ==>
                  && r.value.customers == s.customers[customerId := name]
                  && r.value.vehicles == s.vehicles[v.vehicle := s.vehicles[v.vehicle].(customer := Some(customerId))]
                  && r.value.visits ==
                       s.visits[visit := Visit(v.vehicle, Some(customerId), v.complaint, Converted, v.arrived)]
                  && r.value.repairs == s.repairs)
  {
  }

  /** Attaching a car by its id: visit and car fill in each other's missing customer, nothing else of them changes. */
  lemma AttachingKnownLeaves(s: Shop, visit: int, car: int, lastYear: int)
    requires Workable(s, visit)
    ensures var r, v := Outcome(s, AttachKnown(visit, car), lastYear), s.visits[visit];
            && (r.Ok? <==> car in s.vehicles) && (r.Err? ==> r.error == NotFound)
            && (r.Ok? ==>
                  var owner := s.vehicles[car].customer;
                  && r.value.customers == s.customers && r.value.repairs == s.repairs
                  && r.value.vehicles ==
                       s.vehicles[car := s.vehicles[car].(customer := if owner.Some? then owner else v.customer)]
                  && r.value.visits ==
                       s.visits[visit :=
                         Visit(car, if v.customer.Some? then v.customer else owner, v.complaint, v.status, v.arrived)])
  {
  }

  /** What a description has to have for the car to be attached. */
  predicate Describes(d: Details, lastYear: int) {
    && d.vin != "" && d.make != "" && d.model != "" && Vin.WellFormed(d.vin)
    && 1900 <= d.year <= lastYear && 0 <= d.mileage <= 3_000_000
  }

  /**
   Attaching a car by its description: the row with its VIN, or a new one, takes over the description, but for a plate
   that was not given and the age; it goes to the visit's customer, or keeps its own where the visit has none.
   */
  lemma AttachingDescribedLeaves(s: Shop, visit: int, given: Option<Details>, newId: int, now: int, lastYear: int)
    requires Good(s) && Workable(s, visit) && newId !in s.issued
    ensures var r := Outcome(s, AttachDescribed(visit, given, newId, now), lastYear);
            && (r.Ok? <==> given.Some? && Describes(given.value, lastYear)) && (r.Err? ==> r.error == Invalid)
            && (r.Ok? ==>
                  && visit in r.value.visits && r.value.visits[visit].vehicle in r.value.vehicles
                  && var d, v, w := given.value, s.visits[visit], r.value.visits[visit];
                     var id := w.vehicle;
                     var car := r.value.vehicles[id];
                     var known := exists other :: other in s.vehicles && s.vehicles[other].vin == d.vin;
                     && (known <==> id in s.vehicles) && (!known ==> id == newId)
                     && (car.vin, car.year, car.make, car.model, car.mileage) ==
                        (d.vin, d.year, d.make, d.model, d.mileage)
                     && car.plate == (if d.plate != "" then Some(d.plate)
                                      else if known then s.vehicles[id].plate else None)
                     && car.created == (if known then s.vehicles[id].created else now)
                     && car.customer == (if v.customer.Some? then v.customer
                                         else if known then s.vehicles[id].customer else None)
                     && w == Visit(id, car.customer, v.complaint, v.status, v.arrived)
                     && r.value == s.(vehicles := s.vehicles[id := car], visits := s.visits[visit := w]))
  {
    hide Vin.WellFormed;
    hide References;
    if given.Some? && Describes(given.value, lastYear) {
      var d := given.value;
      if other :| other in s.vehicles && s.vehicles[other].vin == d.vin {
        assert HasVin(s, other, d.vin);
        ByVinFinds(s, d.vin, other);
      } else {
        assert forall id :: !HasVin(s, id, d.vin);
        assert newId !in s.vehicles;
      }
    }
  }

  /** Ending a visit: done twice it changes nothing, after the other end it is refused, else only the status changes. */
  lemma EndingLeaves(s: Shop, visit: int, lastYear: int)
    ensures var closed, cancelled := Outcome(s, Close(visit), lastYear), Outcome(s, Cancel(visit), lastYear);
            if visit !in s.visits then closed == Err(NotFound) && cancelled == Err(NotFound)
            else
              match s.visits[visit].status
              case Closed => closed == Ok(s) && cancelled == Err(Conflict)
              case Cancelled => closed == Err(Conflict) && cancelled == Ok(s)
              case _ =>
                && closed == Ok(s.(visits := s.visits[visit := s.visits[visit].(status := Closed)]))
                && cancelled == Ok(s.(visits := s.visits[visit := s.visits[visit].(status := Cancelled)]))
  {
  }

  /** A repair is for the visit's car and for the visit's customer, or the car's owner where the visit has none. */
  lemma RepairLeaves(s: Shop, visit: int, cost: int, repairId: int, lastYear: int)
    requires Workable(s, visit)
    ensures var r, v := Outcome(s, AddRepair(visit, cost, repairId), lastYear), s.visits[visit];
            && (r.Ok? <==> v.vehicle in s.vehicles && cost >= 0)
            && (r.Err? ==> r.error == if v.vehicle in s.vehicles then Invalid else NotFound)
            && (r.Ok? ==>
                  r.value == s.(repairs := s.repairs[repairId :=
                    Repair(if v.customer.Some? then v.customer else s.vehicles[v.vehicle].customer, v.vehicle, cost)]))
  {
  }

  // ---------------------------------------------------------------- customers and vehicles

  /** A customer's deletion fails only for want of the customer; it takes along exactly what is the customer's. */
  lemma RemovingACustomerLeaves(s: Shop, customer: int, lastYear: int)
    ensures var r := Outcome(s, RemoveCustomer(customer), lastYear);
            && (r.Ok? <==> customer in s.customers) && (r.Err? ==> r.error == NotFound)
            && (r.Ok? ==>
                  && (forall id :: id in r.value.customers <==> id in s.customers && id != customer)
                  && (forall id :: id in r.value.vehicles <==>
                        id in s.vehicles && s.vehicles[id].customer != Some(customer))
                  && (forall id :: id in r.value.visits <==>
                        && id in s.visits && s.visits[id].customer != Some(customer)
                        && (s.visits[id].vehicle in s.vehicles ==>
                              s.vehicles[s.visits[id].vehicle].customer != Some(customer)))
                  && (forall id :: id in r.value.repairs <==>
                        && id in s.repairs && s.repairs[id].customer != Some(customer)
                        && (s.repairs[id].vehicle in s.vehicles ==>
                              s.vehicles[s.repairs[id].vehicle].customer != Some(customer)))
                  && (forall id :: id in r.value.customers ==> r.value.customers[id] == s.customers[id])
                  && (forall id :: id in r.value.vehicles ==> r.value.vehicles[id] == s.vehicles[id])
                  && (forall id :: id in r.value.visits ==> r.value.visits[id] == s.visits[id])
                  && (forall id :: id in r.value.repairs ==> r.value.repairs[id] == s.repairs[id]))
  {
  }

  /** A vehicle is created for a customer who exists, under a VIN nobody has, exactly as it was given. */
  lemma CreatingAVehicleLeaves(s: Shop, customer: int, d: Details, vehicleId: int, now: int, lastYear: int)
    ensures var r := Outcome(s, AddVehicle(customer, d, vehicleId, now), lastYear);
            var taken := exists other :: other in s.vehicles && s.vehicles[other].vin == d.vin;
            && r.Ok? == (customer in s.customers && Vin.WellFormed(d.vin) && !taken
                         && 1900 <= d.year <= lastYear && 0 <= d.mileage <= 3_000_000)
            && (r.Err? ==>
                  r.error == if customer !in s.customers then NotFound
                             else if Vin.WellFormed(d.vin) && taken then Conflict else Invalid)
            && (r.Ok? ==>
                  r.value == s.(vehicles := s.vehicles[vehicleId :=
                    Vehicle(Some(customer), d.vin, if d.plate != "" then Some(d.plate) else None, d.year, d.make,
                            d.model, d.mileage, now)]))
  {
    hide Vin.WellFormed;
    if other :| other in s.vehicles && s.vehicles[other].vin == d.vin {
      assert HasVin(s, other, d.vin);
    } else {
      assert forall id :: !HasVin(s, id, d.vin);
    }
  }

  lemma AddingACustomerLeaves(s: Shop, name: string, customerId: int, lastYear: int)
    ensures var r := Outcome(s, AddCustomer(name, customerId), lastYear);
            r.Ok? && r.value == s.(customers := s.customers[customerId := name])
  {
  }

  /** A field that was set, but not to nothing. */
  predicate SetToSome<T>(change: Change<T>) {
    change.Set? ==> change.value.Some?
  }

  /** After an update each field that was set has the value given and each other field the one it had. */
  predicate Takes<T(==)>(change: Change<T>, before: T, after: T) {
    match change
    case Keep => after == before
    case Set(value) => value == Some(after)
  }

  /**
   An update of a vehicle is refused, as a whole, exactly when the vehicle is missing, when it sets VIN, year, make,
   model or mileage to nothing or to what is not allowed, or sets the VIN to another vehicle's; otherwise what was
   set, and only that, changes, in that one row.
   */
  lemma UpdatingSucceedsExactlyWhen(s: Shop, op: Op, lastYear: int)
    requires Good(s) && op.EditVehicle?
    ensures var r := Outcome(s, op, lastYear);
            var another := op.vin.Set? && op.vin.value.Some? && exists other ::
                             other in s.vehicles && other != op.vehicle && s.vehicles[other].vin == op.vin.value.value;
            && r.Ok? == (&& op.vehicle in s.vehicles && SetToSome(op.vin) && !another
                         && (op.vin.Set? && op.vin.value.Some? ==> Vin.WellFormed(op.vin.value.value))
                         && SetToSome(op.year) && SetToSome(op.make) && SetToSome(op.model) && SetToSome(op.mileage)
                         && (op.year.Set? && op.year.value.Some? ==> 1900 <= op.year.value.value <= lastYear)
                         && (op.make.Set? ==> op.make.value != Some(""))
                         && (op.model.Set? ==> op.model.value != Some(""))
                         && (op.mileage.Set? && op.mileage.value.Some? ==> 0 <= op.mileage.value.value <= 3_000_000))
            && (r.Err? ==>
                  r.error == if op.vehicle !in s.vehicles then NotFound
                             else if another && Vin.WellFormed(op.vin.value.value) then Conflict else Invalid)
  {
    hide Vin.WellFormed;
    hide References;
    if op.vehicle in s.vehicles && op.vin.Set? && op.vin.value.Some? {
      var vin := op.vin.value.value;
      if other :| other in s.vehicles && s.vehicles[other].vin == vin {
        assert HasVin(s, other, vin);
        ByVinFinds(s, vin, other);
      } else {
        assert forall id :: !HasVin(s, id, vin);
      }
    }
  }

  lemma UpdatingLeaves(s: Shop, op: Op, lastYear: int)
    requires op.EditVehicle? && Outcome(s, op, lastYear).Ok?
    ensures var t := Outcome(s, op, lastYear).value;
            && op.vehicle in s.vehicles && op.vehicle in t.vehicles
            && var v, w := s.vehicles[op.vehicle], t.vehicles[op.vehicle];
               && Takes(op.vin, v.vin, w.vin) && Takes(op.year, v.year, w.year) && Takes(op.make, v.make, w.make)
               && Takes(op.model, v.model, w.model) && Takes(op.mileage, v.mileage, w.mileage)
               && (op.plate.Keep? ==> w.plate == v.plate)
               && (op.plate.Set? ==> w.plate == if op.plate.value == Some("") then None else op.plate.value)
               && w.customer == v.customer && w.created == v.created
               && t == s.(vehicles := s.vehicles[op.vehicle := w])
  {
  }

  ghost predicate Visited(s: Shop, vehicle: int) {
    exists id :: id in s.visits && s.visits[id].vehicle == vehicle
  }

  /** A vehicle goes exactly when no visit names it; its repairs go along and nothing else. */
  lemma RemovingAVehicleLeaves(s: Shop, vehicle: int, lastYear: int)
    ensures var r := Outcome(s, RemoveVehicle(vehicle), lastYear);
            && (r.Ok? <==> vehicle in s.vehicles && !Visited(s, vehicle))
            && (r.Err? ==> r.error == if vehicle in s.vehicles then Conflict else NotFound)
            && (r.Ok? ==>
                  && r.value.customers == s.customers && r.value.visits == s.visits
                  && (forall id :: id in r.value.vehicles <==> id in s.vehicles && id != vehicle)
                  && (forall id :: id in r.value.vehicles ==> r.value.vehicles[id] == s.vehicles[id])
                  && (forall id :: id in r.value.repairs <==> id in s.repairs && s.repairs[id].vehicle != vehicle)
                  && (forall id :: id in r.value.repairs ==> r.value.repairs[id] == s.repairs[id]))
  {
    var r := Outcome(s, RemoveVehicle(vehicle), lastYear);
    assert r == WithoutVehicle(s, vehicle);
    if id :| id in s.visits && s.visits[id].vehicle == vehicle {
      assert Visited(s, vehicle);
    } else {
      assert !Visited(s, vehicle);
    }
  }

  /** A failed operation leaves the records as they were, and ids are never taken back. */
  lemma FailedLeavesTheRecords(s: Shop, op: Op, lastYear: int)
    ensures var t := After(s, op, lastYear);
            && (Outcome(s, op, lastYear).Err? ==> t == s.(issued := t.issued))
            && (Outcome(s, op, lastYear).Ok? ==> t == Outcome(s, op, lastYear).value.(issued := t.issued))
            && s.issued <= t.issued
  {
  }
}
