/**
 * The car-park registry (CarPark.java). It keeps a map from slot id to slot,
 * the set of slot ids ever added, and the set of registrations ever parked.
 * The operations as written never shrink either set; the corrected
 * `...Releasing` removals below do.
 *
 * `Valid` is what every operation needs and keeps: each slot is stored under
 * its own id, every stored id is in the used-id set, and each slot's
 * `occupied` flag agrees with its car reference. `RegistrationsIndexed` is
 * the consistency of the registration set: it holds the registration of
 * every occupied slot, and no two occupied slots hold the same registration.
 * `IndexExact` is the stronger rule that the field comment at CarPark.java:24
 * and the documentation of parkCar describe, under which the set is exactly
 * the registrations that are parked now. The removal methods as
 * written break it; the `...Releasing` variants keep it.
 */
module Registry {
  import opened Wrappers
  import opened Cars
  import opened Slots
  import opened CaseFold

  /** The match condition of the registration scans: occupied, with a car carrying `r`. */
  predicate HoldsRegistration(slot: ParkingSlot, r: string)
    reads slot
  {
    slot.occupied && slot.parkedCar != null && slot.parkedCar.registrationNumber == r
  }

  /** The match condition of findCarsByMake: occupied, with a car whose make equals `make` ignoring case. */
  predicate HoldsMake(slot: ParkingSlot, make: string)
    reads slot
  {
    slot.occupied && slot.parkedCar != null && EqualsIgnoreCase(slot.parkedCar.make, make)
  }

  class CarPark {
    var parkingSlots: map<string, ParkingSlot>
    var usedSlotNumbers: set<string>
    var parkedCarRegistrationNumbers: set<string>

    ghost predicate Valid()
      reads this, parkingSlots.Values
    {
      && parkingSlots.Keys <= usedSlotNumbers
      && (forall id | id in parkingSlots :: parkingSlots[id].slotID == id && parkingSlots[id].Valid())
    }

    /** The registrations of all occupied slots. */
    ghost function OccupiedRegistrations(): set<string>
      reads this, parkingSlots.Values
    {
      set id | id in parkingSlots && parkingSlots[id].occupied && parkingSlots[id].parkedCar != null
        :: parkingSlots[id].parkedCar.registrationNumber
    }

    ghost predicate RegistrationsIndexed()
      reads this, parkingSlots.Values
    {
      && OccupiedRegistrations() <= parkedCarRegistrationNumbers
      && (forall i, j, r | i in parkingSlots && j in parkingSlots
            && HoldsRegistration(parkingSlots[i], r) && HoldsRegistration(parkingSlots[j], r) :: i == j)
    }

    ghost predicate IndexExact()
      reads this, parkingSlots.Values
    {
      RegistrationsIndexed() && parkedCarRegistrationNumbers == OccupiedRegistrations()
    }

    /** The slot ids whose slot is occupied by a car of make `make`, ignoring case. */
    ghost function SlotsWithMake(make: string): set<string>
      reads this, parkingSlots.Values
    {
      set id | id in parkingSlots && HoldsMake(parkingSlots[id], make)
    }

    constructor ()
      ensures Valid() && IndexExact()
      ensures parkingSlots == map[] && usedSlotNumbers == {} && parkedCarRegistrationNumbers == {}
    {
      parkingSlots := map[];
      usedSlotNumbers := {};
      parkedCarRegistrationNumbers := {};
    }

    /** A copy of the stored slots, in no promised order, each exactly once. */
    method GetParkingSlots() returns (list: seq<ParkingSlot>)
      requires Valid()
      ensures forall s :: s in list <==> s in parkingSlots.Values
      ensures |list| == |parkingSlots|
      ensures forall i, j | 0 <= i < j < |list| :: list[i] != list[j]
    {
      list := [];
      var todo := parkingSlots.Keys;
      while todo != {}
        invariant todo <= parkingSlots.Keys
        invariant |list| == |parkingSlots.Keys - todo|
        invariant forall i | 0 <= i < |list| ::
          list[i].slotID in parkingSlots.Keys - todo && parkingSlots[list[i].slotID] == list[i]
        invariant forall id | id in parkingSlots.Keys - todo :: parkingSlots[id] in list
        invariant forall i, j | 0 <= i < j < |list| :: list[i] != list[j]
        decreases todo
      {
        var id :| id in todo;
        assert parkingSlots.Keys - (todo - {id}) == (parkingSlots.Keys - todo) + {id};
        list := list + [parkingSlots[id]];
        todo := todo - {id};
      }
    }

    /** Adds `slot` under its id unless that id was ever used before. */
    method AddParkingSlot(slot: ParkingSlot) returns (ok: bool)
      requires Valid() && slot.Valid()
      modifies this
      ensures Valid()
      ensures ok <==> slot.slotID !in old(usedSlotNumbers)
      ensures ok ==> parkingSlots == old(parkingSlots)[slot.slotID := slot]
      ensures ok ==> usedSlotNumbers == old(usedSlotNumbers) + {slot.slotID}
      ensures !ok ==> parkingSlots == old(parkingSlots) && usedSlotNumbers == old(usedSlotNumbers)
      ensures parkedCarRegistrationNumbers == old(parkedCarRegistrationNumbers)
      ensures old(RegistrationsIndexed()) && !slot.occupied ==> RegistrationsIndexed()
      ensures old(IndexExact()) && !slot.occupied ==> IndexExact()
    {
      var slotID := slot.slotID;
      if slotID in usedSlotNumbers {
        return false;
      }
      assert slotID !in parkingSlots;
      parkingSlots := parkingSlots[slotID := slot];
      usedSlotNumbers := usedSlotNumbers + {slotID};
      if !slot.occupied {
        assert OccupiedRegistrations() == old(OccupiedRegistrations()) by {
          forall x | x in OccupiedRegistrations() ensures x in old(OccupiedRegistrations()) {
            var id :| id in parkingSlots && parkingSlots[id].occupied && parkingSlots[id].parkedCar != null
              && parkingSlots[id].parkedCar.registrationNumber == x;
            assert id != slotID && id in old(parkingSlots);
          }
          forall x | x in old(OccupiedRegistrations()) ensures x in OccupiedRegistrations() {
            var id :| id in old(parkingSlots) && parkingSlots[id].occupied && parkingSlots[id].parkedCar != null
              && parkingSlots[id].parkedCar.registrationNumber == x;
            assert id != slotID && parkingSlots[id] == old(parkingSlots)[id];
          }
        }
      }
      return true;
    }

    /** Removes the slot `slotID` when it exists and is empty; its id stays used. */
    method DeleteParkingSlot(slotID: string)
      requires Valid()
      modifies this
      ensures Valid()
      ensures if slotID in old(parkingSlots) && !old(parkingSlots[slotID].occupied)
        then parkingSlots == old(parkingSlots) - {slotID}
        else parkingSlots == old(parkingSlots)
      ensures usedSlotNumbers == old(usedSlotNumbers)
      ensures parkedCarRegistrationNumbers == old(parkedCarRegistrationNumbers)
      ensures old(RegistrationsIndexed()) ==> RegistrationsIndexed()
      ensures old(IndexExact()) ==> IndexExact()
    {
      if slotID in parkingSlots && !parkingSlots[slotID].occupied {
        ghost var before := parkingSlots;
        parkingSlots := parkingSlots - {slotID};
        forall x | x in old(OccupiedRegistrations()) ensures x in OccupiedRegistrations() {
          var id :| id in before && before[id].occupied && before[id].parkedCar != null
            && before[id].parkedCar.registrationNumber == x;
          assert id != slotID && id in parkingSlots;
        }
      }
    }

    /** The status of every slot: "Occupied" for an occupied one, "Empty" otherwise. */
    method GetAllParkingSlotsAndStatus() returns (status: map<string, string>)
      ensures status.Keys == parkingSlots.Keys
      ensures forall id | id in status :: status[id] == "Occupied" <==> parkingSlots[id].occupied
      ensures forall id | id in status :: status[id] == "Empty" <==> !parkingSlots[id].occupied
    {
      status := map[];
      var todo := parkingSlots.Keys;
      while todo != {}
        invariant todo <= parkingSlots.Keys
        invariant status.Keys == parkingSlots.Keys - todo
        invariant forall id | id in status ::
          status[id] == if parkingSlots[id].occupied then "Occupied" else "Empty"
        decreases todo
      {
        var id :| id in todo;
        var text := if parkingSlots[id].occupied then "Occupied" else "Empty";
        status := status[id := text];
        todo := todo - {id};
      }
    }

    /** The slot stored under `slotID`, or null. */
    function GetParkingSlot(slotID: string): (slot: ParkingSlot?)
      requires Valid()
      reads this, parkingSlots.Values
      ensures slot != null <==> slotID in parkingSlots
      ensures slot != null ==> slot == parkingSlots[slotID] && slot.slotID == slotID
    {
      if slotID in parkingSlots then parkingSlots[slotID] else null
    }

    /**
     * Parks `car` in slot `slotID` when the slot exists, is empty, and the
     * car's registration was never parked before; `now` is the time the car
     * records.
     */
    method ParkCar(slotID: string, car: Car, now: string) returns (ok: bool)
      requires Valid()
      modifies this, car, if slotID in parkingSlots then {parkingSlots[slotID]} else {}
      ensures Valid()
      ensures ok <==> slotID in old(parkingSlots) && !old(parkingSlots[slotID].occupied)
                      && car.registrationNumber !in old(parkedCarRegistrationNumbers)
      ensures parkingSlots == old(parkingSlots) && usedSlotNumbers == old(usedSlotNumbers)
      ensures ok ==> parkingSlots[slotID].occupied && parkingSlots[slotID].parkedCar == car
      ensures ok ==> car.isParked && car.parkingTime == Some(now)
      ensures ok ==> parkedCarRegistrationNumbers == old(parkedCarRegistrationNumbers) + {car.registrationNumber}
      ensures !ok ==> parkedCarRegistrationNumbers == old(parkedCarRegistrationNumbers) && unchanged(car)
      ensures !ok && slotID in parkingSlots ==> unchanged(parkingSlots[slotID])
      ensures old(RegistrationsIndexed()) ==> RegistrationsIndexed()
      ensures old(IndexExact()) ==> IndexExact()
    {
      if slotID in parkingSlots && !parkingSlots[slotID].occupied {
        var slot := parkingSlots[slotID];
        var registrationNumber := car.registrationNumber;
        if registrationNumber !in parkedCarRegistrationNumbers {
          slot.ParkCar(car);
          car.Park(now);
          parkedCarRegistrationNumbers := parkedCarRegistrationNumbers + {registrationNumber};
          return true;
        }
      }
      return false;
    }

    /**
     * Finds an occupied slot whose car has registration `r` (exact match),
     * and returns that car with its slot, or None when there is none.
     */
    method FindCarByRegistration(r: string) returns (entry: Option<(Car, ParkingSlot)>)
      requires Valid()
      ensures entry.Some? ==> entry.value.1 in parkingSlots.Values && entry.value.1.parkedCar == entry.value.0
      ensures entry.Some? ==> HoldsRegistration(entry.value.1, r)
      ensures entry.None? <==> forall id | id in parkingSlots :: !HoldsRegistration(parkingSlots[id], r)
      ensures entry.Some? && RegistrationsIndexed() ==>
        forall id | id in parkingSlots && HoldsRegistration(parkingSlots[id], r) :: parkingSlots[id] == entry.value.1
    {
      var todo := parkingSlots.Keys;
      while todo != {}
        invariant todo <= parkingSlots.Keys
        invariant forall id | id in parkingSlots.Keys - todo :: !HoldsRegistration(parkingSlots[id], r)
        decreases todo
      {
        var id :| id in todo;
        var slot := parkingSlots[id];
        if slot.occupied && slot.parkedCar.registrationNumber == r {
          return Some((slot.parkedCar, slot));
        }
        todo := todo - {id};
      }
      return None;
    }

    /**
     * Empties one occupied slot whose car has registration `r`, if any.
     * The registration stays in the registration set and the car keeps its
     * parked flag. `emptied` names the slot emptied.
     */
    method RemoveCarByRegistration(r: string) returns (ghost emptied: Option<string>)
      requires Valid()
      modifies parkingSlots.Values
      ensures Valid()
      ensures parkingSlots == old(parkingSlots) && usedSlotNumbers == old(usedSlotNumbers)
      ensures parkedCarRegistrationNumbers == old(parkedCarRegistrationNumbers)
      ensures emptied.None? <==> forall id | id in parkingSlots :: !old(HoldsRegistration(parkingSlots[id], r))
      ensures emptied.Some? ==> emptied.value in parkingSlots && old(HoldsRegistration(parkingSlots[emptied.value], r))
      ensures emptied.Some? ==> !parkingSlots[emptied.value].occupied && parkingSlots[emptied.value].parkedCar == null
      ensures forall id | id in parkingSlots && Some(id) != emptied :: unchanged(parkingSlots[id])
      ensures old(RegistrationsIndexed()) ==> RegistrationsIndexed()
    {
      var todo := parkingSlots.Keys;
      while todo != {}
        invariant todo <= parkingSlots.Keys
        invariant forall id | id in parkingSlots.Keys - todo :: !HoldsRegistration(parkingSlots[id], r)
        decreases todo
      {
        var id :| id in todo;
        var slot := parkingSlots[id];
        if slot.occupied && slot.parkedCar.registrationNumber == r {
          slot.RemoveCar();
          OccupiedAfterRemoval(id);
          return Some(id);
        }
        todo := todo - {id};
      }
      return None;
    }

    /** Empties slot `slotID` when it exists and is occupied; both sets stay as they are. */
    method RemoveCarBySlotID(slotID: string)
      requires Valid()
      modifies if slotID in parkingSlots then {parkingSlots[slotID]} else {}
      ensures Valid()
      ensures slotID in parkingSlots ==> !parkingSlots[slotID].occupied && parkingSlots[slotID].parkedCar == null
      ensures slotID in parkingSlots && !old(parkingSlots[slotID].occupied) ==> unchanged(parkingSlots[slotID])
      ensures old(RegistrationsIndexed()) ==> RegistrationsIndexed()
    {
      if slotID in parkingSlots {
        var slot := parkingSlots[slotID];
        if slot.occupied {
          slot.RemoveCar();
          OccupiedAfterRemoval(slotID);
        }
      }
    }

    /** What emptying the occupied slot `slotID` does to the occupied registrations. */
    twostate lemma OccupiedAfterRemoval(slotID: string)
      requires old(Valid()) && Valid() && slotID in parkingSlots
      requires parkingSlots == old(parkingSlots) && parkedCarRegistrationNumbers == old(parkedCarRegistrationNumbers)
      requires old(parkingSlots[slotID].occupied) && !parkingSlots[slotID].occupied
      requires forall id | id in parkingSlots && id != slotID :: unchanged(parkingSlots[id])
      ensures OccupiedRegistrations() <= old(OccupiedRegistrations())
      ensures old(RegistrationsIndexed()) ==> RegistrationsIndexed()
      ensures old(RegistrationsIndexed()) ==>
        OccupiedRegistrations() == old(OccupiedRegistrations()) - {old(parkingSlots[slotID].parkedCar.registrationNumber)}
    {
      var r := old(parkingSlots[slotID].parkedCar.registrationNumber);
      assert forall id | id in parkingSlots && id != slotID ::
        forall r' :: HoldsRegistration(parkingSlots[id], r') == old(HoldsRegistration(parkingSlots[id], r'));
      if old(RegistrationsIndexed()) {
        assert old(HoldsRegistration(parkingSlots[slotID], r));
        forall x | x in old(OccupiedRegistrations()) - {r} ensures x in OccupiedRegistrations() {
          var id :| id in parkingSlots && old(HoldsRegistration(parkingSlots[id], x));
          assert id != slotID;
        }
      }
    }

    /** The make filter of findCarsByMake: the ids of the occupied slots whose car's make matches. */
    method FindCarsByMake(make: string) returns (ids: set<string>)
      ensures forall id :: id in ids <==> id in parkingSlots && HoldsMake(parkingSlots[id], make)
      ensures ids == SlotsWithMake(make)
    {
      ids := {};
      var todo := parkingSlots.Keys;
      while todo != {}
        invariant todo <= parkingSlots.Keys
        invariant forall id :: id in ids <==> id in parkingSlots.Keys - todo && HoldsMake(parkingSlots[id], make)
        decreases todo
      {
        var id :| id in todo;
        var slot := parkingSlots[id];
        if slot.occupied && slot.parkedCar != null {
          if EqualsIgnoreCase(slot.parkedCar.make, make) {
            ids := ids + {id};
          }
        }
        todo := todo - {id};
      }
    }

    /** Two queries with the same upper-cased form select the same slots. */
    lemma MakeQueryIgnoresCase(make1: string, make2: string)
      requires ToUpper(make1) == ToUpper(make2)
      ensures SlotsWithMake(make1) == SlotsWithMake(make2)
    {
      forall id | id in parkingSlots && parkingSlots[id].parkedCar != null {
        QueryCaseIsIrrelevant(parkingSlots[id].parkedCar.make, make1, make2);
      }
    }

    /**
     * Corrected removal by registration: as RemoveCarByRegistration, and it
     * also takes the freed registration out of the registration set.
     */
    method RemoveCarByRegistrationReleasing(r: string) returns (ghost emptied: Option<string>)
      requires Valid()
      modifies this, parkingSlots.Values
      ensures Valid()
      ensures parkingSlots == old(parkingSlots) && usedSlotNumbers == old(usedSlotNumbers)
      ensures emptied.None? <==> forall id | id in parkingSlots :: !old(HoldsRegistration(parkingSlots[id], r))
      ensures emptied.Some? ==> emptied.value in parkingSlots && old(HoldsRegistration(parkingSlots[emptied.value], r))
      ensures emptied.Some? ==> !parkingSlots[emptied.value].occupied && parkingSlots[emptied.value].parkedCar == null
      ensures forall id | id in parkingSlots && Some(id) != emptied :: unchanged(parkingSlots[id])
      ensures parkedCarRegistrationNumbers ==
        if emptied.Some? then old(parkedCarRegistrationNumbers) - {r} else old(parkedCarRegistrationNumbers)
      ensures old(IndexExact()) ==> IndexExact() && r !in parkedCarRegistrationNumbers
    {
      var todo := parkingSlots.Keys;
      while todo != {}
        invariant todo <= parkingSlots.Keys
        invariant forall id | id in parkingSlots.Keys - todo :: !HoldsRegistration(parkingSlots[id], r)
        decreases todo
      {
        var id :| id in todo;
        var slot := parkingSlots[id];
        if slot.occupied && slot.parkedCar.registrationNumber == r {
          slot.RemoveCar();
          OccupiedAfterRemoval(id);
          parkedCarRegistrationNumbers := parkedCarRegistrationNumbers - {r};
          return Some(id);
        }
        todo := todo - {id};
      }
      if old(IndexExact()) {
        assert r !in OccupiedRegistrations();
      }
      return None;
    }

    /**
     * Corrected removal by slot id: as RemoveCarBySlotID, and it also takes
     * the freed registration out of the registration set.
     */
    method RemoveCarBySlotIDReleasing(slotID: string)
      requires Valid()
      modifies this, if slotID in parkingSlots then {parkingSlots[slotID]} else {}
      ensures Valid()
      ensures parkingSlots == old(parkingSlots) && usedSlotNumbers == old(usedSlotNumbers)
      ensures slotID in parkingSlots ==> !parkingSlots[slotID].occupied && parkingSlots[slotID].parkedCar == null
      ensures slotID in parkingSlots && !old(parkingSlots[slotID].occupied) ==> unchanged(parkingSlots[slotID])
      ensures parkedCarRegistrationNumbers ==
        if slotID in parkingSlots && old(parkingSlots[slotID].occupied)
        then old(parkedCarRegistrationNumbers) - {old(parkingSlots[slotID].parkedCar.registrationNumber)}
        else old(parkedCarRegistrationNumbers)
      ensures old(IndexExact()) ==> IndexExact()
    {
      if slotID in parkingSlots {
        var slot := parkingSlots[slotID];
        if slot.occupied {
          var r := slot.parkedCar.registrationNumber;
          slot.RemoveCar();
          OccupiedAfterRemoval(slotID);
          parkedCarRegistrationNumbers := parkedCarRegistrationNumbers - {r};
        }
      }
    }
  }
}
