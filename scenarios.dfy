/**
 * Client walk-throughs of the registry. `TwoSlotsWithABC123InA001` is the
 * shared setup. The `ReparkAfterRemoval...` methods re-park a removed
 * registration on the code as written and are refused; the
 * `ReparkAfterReleasingRemoval...` methods take the same steps with the
 * corrected removals and succeed. `DeletedSlotIdStaysUsed` shows a deleted
 * slot id staying used, `ParkThenFind` looks up a car just parked in any
 * registry state, and `SlotParkThenRemove` is the round trip of one slot.
 */
module Scenarios {
  import opened Wrappers
  import opened Cars
  import opened Slots
  import opened Registry

  /** Slots A001 and B001 with car ABC123 parked in A001, as the first park call leaves them. */
  method TwoSlotsWithABC123InA001() returns (park: CarPark, a: ParkingSlot, b: ParkingSlot, first: bool)
    ensures fresh(park) && fresh(a) && fresh(b) && first
    ensures park.Valid() && park.IndexExact()
    ensures park.parkingSlots == map["A001" := a, "B001" := b]
    ensures park.parkedCarRegistrationNumbers == {"ABC123"}
    ensures a.occupied && a.parkedCar != null && a.parkedCar.registrationNumber == "ABC123"
    ensures !b.occupied && b.parkedCar == null
  {
    park := new CarPark();
    a := new ParkingSlot("A001");
    b := new ParkingSlot("B001");
    var okA := park.AddParkingSlot(a);
    var okB := park.AddParkingSlot(b);
    assert park.parkingSlots == map["A001" := a, "B001" := b];
    var car := new Car("ABC123", "Toyota", "Corolla", "2020");
    first := park.ParkCar("A001", car, "2023-10-22 09:00:00");
  }

  /**
   * Slots A001 and B001; ABC123 parks in A001; a second ABC123 is refused at
   * B001, leaving A001 occupied; ABC123 is removed by registration; parking
   * ABC123 in B001 is then still refused, because the registration stays in
   * the set.
   */
  method ReparkAfterRemovalByRegistration()
    returns (first: bool, aOccupied: bool, duplicate: bool, bEmpty: bool, aEmptied: bool, repark: bool)
    ensures first && aOccupied
    ensures !duplicate && bEmpty
    ensures aEmptied
    ensures !repark
  {
    var park, a, b;
    park, a, b, first := TwoSlotsWithABC123InA001();
    var twin := new Car("ABC123", "Toyota", "Corolla", "2020");
    duplicate := park.ParkCar("B001", twin, "2023-10-22 09:05:00");
    aOccupied := a.occupied;
    bEmpty := !b.occupied;
    ghost var emptied := park.RemoveCarByRegistration("ABC123");
    aEmptied := !a.occupied;
    var again := new Car("ABC123", "Toyota", "Corolla", "2020");
    repark := park.ParkCar("B001", again, "2023-10-22 09:10:00");
  }

  /** As above, removing by slot id: the re-park is refused as well. */
  method ReparkAfterRemovalBySlotID() returns (first: bool, aEmptied: bool, repark: bool)
    ensures first && aEmptied && !repark
  {
    var park, a, b;
    park, a, b, first := TwoSlotsWithABC123InA001();
    park.RemoveCarBySlotID("A001");
    aEmptied := !a.occupied;
    var again := new Car("ABC123", "Toyota", "Corolla", "2020");
    repark := park.ParkCar("B001", again, "2023-10-22 09:10:00");
  }

  /** The same steps with the registration released on removal: the re-park succeeds. */
  method ReparkAfterReleasingRemovalByRegistration() returns (first: bool, duplicate: bool, repark: bool)
    ensures first && !duplicate && repark
  {
    var park, a, b;
    park, a, b, first := TwoSlotsWithABC123InA001();
    var twin := new Car("ABC123", "Toyota", "Corolla", "2020");
    duplicate := park.ParkCar("B001", twin, "2023-10-22 09:05:00");
    ghost var emptied := park.RemoveCarByRegistrationReleasing("ABC123");
    var again := new Car("ABC123", "Toyota", "Corolla", "2020");
    repark := park.ParkCar("B001", again, "2023-10-22 09:10:00");
  }

  /** The corrected removal by slot id: the re-park succeeds. */
  method ReparkAfterReleasingRemovalBySlotID() returns (first: bool, repark: bool)
    ensures first && repark
  {
    var park, a, b;
    park, a, b, first := TwoSlotsWithABC123InA001();
    park.RemoveCarBySlotIDReleasing("A001");
    var again := new Car("ABC123", "Toyota", "Corolla", "2020");
    repark := park.ParkCar("B001", again, "2023-10-22 09:10:00");
  }

  /**
   * Deleting an occupied slot leaves it in place and occupied; once emptied
   * it can be deleted, and its id can never be added again.
   */
  method DeletedSlotIdStaysUsed() returns (stillThere: bool, stillOccupied: bool, gone: bool, readded: bool)
    ensures stillThere && stillOccupied && gone && !readded
  {
    var park := new CarPark();
    var a := new ParkingSlot("A001");
    var okA := park.AddParkingSlot(a);
    var car := new Car("XYZ789", "Honda", "Civic", "2019");
    var parked := park.ParkCar("A001", car, "2023-10-22 09:00:00");
    assert parked && park.parkingSlots == map["A001" := a] && park.usedSlotNumbers == {"A001"};
    park.DeleteParkingSlot("A001");
    stillThere := park.GetParkingSlot("A001") == a;
    stillOccupied := a.occupied;
    park.RemoveCarBySlotID("A001");
    assert !a.occupied;
    park.DeleteParkingSlot("A001");
    assert park.parkingSlots == map[] && park.usedSlotNumbers == {"A001"};
    gone := park.GetParkingSlot("A001") == null;
    var replacement := new ParkingSlot("A001");
    readded := park.AddParkingSlot(replacement);
  }

  /** Once a car is parked, looking up its registration finds that car in that slot. */
  method ParkThenFind(park: CarPark, slotID: string, car: Car, now: string)
    returns (ok: bool, entry: Option<(Car, ParkingSlot)>)
    requires park.Valid() && park.RegistrationsIndexed()
    modifies park, car, if slotID in park.parkingSlots then {park.parkingSlots[slotID]} else {}
    ensures ok ==> slotID in park.parkingSlots && entry == Some((car, park.parkingSlots[slotID]))
  {
    ok := park.ParkCar(slotID, car, now);
    entry := park.FindCarByRegistration(car.registrationNumber);
  }

  /** A slot that takes a car and gives it back is empty again. */
  method SlotParkThenRemove(slot: ParkingSlot, car: Car)
    requires !slot.occupied
    modifies slot
    ensures !slot.occupied && slot.parkedCar == null && slot.Valid()
  {
    slot.ParkCar(car);
    slot.RemoveCar();
  }
}
