/**
 * A parking slot (the class declared in Application.java, used everywhere else
 * under the name ParkingSlot). The slot id is fixed at construction. The slot
 * is a two-state machine over `occupied` and `parkedCar`; `Valid` is the
 * agreement between the two, which the public `SetOccupied` can break.
 */
module Slots {
  import opened Cars

  class ParkingSlot {
    const slotID: string
    var occupied: bool
    var parkedCar: Car?

    ghost predicate Valid()
      reads this
    {
      occupied <==> parkedCar != null
    }

    constructor (slotID: string)
      ensures this.slotID == slotID
      ensures !occupied && parkedCar == null
      ensures Valid()
    {
      this.slotID := slotID;
      occupied := false;
      parkedCar := null;
    }

    method SetOccupied(occupied: bool)
      modifies this`occupied
      ensures this.occupied == occupied
      ensures parkedCar == old(parkedCar)
    {
      this.occupied := occupied;
    }

    /** Stores `car` when the slot is free; an occupied slot keeps its car. */
    method ParkCar(car: Car?)
      modifies this
      ensures old(!occupied) ==> occupied && parkedCar == car
      ensures old(occupied) ==> occupied && parkedCar == old(parkedCar)
      ensures old(Valid()) && car != null ==> Valid()
    {
      if !occupied {
        parkedCar := car;
        occupied := true;
      }
    }

    /** Empties an occupied slot; an empty slot is left as it is. */
    method RemoveCar()
      modifies this
      ensures !occupied
      ensures old(occupied) ==> parkedCar == null
      ensures old(!occupied) ==> parkedCar == old(parkedCar)
      ensures old(Valid()) ==> Valid()
    {
      if occupied {
        parkedCar := null;
        occupied := false;
      }
    }
  }
}
